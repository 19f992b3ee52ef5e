/** The posture normaliser: every raw status value of the report is shown
    with one of three classes, chosen case-insensitively from two fixed word
    lists. */
module Posture {
  import opened Text

  datatype StatusClass = Pass | Warn | Fail

  /** Values shown as passing, in lower case. */
  const PassWords: seq<string> := ["pass", "true", "low", "enforce", "enabled"]
  /** Values shown as a warning, in lower case. */
  const WarnWords: seq<string> := ["warn", "none", "medium", "missing", "quarantine/none"]

  /** `getStatusClass`: an absent value fails; otherwise the lower-cased text
      is looked up in the two lists, and anything unrecognised fails. */
  function GetStatusClass(val: Option<string>): (c: StatusClass)
    ensures c == Pass <==> val.Some? && ToLower(val.value) in PassWords
    ensures c == Warn <==> val.Some? && ToLower(val.value) in WarnWords
    ensures c == Fail <==> val.None? || (ToLower(val.value) !in PassWords && ToLower(val.value) !in WarnWords)
  {
    match val
    case None => Fail
    case Some(s) =>
      var lower := ToLower(s);
      if lower in PassWords then Pass
      else if lower in WarnWords then Warn
      else Fail
  }

  /** The two word lists share no word, so no value could belong to both. */
  lemma WordListsDisjoint()
    ensures forall w :: w in PassWords ==> w !in WarnWords
  {
  }

  /** A string without upper-case letters is its own lower-case form. */
  lemma LowerCaseFixed(w: string)
    requires forall i :: 0 <= i < |w| ==> !('A' <= w[i] <= 'Z')
    ensures ToLower(w) == w
  {
  }

  /** Every word of the lists is already in lower case, so each one is
      recognised as written. */
  lemma {:induction false} WordsClassifyAsListed()
    ensures forall i :: 0 <= i < |PassWords| ==> GetStatusClass(Some(PassWords[i])) == Pass
    ensures forall i :: 0 <= i < |WarnWords| ==> GetStatusClass(Some(WarnWords[i])) == Warn
  {
    PassWordsClassify();
    WarnWordsClassify();
  }

  lemma {:induction false} PassWordsClassify()
    ensures forall i :: 0 <= i < |PassWords| ==> GetStatusClass(Some(PassWords[i])) == Pass
  {
    forall i | 0 <= i < |PassWords| ensures GetStatusClass(Some(PassWords[i])) == Pass {
      LowerCaseFixed(PassWords[i]);
    }
  }

  lemma {:induction false} WarnWordsClassify()
    ensures forall i :: 0 <= i < |WarnWords| ==> GetStatusClass(Some(WarnWords[i])) == Warn
  {
    WordListsDisjoint();
    forall i | 0 <= i < |WarnWords| ensures GetStatusClass(Some(WarnWords[i])) == Warn {
      LowerCaseFixed(WarnWords[i]);
    }
  }

  /** Classification ignores case: the value, its lower-case and its
      upper-case form all get the same class. */
  lemma {:induction false} CaseInsensitive(s: string)
    ensures GetStatusClass(Some(ToLower(s))) == GetStatusClass(Some(s))
    ensures GetStatusClass(Some(ToUpper(s))) == GetStatusClass(Some(s))
  {
    ToLowerIdempotent(s);
    ToLowerOfToUpper(s);
  }

  /** `"unknown"` is in neither list, so it is shown as failing. */
  lemma UnknownFails()
    ensures GetStatusClass(Some("unknown")) == Fail
  {
    assert ToLower("unknown") == "unknown";
  }

  /** Two values that differ only in letter case get the same class. */
  lemma SameLowerSameClass(a: string, b: string)
    requires ToLower(a) == ToLower(b)
    ensures GetStatusClass(Some(a)) == GetStatusClass(Some(b))
  {
  }

  /** `"PASS"`, `"Pass"` and `"pass"` are all shown as passing. */
  lemma PassInAnyCase()
    ensures GetStatusClass(Some("PASS")) == Pass
    ensures GetStatusClass(Some("Pass")) == Pass
    ensures GetStatusClass(Some("pass")) == Pass
  {
    assert ToLower("PASS") == "pass";
    assert ToLower("Pass") == "pass";
    assert ToLower("pass") == "pass";
  }

  /** `"ENFORCE"`, as a DMARC policy may be reported, is shown as passing. */
  lemma EnforcePasses()
    ensures GetStatusClass(Some("ENFORCE")) == Pass
  {
    assert ToLower("ENFORCE") == "enforce";
    assert PassWords[3] == "enforce";
  }
}
