/** Client-side email check run before an assessment is submitted: it trims
    the input and accepts it only when it looks like `local@domain.tld`, is at
    most 254 code units long, has no control characters and has a domain of at
    least four code units. */
module EmailValidation {
  import opened Text

  /** The value handed to the validator: a string, or anything else. */
  datatype JsValue = JsString(text: string) | NonString

  const MsgInvalid := "Please enter a valid corporate email."
  const MsgTooLong := "Email address is too long."
  const MsgBadChars := "Invalid characters in email."

  const MaxLength := 254
  const MinDomainLength := 4

  /** The class `[\x00-\x1F\x7F]`. */
  predicate IsControl(c: char) {
    c as int <= 0x1F || c as int == 0x7F
  }

  predicate HasControl(s: string) {
    exists i | 0 <= i < |s| :: IsControl(s[i])
  }

  /** The class `[^\s@]`. */
  predicate IsAtomChar(c: char) {
    !IsSpace(c) && c != '@'
  }

  predicate AllAtomChars(s: string) {
    forall i | 0 <= i < |s| :: IsAtomChar(s[i])
  }

  /** `s` matches `^[^\s@]+@[^\s@]+\.[^\s@]+$` with the `@` at position `at`
      and the literal `.` at position `dot`: three non-empty runs of `[^\s@]`. */
  ghost predicate PatternSplit(s: string, at: int, dot: int) {
    && 0 < at && at + 1 < dot && dot + 1 < |s|
    && s[at] == '@' && s[dot] == '.'
    && AllAtomChars(s[..at]) && AllAtomChars(s[at + 1..dot]) && AllAtomChars(s[dot + 1..])
  }

  /** The language of the regular expression `^[^\s@]+@[^\s@]+\.[^\s@]+$`. */
  ghost predicate MatchesEmailPattern(s: string) {
    exists at, dot :: PatternSplit(s, at, dot)
  }

  /** A `.` with at least one character on each side. */
  predicate HasInnerDot(d: string) {
    exists i | 0 < i < |d| - 1 :: d[i] == '.'
  }

  /** The matcher the validator runs: find the first `@`, then check the text
      before it and the domain after it. */
  predicate ScanEmailPattern(s: string) {
    && '@' in s
    && var at := IndexOf(s, '@');
    && 0 < at
    && AllAtomChars(s[..at])
    && AllAtomChars(s[at + 1..])
    && HasInnerDot(s[at + 1..])
  }

  /** The matcher recognises exactly the language of the regular expression. */
  lemma ScanMatchesPattern(s: string)
    ensures ScanEmailPattern(s) <==> MatchesEmailPattern(s)
  {
    if ScanEmailPattern(s) {
      var at := IndexOf(s, '@');
      var d := s[at + 1..];
      var i :| 0 < i < |d| - 1 && d[i] == '.';
      var dot := at + 1 + i;
      assert s[at + 1..dot] == d[..i];
      assert s[dot + 1..] == d[i + 1..];
      assert PatternSplit(s, at, dot);
    }
    if MatchesEmailPattern(s) {
      var at, dot :| PatternSplit(s, at, dot);
      assert '@' !in s[..at] by {
        forall j | 0 <= j < at ensures s[..at][j] != '@' { assert IsAtomChar(s[..at][j]); }
      }
      IndexOfFirst(s, '@', at);
      var d := s[at + 1..];
      forall j | 0 <= j < |d| ensures IsAtomChar(d[j]) {
        if j < dot - at - 1 {
          assert d[j] == s[at + 1..dot][j];
        } else if j > dot - at - 1 {
          assert d[j] == s[dot + 1..][j - (dot - at)];
        }
      }
      assert d[dot - at - 1] == '.';
    }
  }

  /** With a single `@` at `at`, `split("@")[1]` is everything after it. */
  lemma SplitAtSingleAt(s: string, at: nat)
    requires at < |s| && s[at] == '@'
    requires '@' !in s[..at] && '@' !in s[at + 1..]
    ensures |Split(s, '@')| == 2 && Split(s, '@')[1] == s[at + 1..]
  {
    IndexOfFirst(s, '@', at);
  }

  /** `validateEmail`: `None` means valid, otherwise the message to show. */
  function ValidateEmail(value: JsValue): (err: Option<string>)
    ensures value.NonString? ==> err == Some(MsgInvalid)
    ensures err.Some? ==> err.value in {MsgInvalid, MsgTooLong, MsgBadChars}
    ensures value.JsString? ==>
      (err == Some(MsgTooLong) <==> Utf16Length(Trim(value.text)) > MaxLength)
    ensures value.JsString? ==>
      (err == Some(MsgBadChars) <==>
        var s := Trim(value.text); s != [] && Utf16Length(s) <= MaxLength && HasControl(s))
  {
    match value
    case NonString => Some(MsgInvalid)
    case JsString(raw) =>
      var s := Trim(raw);
      if |s| == 0 then Some(MsgInvalid)
      else if Utf16Length(s) > MaxLength then Some(MsgTooLong)
      else if HasControl(s) then Some(MsgBadChars)
      else if !ScanEmailPattern(s) then Some(MsgInvalid)
      else
        var parts := Split(s, '@');
        if |parts| < 2 || parts[1] == "" || Utf16Length(parts[1]) < MinDomainLength then Some(MsgInvalid)
        else None
  }

  /** What an accepted (already trimmed) address looks like. */
  ghost predicate AcceptableEmail(s: string) {
    && 1 <= Utf16Length(s) <= MaxLength
    && !HasControl(s)
    && exists at, dot :: PatternSplit(s, at, dot) && Utf16Length(s[at + 1..]) >= MinDomainLength
  }

  /** The checks of `ValidateEmail` on the trimmed text, all passed. */
  predicate PassesChecks(s: string) {
    && s != []
    && Utf16Length(s) <= MaxLength
    && !HasControl(s)
    && ScanEmailPattern(s)
    && var parts := Split(s, '@');
    && |parts| >= 2 && parts[1] != "" && Utf16Length(parts[1]) >= MinDomainLength
  }

  lemma AcceptedIffChecksPass(raw: string)
    ensures ValidateEmail(JsString(raw)) == None <==> PassesChecks(Trim(raw))
  {
  }

  lemma ChecksGiveAcceptable(s: string)
    requires PassesChecks(s)
    ensures AcceptableEmail(s)
  {
    ScanMatchesPattern(s);
    var at, dot :| PatternSplit(s, at, dot);
    PatternHasSingleAt(s, at, dot);
    SplitAtSingleAt(s, at);
    assert PatternSplit(s, at, dot) && Utf16Length(s[at + 1..]) >= MinDomainLength;
  }

  lemma AcceptableGivesChecks(s: string)
    requires AcceptableEmail(s)
    ensures PassesChecks(s)
  {
    var at, dot :| PatternSplit(s, at, dot) && Utf16Length(s[at + 1..]) >= MinDomainLength;
    assert MatchesEmailPattern(s);
    ScanMatchesPattern(s);
    PatternHasSingleAt(s, at, dot);
    SplitAtSingleAt(s, at);
  }

  /** A string is valid exactly when its trimmed form is an acceptable address;
      whitespace around the address is ignored. */
  lemma ValidateEmailAccepts(raw: string)
    ensures ValidateEmail(JsString(raw)) == None <==> AcceptableEmail(Trim(raw))
  {
    AcceptedIffChecksPass(raw);
    if PassesChecks(Trim(raw)) { ChecksGiveAcceptable(Trim(raw)); }
    if AcceptableEmail(Trim(raw)) { AcceptableGivesChecks(Trim(raw)); }
  }

  /** The `@` of a matching string is its only one. */
  lemma PatternHasSingleAt(s: string, at: int, dot: int)
    requires PatternSplit(s, at, dot)
    ensures 0 <= at < |s| && '@' !in s[..at] && '@' !in s[at + 1..]
    ensures forall j :: 0 <= j < |s| && j != at ==> s[j] != '@'
  {
    forall j | 0 <= j < at ensures s[..at][j] != '@' { assert IsAtomChar(s[..at][j]); }
    var d := s[at + 1..];
    forall j | 0 <= j < |d| ensures d[j] != '@' {
      if j < dot - at - 1 {
        assert d[j] == s[at + 1..dot][j];
      } else if j > dot - at - 1 {
        assert d[j] == s[dot + 1..][j - (dot - at)];
      }
    }
    forall j | 0 <= j < |s| && j != at ensures s[j] != '@' {
      if j < at {
        assert s[j] == s[..at][j];
      } else {
        assert s[j] == d[j - at - 1];
      }
    }
  }

  /** An address whose domain, the text after its `@`, is shorter than four
      code units is rejected. */
  lemma ShortDomainRejected(raw: string, at: nat)
    requires at < |Trim(raw)| && Trim(raw)[at] == '@'
    requires Utf16Length(Trim(raw)[at + 1..]) < MinDomainLength
    ensures ValidateEmail(JsString(raw)).Some?
  {
    ShortDomainNotAcceptable(Trim(raw), at);
    ValidateEmailAccepts(raw);
  }

  lemma ShortDomainNotAcceptable(s: string, at: nat)
    requires at < |s| && s[at] == '@'
    requires Utf16Length(s[at + 1..]) < MinDomainLength
    ensures !AcceptableEmail(s)
  {
    forall a, d | PatternSplit(s, a, d) ensures Utf16Length(s[a + 1..]) < MinDomainLength {
      PatternHasSingleAt(s, a, d);
    }
  }

  /** A blank string (empty, or whitespace only) is rejected as invalid. */
  lemma RejectsBlank(raw: string)
    requires forall i | 0 <= i < |raw| :: IsSpace(raw[i])
    ensures ValidateEmail(JsString(raw)) == Some(MsgInvalid)
  {
    TrimKeepsMiddle(raw);
    var s, k := Trim(raw), |raw| - |TrimStart(raw)|;
    assert forall j :: 0 <= j < |s| ==> s[j] == raw[k + j];
  }
}
