/** The language helpers: the dotted-path lookup `t` into the translation
    tables, and the choice of a display language from the browser's
    preferences. */
module I18n {
  import opened Text

  /** A node of the translation tables: a translated string, or a table of
      further nodes. */
  datatype Node = Str(s: string) | Table(entries: map<string, Node>)

  /** `val[k]`: a table's entry; a string, or a missing entry, gives nothing. */
  function Child(n: Node, key: string): Option<Node> {
    match n
    case Table(m) => if key in m then Some(m[key]) else None
    case Str(_) => None
  }

  /** The node reached by following `keys` from `n`, nothing once an entry is
      missing. */
  function Walk(n: Option<Node>, keys: seq<string>): Option<Node>
    decreases |keys|
  {
    if keys == [] || n.None? then n
    else Walk(Child(n.value, keys[0]), keys[1..])
  }

  /** `localStorage.getItem("9sec_lang") || "en"`. */
  function CurrentLang(stored: Option<string>): string {
    OrElse(stored, "en")
  }

  /** `translations[lang] || translations.en`. */
  function LanguageTable(translations: map<string, Node>, lang: string): Option<Node> {
    if lang in translations && translations[lang] != Str("") then Some(translations[lang])
    else if "en" in translations then Some(translations["en"])
    else None
  }

  /** The value of `t(path, fallback)`: the node at the dotted path in the
      selected table, unless it is missing or the empty string. */
  function Translation(translations: map<string, Node>, lang: string, path: string, fallback: string): Node {
    var v := Walk(LanguageTable(translations, lang), Split(path, '.'));
    if v.Some? && v.value != Str("") then v.value else Str(fallback)
  }

  /** `t`: reads the stored language, then walks the keys of `path` one at a
      time and gives up as soon as a step finds nothing. `stored` is the value
      of `localStorage.getItem("9sec_lang")`. */
  method T(translations: map<string, Node>, stored: Option<string>, path: string, fallback: string) returns (r: Node)
    ensures r == Translation(translations, CurrentLang(stored), path, fallback)
  {
    var lang := CurrentLang(stored);
    var obj := LanguageTable(translations, lang);
    var keys := Split(path, '.');
    var val := obj;
    for i := 0 to |keys|
      invariant Walk(obj, keys) == Walk(val, keys[i..])
    {
      if val.None? {
        return Str(fallback);
      }
      assert keys[i..][1..] == keys[i + 1..];
      val := Child(val.value, keys[i]);
    }
    assert keys[|keys|..] == [];
    if val.Some? && val.value != Str("") {
      r := val.value;
    } else {
      r := Str(fallback);
    }
  }

  /** Following a path in two parts is following the first, then the second. */
  lemma {:induction false} WalkAppend(n: Option<Node>, a: seq<string>, b: seq<string>)
    ensures Walk(n, a + b) == Walk(Walk(n, a), b)
    decreases |a|
  {
    if a == [] {
      assert a + b == b;
    } else if n.Some? {
      assert (a + b)[1..] == a[1..] + b;
      WalkAppend(Child(n.value, a[0]), a[1..], b);
    } else {
      assert Walk(None, b) == None by { WalkFromNothing(b); }
    }
  }

  lemma {:induction false} WalkFromNothing(keys: seq<string>)
    ensures Walk(None, keys) == None
  {
  }

  /** The dotted path `k1.k2. ... .kn` looks up `k1`, then `k2`, ..., then `kn`,
      provided no key holds a dot. */
  lemma DottedPathWalksKeys(translations: map<string, Node>, lang: string, keys: seq<string>, fallback: string)
    requires |keys| >= 1
    requires forall i :: 0 <= i < |keys| ==> '.' !in keys[i]
    ensures var v := Walk(LanguageTable(translations, lang), keys);
      Translation(translations, lang, Join(keys, '.'), fallback) ==
        if v.Some? && v.value != Str("") then v.value else Str(fallback)
  {
    SplitJoin(keys, '.');
  }

  /** A non-empty string stored at the path is returned as it is. */
  lemma FoundStringReturned(translations: map<string, Node>, lang: string, path: string, fallback: string, s: string)
    requires Walk(LanguageTable(translations, lang), Split(path, '.')) == Some(Str(s))
    requires s != ""
    ensures Translation(translations, lang, path, fallback) == Str(s)
  {
  }

  /** A path leaving the tables at some key gives the fallback, whatever
      keys follow. */
  lemma {:induction false} MissingPrefixGivesFallback(translations: map<string, Node>, lang: string, path: string, fallback: string, k: nat)
    requires k <= |Split(path, '.')|
    requires Walk(LanguageTable(translations, lang), Split(path, '.')[..k]) == None
    ensures Translation(translations, lang, path, fallback) == Str(fallback)
  {
    var keys := Split(path, '.');
    assert keys == keys[..k] + keys[k..];
    WalkAppend(LanguageTable(translations, lang), keys[..k], keys[k..]);
    WalkFromNothing(keys[k..]);
  }

  /** With no language stored, or an empty one, `t` reads English; a stored
      language is used as it is. */
  lemma NoStoredLanguageReadsEnglish(translations: map<string, Node>, stored: Option<string>, path: string, fallback: string)
    ensures stored in {None, Some("")} ==>
      Translation(translations, CurrentLang(stored), path, fallback) == Translation(translations, "en", path, fallback)
    ensures stored.Some? && stored.value != "" ==>
      Translation(translations, CurrentLang(stored), path, fallback) == Translation(translations, stored.value, path, fallback)
  {
  }

  /** An unknown language reads the English table. */
  lemma UnknownLanguageUsesEnglish(translations: map<string, Node>, lang: string, path: string, fallback: string)
    requires lang !in translations
    ensures Translation(translations, lang, path, fallback) == Translation(translations, "en", path, fallback)
  {
  }

  // ---------------------------------------------------------------------------
  // Browser language

  /** The primary subtag of a language tag, lower-cased: `"zh-TW"` gives `"zh"`. */
  function PrimaryCode(tag: string): string {
    Split(ToLower(tag), '-')[0]
  }

  /** The site language a tag selects, if any: Chinese gives `tw`, Japanese `jp`. */
  function LangOfCode(code: string): Option<string> {
    if code == "zh" then Some("tw") else if code == "ja" then Some("jp") else None
  }

  /** The language chosen by the first tag in `list` that selects one. */
  function FirstSelected(list: seq<Option<string>>): (pick: Option<string>)
    ensures pick.Some? ==> pick.value in {"tw", "jp"}
    decreases |list|
  {
    if list == [] then None
    else
      var pick := LangOfCode(PrimaryCode(OrElse(list[0], "")));
      if pick.Some? then pick else FirstSelected(list[1..])
  }

  /** `(navigator.language || navigator.userLanguage || '').toLowerCase()`. */
  function RawLang(language: Option<string>, userLanguage: Option<string>): string {
    ToLower(OrElse(language, OrElse(userLanguage, "")))
  }

  /** The closing check on the raw browser language. */
  function LangOfRaw(raw: string): string {
    if StartsWith(raw, "zh") then "tw" else if StartsWith(raw, "ja") then "jp" else "en"
  }

  /** The value of `getBrowserLang()`; `languages` is `navigator.languages`
      when the browser has it. An empty list is still a list. */
  function BrowserLang(language: Option<string>, userLanguage: Option<string>, languages: Option<seq<Option<string>>>): (lang: string)
    ensures lang in {"tw", "jp", "en"}
  {
    var raw := RawLang(language, userLanguage);
    var list := if languages.Some? then languages.value else [Some(raw)];
    var pick := FirstSelected(list);
    if pick.Some? then pick.value else LangOfRaw(raw)
  }

  /** `getBrowserLang`: the first preferred language that is Chinese or
      Japanese, otherwise a prefix test on the raw browser language. */
  method GetBrowserLang(language: Option<string>, userLanguage: Option<string>, languages: Option<seq<Option<string>>>) returns (lang: string)
    ensures lang == BrowserLang(language, userLanguage, languages)
  {
    var raw := RawLang(language, userLanguage);
    var list := if languages.Some? then languages.value else [Some(raw)];
    for i := 0 to |list|
      invariant FirstSelected(list) == FirstSelected(list[i..])
    {
      var code := PrimaryCode(OrElse(list[i], ""));
      assert list[i..][1..] == list[i + 1..];
      if code == "zh" {
        return "tw";
      }
      if code == "ja" {
        return "jp";
      }
    }
    assert list[|list|..] == [];
    if StartsWith(raw, "zh") {
      return "tw";
    }
    if StartsWith(raw, "ja") {
      return "jp";
    }
    return "en";
  }

  /** The first tag that is Chinese or Japanese decides, whatever follows. */
  lemma {:induction false} FirstMatchDecides(list: seq<Option<string>>, i: nat)
    requires i < |list|
    requires LangOfCode(PrimaryCode(OrElse(list[i], ""))).Some?
    requires forall j :: 0 <= j < i ==> LangOfCode(PrimaryCode(OrElse(list[j], ""))).None?
    ensures FirstSelected(list) == LangOfCode(PrimaryCode(OrElse(list[i], "")))
    decreases i
  {
    if i > 0 {
      assert list[1..][i - 1] == list[i];
      FirstMatchDecides(list[1..], i - 1);
    }
  }

  /** Nothing is selected exactly when no tag is Chinese or Japanese. */
  lemma {:induction false} NothingSelected(list: seq<Option<string>>)
    ensures FirstSelected(list).None? <==>
      forall j :: 0 <= j < |list| ==> LangOfCode(PrimaryCode(OrElse(list[j], ""))).None?
    decreases |list|
  {
    if list != [] {
      NothingSelected(list[1..]);
      assert forall j :: 1 <= j < |list| ==> list[j] == list[1..][j - 1];
    }
  }

  /** A primary subtag is a prefix of its tag. */
  lemma PrimaryCodeIsPrefix(raw: string)
    requires ToLower(raw) == raw
    ensures StartsWith(raw, PrimaryCode(raw))
  {
  }

  /** Without `navigator.languages`, the choice is a prefix test on the raw
      language alone: the list check adds nothing to the closing check. */
  lemma {:induction false} WithoutLanguageList(language: Option<string>, userLanguage: Option<string>)
    ensures BrowserLang(language, userLanguage, None) == LangOfRaw(RawLang(language, userLanguage))
  {
    var raw := RawLang(language, userLanguage);
    ToLowerIdempotent(OrElse(language, OrElse(userLanguage, "")));
    assert ToLower(raw) == raw;
    var code := PrimaryCode(raw);
    PrimaryCodeIsPrefix(raw);
    assert FirstSelected([Some(raw)]) == LangOfCode(code);
    if code == "zh" {
      assert raw[..2] == "zh";
    } else if code == "ja" {
      assert raw[..2] == "ja";
      assert !StartsWith(raw, "zh");
    }
  }
}
