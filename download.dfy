/** The name of the downloaded report file: the report's domain with every
    character outside `[a-zA-Z0-9._-]` replaced by `_`, cut to 200 characters. */
module Download {
  import opened Text

  const MaxNameLength := 200
  const NamePrefix := "9Sec_Security_Report_"
  const NameSuffix := ".html"

  /** The class `[a-zA-Z0-9._-]`. */
  predicate IsFilenameChar(c: char) {
    ('a' <= c <= 'z') || ('A' <= c <= 'Z') || ('0' <= c <= '9') || c == '.' || c == '_' || c == '-'
  }

  predicate AllFilenameChars(s: string) {
    forall i :: 0 <= i < |s| ==> IsFilenameChar(s[i])
  }

  /** `replace(/[^a-zA-Z0-9._-]/g, '_')`. The expression works on UTF-16 code
      units, so a character outside the Basic Multilingual Plane becomes two
      underscores. */
  function ReplaceUnsafe(s: string): (r: string)
    ensures |r| == Utf16Length(s)
    ensures AllFilenameChars(r)
    decreases |s|
  {
    if s == [] then []
    else
      var head := if IsFilenameChar(s[0]) then [s[0]] else if CodeUnits(s[0]) == 2 then "__" else "_";
      head + ReplaceUnsafe(s[1..])
  }

  lemma {:induction false} ReplaceUnsafeAppend(a: string, b: string)
    ensures ReplaceUnsafe(a + b) == ReplaceUnsafe(a) + ReplaceUnsafe(b)
    decreases |a|
  {
    if a == [] {
      assert a + b == b;
    } else {
      assert (a + b)[1..] == a[1..] + b;
      ReplaceUnsafeAppend(a[1..], b);
    }
  }

  /** Each allowed character stays in place, at the code-unit offset of the
      text before it; every other character becomes `_`, and one outside the
      basic plane becomes `_` at both of its code units. */
  lemma ReplaceUnsafeAt(s: string, i: nat)
    requires i < |s|
    ensures Utf16Length(s[..i]) < |ReplaceUnsafe(s)|
    ensures IsFilenameChar(s[i]) ==> ReplaceUnsafe(s)[Utf16Length(s[..i])] == s[i]
    ensures !IsFilenameChar(s[i]) ==> ReplaceUnsafe(s)[Utf16Length(s[..i])] == '_'
    ensures !IsFilenameChar(s[i]) && CodeUnits(s[i]) == 2 ==>
      Utf16Length(s[..i]) + 1 < |ReplaceUnsafe(s)| && ReplaceUnsafe(s)[Utf16Length(s[..i]) + 1] == '_'
  {
    assert s == s[..i] + s[i..];
    ReplaceUnsafeAppend(s[..i], s[i..]);
    assert |ReplaceUnsafe(s[..i])| == Utf16Length(s[..i]);
    var tail := ReplaceUnsafe(s[i..]);
    assert s[i..][0] == s[i];
    if !IsFilenameChar(s[i]) && CodeUnits(s[i]) == 2 {
      assert tail == "__" + ReplaceUnsafe(s[i..][1..]);
    }
  }

  /** Text made only of allowed characters is left as it is. */
  lemma {:induction false} ReplaceUnsafeKeepsSafe(s: string)
    requires AllFilenameChars(s)
    ensures ReplaceUnsafe(s) == s
    decreases |s|
  {
    if s != [] {
      ReplaceUnsafeKeepsSafe(s[1..]);
    }
  }

  /** `String(rawDomain).replace(...).slice(0, 200) || 'domain'`. */
  function SafeFilename(raw: string): (r: string)
    ensures 1 <= |r| <= MaxNameLength
    ensures AllFilenameChars(r)
    ensures raw != [] ==> r == ReplaceUnsafe(raw)[..Min(Utf16Length(raw), MaxNameLength)]
    ensures raw == [] ==> r == "domain"
  {
    var replaced := ReplaceUnsafe(raw);
    var cut := replaced[..Min(|replaced|, MaxNameLength)];
    if cut == [] then "domain" else cut
  }

  /** Within the first 200 code units, every allowed character of the domain
      is kept at its place. */
  lemma SafeFilenameKeepsAllowed(raw: string, i: nat)
    requires i < |raw| && IsFilenameChar(raw[i])
    requires Utf16Length(raw[..i]) < MaxNameLength
    ensures Utf16Length(raw[..i]) < |SafeFilename(raw)|
    ensures SafeFilename(raw)[Utf16Length(raw[..i])] == raw[i]
  {
    ReplaceUnsafeAt(raw, i);
  }

  /** Sanitising a sanitised name changes nothing. */
  lemma SafeFilenameIdempotent(raw: string)
    ensures SafeFilename(SafeFilename(raw)) == SafeFilename(raw)
  {
    var r := SafeFilename(raw);
    ReplaceUnsafeKeepsSafe(r);
  }

  /** `data.domain || 'unknown'`. */
  function RawDomain(domain: Option<string>): string {
    OrElse(domain, "unknown")
  }

  /** The `download` attribute of the link: `9Sec_Security_Report_<name>.html`. */
  function DownloadName(domain: Option<string>): (name: string)
    ensures |NamePrefix| + 1 + |NameSuffix| <= |name| <= |NamePrefix| + MaxNameLength + |NameSuffix|
    ensures name[..|NamePrefix|] == NamePrefix
    ensures name[|name| - |NameSuffix|..] == NameSuffix
    ensures name == NamePrefix + SafeFilename(RawDomain(domain)) + NameSuffix
    ensures AllFilenameChars(name[|NamePrefix|..|name| - |NameSuffix|])
  {
    var safe := SafeFilename(RawDomain(domain));
    var name := NamePrefix + safe + NameSuffix;
    assert name[..|NamePrefix|] == NamePrefix;
    assert name[|name| - |NameSuffix|..] == NameSuffix;
    assert name[|NamePrefix|..|name| - |NameSuffix|] == safe;
    name
  }

  /** For a string or absent domain, the `'domain'` fallback never fires for
      a download: the raw domain is never empty, so its sanitised form is
      always the cut replacement. */
  lemma DownloadNeverUsesFallback(domain: Option<string>)
    ensures RawDomain(domain) != []
    ensures SafeFilename(RawDomain(domain)) ==
      ReplaceUnsafe(RawDomain(domain))[..Min(Utf16Length(RawDomain(domain)), MaxNameLength)]
  {
  }

  /** An absent or empty domain is named `unknown`. */
  lemma MissingDomainName()
    ensures SafeFilename(RawDomain(None)) == "unknown"
    ensures SafeFilename(RawDomain(Some(""))) == "unknown"
  {
    var u := "unknown";
    assert RawDomain(None) == u && RawDomain(Some("")) == u;
    assert AllFilenameChars(u);
    ReplaceUnsafeKeepsSafe(u);
    assert SafeFilename(u) == ReplaceUnsafe(u)[..|u|];
  }
}
