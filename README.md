# Email-posture checker of the 9Sec website, in Dafny

This project models the decision logic in the website's client script
(`script.js`). Around it sits DOM, animation and network glue that is not modelled.

- **Email validator** (`EmailValidation`). It trims the address the visitor types,
  then accepts it only if all of these hold:
  - it is 1 to 254 UTF-16 code units long;
  - it has no control characters;
  - it matches `local@domain.tld` (the regular expression is given as a
    predicate over characters, and the matcher is proved equal to it);
  - its domain is at least four code units long.
- **Posture normaliser** (`Posture`). It maps a status value to `pass`, `warn`
  or `fail`, ignoring letter case.
- **Risk scorer** (`RiskScoring`). The source's scorer and breakdown are each
  proved equal to one table-driven reference:
  - the score is a base of 50, plus 20, 30 and 10 for an SPF, DMARC and MX status
    that is exactly `"pass"`, capped at 100;
  - the findings list SPF, then DMARC, then MX (MX only when it passes).
- **Report assembly** (`ReportAssembly`). It builds the report record from the
  backend's results, fills in literal fallbacks, and approximates DNSSEC and
  the TLS version from the DMARC and encryption statuses.
- **Language helpers** (`I18n`):
  - the dotted-path translation lookup `t`, a loop proved against a recursive walk;
  - the choice of the site language from the browser's language list.
- **Download name** (`Download`). The domain is made safe for a file name.
- **Paging** (`Paging`). The "show more / collapse" toggles of the news list
  and of the two threat-intel columns are classes with mutable fields.
- **Shared helpers** (`Text`). These model the JavaScript string built-ins the
  script relies on:
  - `trim` with ECMAScript's whitespace set;
  - ASCII lower- and upper-casing;
  - `split` on one character, with its round trip to `join`;
  - the first-occurrence search that `split` and the regular expression perform;
  - `length` in UTF-16 code units.

The code promises a few things that the lemmas state outright:
- The score never drops below 50. The negative scores of failed SPF and DMARC
  findings are shown but never subtracted. The score equals the base plus the
  positive findings, capped.
- The scorer compares case-sensitively (`"PASS"` earns nothing), while the
  normaliser shows `"PASS"` as passing.
- For a string or absent domain, the `'domain'` fallback of the file-name
  sanitiser can never fire from the download button, because the raw domain
  defaults to `'unknown'`.

## Model

| member | source | states |
|---|---|---|
| `Text.OrElse` | script.js:1088-1089 | JavaScript `x \|\| d` for a string: an absent or empty value gives the default, any other value itself |
| `Text.TrimStart` | script.js:115 | drops exactly the leading whitespace: the result is a suffix, everything removed is whitespace, and the result does not start with whitespace |
| `Text.TrimEnd` | script.js:115 | drops exactly the trailing whitespace, symmetrically |
| `Text.Trim` | script.js:115 | `trim()`: neither end of the result is whitespace |
| `Text.TrimKeepsMiddle` | script.js:115 | the trimmed text is a contiguous middle part of the input, with only whitespace before and after it |
| `Text.ToLower` | script.js:310 | `toLowerCase()` maps each character in place through the letter mapping and keeps the length |
| `Text.ToUpper` | script.js:310 | the upper-case mapping, used to state case-insensitivity |
| `Text.ToLowerIdempotent` | script.js:310 | lower-casing twice is lower-casing once |
| `Text.ToLowerOfToUpper` | script.js:310 | lower-casing forgets the case the text was written in |
| `Text.IndexOf` | script.js:120 | the first-occurrence search behind `split("@")`: the position found holds the character and no earlier position does |
| `Text.IndexOfFirst` | script.js:120 | any position holding the character with none before it is the one found |
| `Text.Split` | script.js:831 | `split(sep)`: at least one piece, no piece contains the separator, joining the pieces restores the input, and the first piece is the text before the first separator |
| `Text.SplitJoin` | script.js:831 | splitting a join of separator-free pieces gives back those pieces |
| `Text.Utf16Length` | script.js:117 | JavaScript `length`: between the number of characters and twice it, and equal to it when all characters lie in the basic plane |
| `EmailValidation.ScanMatchesPattern` | script.js:119 | the matcher accepts exactly the language of `^[^\s@]+@[^\s@]+\.[^\s@]+$`, stated as a split into three non-empty runs around `@` and `.` |
| `EmailValidation.PatternHasSingleAt` | script.js:119 | a matching address has exactly one `@` |
| `EmailValidation.SplitAtSingleAt` | script.js:120 | with a single `@`, `split("@")[1]` is the whole text after it |
| `EmailValidation.ValidateEmail` | script.js:113-123 | a non-string is rejected as invalid; only the three source messages occur; "too long" occurs exactly when the trimmed text exceeds 254 code units; "invalid characters" occurs exactly when a non-empty trimmed text of legal length has a control character |
| `EmailValidation.ValidateEmailAccepts` | script.js:113-123 | an input is accepted iff its trimmed form is 1..254 code units long, has no control character, matches the pattern, and has a domain after the `@` of at least 4 code units |
| `EmailValidation.ShortDomainRejected` | script.js:120-121 | an address whose text after the `@` is under four code units is rejected |
| `EmailValidation.RejectsBlank` | script.js:115-116 | an empty or whitespace-only input gets the "valid corporate email" message |
| `Posture.GetStatusClass` | script.js:308-314 | absent gives `fail`; the class is `pass` iff the lower-cased value is in the pass list, `warn` iff it is in the warn list, and `fail` otherwise |
| `Posture.WordsClassifyAsListed` | script.js:311-312 | each listed word, as written, gets its list's class |
| `Posture.CaseInsensitive` | script.js:310 | a value, its lower-case form and its upper-case form get the same class |
| `Posture.SameLowerSameClass` | script.js:310 | two values with the same lower-case form get the same class |
| `Posture.PassInAnyCase` | script.js:310-311 | `"PASS"`, `"Pass"` and `"pass"` are all `pass` |
| `Posture.EnforcePasses` | script.js:310-311 | `"ENFORCE"` is shown as passing |
| `Posture.UnknownFails` | script.js:313 | an unrecognised value such as `"unknown"` is `fail` |
| `RiskScoring.RiskScore` | script.js:1111-1117 | equals the table reference `min(50 + passed weights, 100)`; always in [50, 100]; exactly 100 iff SPF and DMARC both pass |
| `RiskScoring.Breakdown` | script.js:1119-1138 | 2 findings, or 3 exactly when MX passes; entry 0 is the SPF finding and entry 1 the DMARC finding; a finding is `high` iff its score is negative; SPF's and DMARC's scores are negative iff they do not pass; the MX entry is `{MX Records Reachable, 10, low}`; no finding is `medium` |
| `RiskScoring.GenerateRiskBreakdown` | script.js:1119-1138 | the source's sequence of pushes produces exactly the table-defined breakdown |
| `RiskScoring.GainedMatchesPassedWeight` | script.js:1111-1138 | the positive finding scores of any list of checks add up to the weights of the checks that pass |
| `RiskScoring.ScoreIsBasePlusGains` | script.js:1111-1138 | the score is 50 plus the positive scores of the breakdown, capped at 100 |
| `RiskScoring.NegativeFindingsNotSubtracted` | script.js:1112-1116 | with nothing passing, the breakdown totals -50 while the score stays 50 |
| `RiskScoring.ScoreMonotone` | script.js:1111-1117 | turning a check to `"pass"` never lowers the score |
| `RiskScoring.ScorerIsCaseSensitive` | script.js:1113 | an SPF status of `"PASS"` is not credited and yields the high-severity finding |
| `RiskScoring.AllPass` | script.js:1111-1138 | everything passing gives 100 and three low-severity positive findings |
| `RiskScoring.EmptyResults` | script.js:1080 | empty results give 50 and the two high-severity findings |
| `ReportAssembly.AssembleReport` | script.js:1080-1102 | the score and breakdown are the scorer's and the breakdown's; the sender IP is `"N/A (Static Check)"` and the transport time `"0.5s"`; dnssec is `"pass"` iff DMARC is `"pass"`, else `"unknown"`; TLS version is `"TLS 1.3"` iff encryption is `"pass"`, else `"Unknown"`; a present non-empty SPF/DMARC status is copied, the field reads `"missing"` exactly when the status is absent or empty (or is itself `"missing"`), and it is never empty; dkim is `"unknown"`, cipher `"Unknown"`, and mta_sts, tls_rpt and bimi are `"missing"` |
| `ReportAssembly.AbsentStatusReadsMissing` | script.js:1088-1089 | each of SPF and DMARC on its own, whatever the other holds, reads `status \|\| "missing"`: a missing or empty status reads `"missing"` |
| `ReportAssembly.NoResultsLikeEmpty` | script.js:1080 | no results at all behave like `{}`: score 50, two findings |
| `ReportAssembly.PostureClasses` | script.js:1091-1094 | the class the normaliser gives the report's records: MTA-STS, TLS-RPT and BIMI always warn, and DNSSEC passes iff DMARC is `"pass"` (`renderReport` shows these classes; the downloaded report colours only `pass` green; the `dkim` placeholder is never shown) |
| `ReportAssembly.ClassifierAndScorerDisagree` | script.js:1089 | DMARC `"ENFORCE"` shows as passing, yet it scores nothing and leaves DNSSEC unknown |
| `ReportAssembly.MixedExample` | script.js:1083-1102 | SPF, MX and encryption passing with DMARC failing gives score 80, the three findings in order, DNSSEC unknown and TLS 1.3 |
| `I18n.T` | script.js:828-838 | from the stored language (`\|\| "en"`), the loop with its early return computes the node at the dotted path, or the fallback when that node is missing or `""` |
| `I18n.NoStoredLanguageReadsEnglish` | script.js:829 | with no stored language, or an empty one, `t` reads English; a stored language is used as it is |
| `I18n.WalkAppend` | script.js:833-836 | walking a path in two parts is walking the first part, then the second |
| `I18n.DottedPathWalksKeys` | script.js:831-837 | for keys without dots, the path `k1.k2...` looks up `k1`, then `k2`, and so on |
| `I18n.FoundStringReturned` | script.js:837 | a non-empty string stored at the path is returned |
| `I18n.MissingPrefixGivesFallback` | script.js:834 | a path that leaves the tables at any key gives the fallback |
| `I18n.UnknownLanguageUsesEnglish` | script.js:830 | an unknown language reads the English table |
| `I18n.FirstSelected` | script.js:847-851 | a language is selected only as `tw` or `jp` |
| `I18n.BrowserLang` | script.js:844-855 | the language is always one of `tw`, `jp`, `en` |
| `I18n.GetBrowserLang` | script.js:844-855 | the loop with early returns gives the first preferred language whose primary subtag is `zh` or `ja`, else the raw-prefix test |
| `I18n.FirstMatchDecides` | script.js:847-851 | the first Chinese or Japanese tag in the list decides, whatever follows it |
| `I18n.NothingSelected` | script.js:847-851 | the list selects nothing iff none of its tags is Chinese or Japanese |
| `I18n.PrimaryCodeIsPrefix` | script.js:848 | the primary subtag is a prefix of its lower-cased tag |
| `I18n.WithoutLanguageList` | script.js:845-854 | without `navigator.languages`, the choice is the `zh`/`ja` prefix test on the raw language alone |
| `Download.ReplaceUnsafe` | script.js:1369 | the replacement consists only of `[a-zA-Z0-9._-]` characters and has one character per UTF-16 code unit of the input |
| `Download.ReplaceUnsafeAppend` | script.js:1369 | the replacement works character by character: replacing a concatenation gives the two replacements concatenated |
| `Download.ReplaceUnsafeAt` | script.js:1369 | an allowed character stays at the code-unit offset of the text before it; any other character is `_` there, and a character outside the basic plane is `_` at both of its code units |
| `Download.ReplaceUnsafeKeepsSafe` | script.js:1369 | text made only of allowed characters is unchanged |
| `Download.SafeFilename` | script.js:1369 | never empty, at most 200 characters, only allowed characters; for a non-empty input, the first 200 code units of the replacement; `"domain"` only for an empty input |
| `Download.SafeFilenameKeepsAllowed` | script.js:1369 | within the first 200 code units, each allowed character of the domain is left in place |
| `Download.SafeFilenameIdempotent` | script.js:1369 | sanitising a sanitised name changes nothing |
| `Download.DownloadName` | script.js:1368-1376 | the name is `9Sec_Security_Report_`, then the sanitised domain (1 to 200 safe characters), then `.html` |
| `Download.DownloadNeverUsesFallback` | script.js:1368-1369 | for a string or absent domain: it defaults to `unknown`, so the `'domain'` fallback never fires |
| `Download.MissingDomainName` | script.js:1368 | an absent or empty domain is named `unknown` |
| `Paging.ButtonFor` | script.js:165-166 | shown plus remaining is the list length; remaining is within [0, length]; the list is open iff nothing remains iff the count reaches the length |
| `Paging.NextCount` | script.js:246 | a click asks for either the first page or the whole list; it goes back to the first page iff everything is shown (or the two counts coincide) |
| `Paging.ToggleTwice` | script.js:246 | for a list longer than its first page, one click changes the count and a second click restores it |
| `Paging.ClickFlipsButton` | script.js:246-252 | for a list longer than its first page, each click flips the button between "show more" and "collapse" |
| `Paging.NewsAndThreatIntelAgree` | script.js:165-170 | the news button, computed from `min(count, length)`, equals the threat-intel one, and its click asks for the same count |
| `Paging.MoreHandler.constructor` | script.js:235 | a column starts with `showing` at its first-page count |
| `Paging.MoreHandler.Render` | script.js:236-240 | remembers the count and draws `min(count, length)` items |
| `Paging.MoreHandler.InitialView` | script.js:266-268 | the first drawing shows `min(showing, length)` items, with a button iff the column has more than its first page |
| `Paging.MoreHandler.OnClick` | script.js:245-256 | the new `showing` is the toggled count; the drawn items and the redrawn button follow from it |
| `Paging.ThreatIntelColumns` | script.js:260-261 | builds two separate columns: CISA with a first page of 8, OTX with a first page of 5, each showing its first page and with a button iff it is longer than that |
| `Paging.ClickOneColumn` | script.js:245-256 | a click on one column toggles its count and leaves the other column's count unchanged |
| `Paging.NewsList.constructor` | script.js:181 | the news list first shows six articles, with a consistent button |
| `Paging.NewsList.RenderNews` | script.js:133-172 | keeps the count, draws `min(count, length)` articles, and has a button iff there are more than six, matching the count |
| `Paging.NewsList.Click` | script.js:169-171 | a click toggles between six and all articles; this is the same toggle as the threat-intel columns |

## Left out

- The particle background, smooth scrolling, the modal, notices, theme and back-to-top controls, and all HTML templating are not modelled. This covers `renderNews`'s markup, the threat-intel item templates, `renderReport`, `getReportHtml` and the button labels. All of it is presentation code that calls browser APIs.
- `escapeHtml` is not modelled: it depends on the browser's `textContent`/`innerHTML` serialisation.
- Network and timers are not modelled: the `fetch` calls, `submitAssessment`, the I/O of `startAssessment` around the report literal, the polling timer, the no-op `checkStatus` and `checkGlobalSession`. The HTTP exchange has no behaviour visible in the source to model.
- localStorage and sessionStorage are replaced by parameters. `t` takes `stored`, the raw value of `localStorage.getItem("9sec_lang")`, and applies `CurrentLang` to it for the `|| "en"` default. The browser's `navigator` fields are parameters of `GetBrowserLang`.
- `generateMockReport` is random mock data and is not modelled.
- The contents of the translation tables are static text. Only the lookup rule is modelled.
- `updateLanguage` is not modelled. It re-renders the news list at its current count, which is a `RenderNews` call with the same count, and it re-labels the buttons.
- Strings are sequences of Unicode scalar values, so a JavaScript string holding a lone surrogate cannot be represented. Lengths are counted with `Utf16Length` to match JavaScript.
- `Text.ToLower` maps only `A`–`Z`. In full Unicode, the only non-ASCII character whose lower case is plain ASCII is U+212A KELVIN SIGN, which becomes `k`; U+0130 becomes `i` followed by the non-ASCII U+0307. No status keyword contains `k`, so `getStatusClass` classifies every input the same either way. For `getBrowserLang`, the only characters that lower-case to `z`, `h`, `j` and `a` are `Z/z`, `H/h`, `J/j` and `A/a` themselves, so the `zh`/`ja` tests agree too.
- `getStatusClass` applies `String(val)`. The model takes `Option<string>`, so converting a non-string value (for example the boolean `true` to `"true"`) is left to the caller.
- Probe statuses are strings or absent. A non-string `status` value from the backend is not modelled.
- `t` treats a string node as having no entries. Indexing a JavaScript string by a key (`"length"`, a digit) and properties inherited from `Object.prototype` are not modelled. As in the source, the result may be a table node when the path stops at one.
- The lists handled by the paging code are abstracted to their lengths, since the items are only rendered. The `if (listEl)` / `if (wrap)` lookups become "the column has a button exactly when it is longer than its first page".
- `RiskScoring.RiskScore` applies only the upper cap of 100, as the code does. A lower clamp at 0 would never act, since the score never falls below 50.
- The report's `domain` is a string or absent. `String()` of any other JSON value is not modelled. For example, a domain of `[]` is truthy, `String([])` is `""`, and the download name would then use `'domain'`.
