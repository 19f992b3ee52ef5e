/** The risk scorer: a base score plus a fixed weight for every check whose
    status is exactly `"pass"`, capped at 100, and the list of findings shown
    beside it, in the fixed order SPF, DMARC, MX. */
module RiskScoring {
  import opened Text

  /** The backend's probe results: the status reported for each check, absent
      when the field or its `status` is missing. */
  datatype ProbeResult = ProbeResult(
    domain: Option<string>,
    spf: Option<string>,
    dmarc: Option<string>,
    mx: Option<string>,
    encryption: Option<string>)

  /** The results of an empty response, `{}`. */
  const NoResults := ProbeResult(None, None, None, None, None)

  datatype Severity = Low | Medium | High

  datatype Finding = Finding(item: string, score: int, severity: Severity)

  /** `status === "pass"`: strict and case-sensitive. */
  predicate Passes(status: Option<string>) {
    status == Some("pass")
  }

  const BaseScore := 50
  const MaxScore := 100

  // ---------------------------------------------------------------------------
  // The reference: one table of checks

  datatype Check = Spf | Dmarc | Mx

  /** The checks, in the order they are evaluated and listed. */
  const Checks: seq<Check> := [Spf, Dmarc, Mx]

  function StatusOf(r: ProbeResult, c: Check): Option<string> {
    match c
    case Spf => r.spf
    case Dmarc => r.dmarc
    case Mx => r.mx
  }

  function Weight(c: Check): nat {
    match c
    case Spf => 20
    case Dmarc => 30
    case Mx => 10
  }

  function PassLabel(c: Check): string {
    match c
    case Spf => "SPF Record Valid"
    case Dmarc => "DMARC Policy Enforced"
    case Mx => "MX Records Reachable"
  }

  /** The finding listed for a failed check; MX has none. */
  function FailLabel(c: Check): Option<string> {
    match c
    case Spf => Some("SPF Record Missing or Invalid")
    case Dmarc => Some("DMARC Policy Not Enforced")
    case Mx => None
  }

  /** The finding a check contributes: its weight with low severity when it
      passes, the negated weight with high severity when it fails (if it has a
      failure finding at all). */
  function FindingFor(r: ProbeResult, c: Check): Option<Finding> {
    if Passes(StatusOf(r, c)) then Some(Finding(PassLabel(c), Weight(c), Low))
    else if FailLabel(c).Some? then Some(Finding(FailLabel(c).value, -(Weight(c) as int), High))
    else None
  }

  /** The findings of `checks`, in order, skipping checks that list none. */
  function FindingsOf(r: ProbeResult, checks: seq<Check>): seq<Finding>
    decreases |checks|
  {
    if checks == [] then []
    else
      var rest := FindingsOf(r, checks[1..]);
      match FindingFor(r, checks[0])
      case Some(f) => [f] + rest
      case None => rest
  }

  /** The sum of the weights of the checks among `checks` that pass. */
  function PassedWeight(r: ProbeResult, checks: seq<Check>): nat
    decreases |checks|
  {
    if checks == [] then 0
    else (if Passes(StatusOf(r, checks[0])) then Weight(checks[0]) else 0) + PassedWeight(r, checks[1..])
  }

  /** The score the table defines: base plus passed weights, capped. */
  function ReferenceScore(r: ProbeResult): int {
    Min(BaseScore + PassedWeight(r, Checks), MaxScore)
  }

  // ---------------------------------------------------------------------------
  // The scorer and the breakdown as the site computes them

  /** `calculateRiskScore`: start at 50, add 20, 30 and 10 for a passing SPF,
      DMARC and MX, and cap at 100. A failing check never lowers the score. */
  function RiskScore(r: ProbeResult): (score: int)
    ensures score == ReferenceScore(r)
    ensures BaseScore <= score <= MaxScore
    ensures score == MaxScore <==> Passes(r.spf) && Passes(r.dmarc)
  {
    var score := BaseScore;
    var score := if Passes(r.spf) then score + 20 else score;
    var score := if Passes(r.dmarc) then score + 30 else score;
    var score := if Passes(r.mx) then score + 10 else score;
    Min(score, MaxScore)
  }

  /** The findings of `generateRiskBreakdown`, defined by the table. */
  function Breakdown(r: ProbeResult): (items: seq<Finding>)
    ensures |items| == (if Passes(r.mx) then 3 else 2)
    ensures items[0] == FindingFor(r, Spf).value
    ensures items[1] == FindingFor(r, Dmarc).value
    ensures Passes(r.mx) ==> items[2] == Finding("MX Records Reachable", 10, Low)
    ensures forall i :: 0 <= i < |items| ==> (items[i].severity == High <==> items[i].score < 0)
    ensures forall i :: 0 <= i < |items| ==> items[i].severity != Medium
    ensures items[0].score < 0 <==> !Passes(r.spf)
    ensures items[1].score < 0 <==> !Passes(r.dmarc)
  {
    FindingsOf(r, Checks)
  }

  /** `generateRiskBreakdown`, in the order of the source's pushes. */
  method GenerateRiskBreakdown(r: ProbeResult) returns (items: seq<Finding>)
    ensures items == Breakdown(r)
  {
    items := [];
    if !Passes(r.spf) {
      items := items + [Finding("SPF Record Missing or Invalid", -20, High)];
    } else {
      items := items + [Finding("SPF Record Valid", 20, Low)];
    }
    if !Passes(r.dmarc) {
      items := items + [Finding("DMARC Policy Not Enforced", -30, High)];
    } else {
      items := items + [Finding("DMARC Policy Enforced", 30, Low)];
    }
    if Passes(r.mx) {
      items := items + [Finding("MX Records Reachable", 10, Low)];
    }
  }

  // ---------------------------------------------------------------------------
  // Relating the score to the breakdown

  /** The sum of the positive scores of the findings. */
  function GainedScore(items: seq<Finding>): int
    decreases |items|
  {
    if items == [] then 0
    else (if items[0].score > 0 then items[0].score else 0) + GainedScore(items[1..])
  }

  /** The sum of all the scores of the findings. */
  function TotalScore(items: seq<Finding>): int
    decreases |items|
  {
    if items == [] then 0 else items[0].score + TotalScore(items[1..])
  }

  lemma {:induction false} GainedMatchesPassedWeight(r: ProbeResult, checks: seq<Check>)
    ensures GainedScore(FindingsOf(r, checks)) == PassedWeight(r, checks)
    decreases |checks|
  {
    if checks != [] {
      GainedMatchesPassedWeight(r, checks[1..]);
      var rest := FindingsOf(r, checks[1..]);
      match FindingFor(r, checks[0])
      case Some(f) =>
        assert FindingsOf(r, checks) == [f] + rest;
        assert ([f] + rest)[1..] == rest;
      case None =>
    }
  }

  /** The score only counts the positive findings: it is the base plus the
      gains listed in the breakdown, capped. */
  lemma ScoreIsBasePlusGains(r: ProbeResult)
    ensures RiskScore(r) == Min(BaseScore + GainedScore(Breakdown(r)), MaxScore)
  {
    GainedMatchesPassedWeight(r, Checks);
  }

  /** The negative findings are never subtracted: with SPF and DMARC both
      failing, the breakdown totals -50 while the score stays at the base. */
  lemma NegativeFindingsNotSubtracted(r: ProbeResult)
    requires !Passes(r.spf) && !Passes(r.dmarc) && !Passes(r.mx)
    ensures RiskScore(r) == BaseScore
    ensures TotalScore(Breakdown(r)) == -50
  {
    var items := Breakdown(r);
    assert items == [Finding("SPF Record Missing or Invalid", -20, High),
                     Finding("DMARC Policy Not Enforced", -30, High)];
    assert TotalScore(items[1..]) == -30 + TotalScore(items[1..][1..]);
    assert items[1..][1..] == [];
  }

  /** Turning a check to `"pass"` never lowers the score. */
  lemma ScoreMonotone(r1: ProbeResult, r2: ProbeResult)
    requires Passes(r1.spf) ==> Passes(r2.spf)
    requires Passes(r1.dmarc) ==> Passes(r2.dmarc)
    requires Passes(r1.mx) ==> Passes(r2.mx)
    ensures RiskScore(r1) <= RiskScore(r2)
  {
  }

  /** The scorer compares statuses exactly: `"PASS"` earns nothing. */
  lemma ScorerIsCaseSensitive(r: ProbeResult)
    requires r.spf == Some("PASS")
    ensures !Passes(r.spf) && Breakdown(r)[0].severity == High
  {
  }

  /** With every check passing: score 100 and three low-severity gains. */
  lemma AllPass(r: ProbeResult)
    requires Passes(r.spf) && Passes(r.dmarc) && Passes(r.mx)
    ensures RiskScore(r) == MaxScore
    ensures |Breakdown(r)| == 3
    ensures forall i :: 0 <= i < 3 ==> Breakdown(r)[i].score > 0 && Breakdown(r)[i].severity == Low
  {
  }

  /** An empty response scores the base and lists the two high findings. */
  lemma EmptyResults()
    ensures RiskScore(NoResults) == BaseScore
    ensures Breakdown(NoResults) == [Finding("SPF Record Missing or Invalid", -20, High),
                                     Finding("DMARC Policy Not Enforced", -30, High)]
  {
  }
}
