/** Report assembly for the synchronous check: the backend's results become
    the report the two renderers show, with literal fallbacks for what the
    check does not probe. */
module ReportAssembly {
  import opened Text
  import opened RiskScoring
  import opened Posture

  datatype DnsPosture = DnsPosture(
    spf: string,
    dmarc: string,
    dkim: string,
    mtaSts: string,
    tlsRpt: string,
    bimi: string,
    dnssec: string)

  datatype SmtpTls = SmtpTls(version: string, cipher: string)

  datatype Report = Report(
    domain: Option<string>,
    senderIp: string,
    transportTime: string,
    dnsPosture: DnsPosture,
    smtpTls: SmtpTls,
    riskScore: int,
    riskBreakdown: seq<Finding>)

  const SenderIpPlaceholder := "N/A (Static Check)"
  const TransportTimePlaceholder := "0.5s"

  /** The report literal of `startAssessment`, built from `data.results || {}`. */
  function AssembleReport(results: Option<ProbeResult>): (rep: Report)
    ensures var p := results.GetOr(NoResults);
      && rep.domain == p.domain
      && rep.riskScore == RiskScore(p)
      && rep.riskBreakdown == Breakdown(p)
      && (rep.dnsPosture.dnssec == "pass" <==> Passes(p.dmarc))
      && (rep.smtpTls.version == "TLS 1.3" <==> Passes(p.encryption))
      && (p.spf.Some? && p.spf.value != "" ==> rep.dnsPosture.spf == p.spf.value)
      && (p.dmarc.Some? && p.dmarc.value != "" ==> rep.dnsPosture.dmarc == p.dmarc.value)
      && (p.spf in {None, Some("")} <==> rep.dnsPosture.spf == "missing" && p.spf != Some("missing"))
      && (p.dmarc in {None, Some("")} <==> rep.dnsPosture.dmarc == "missing" && p.dmarc != Some("missing"))
    ensures rep.dnsPosture.dnssec in {"pass", "unknown"}
    ensures rep.smtpTls.version in {"TLS 1.3", "Unknown"}
    ensures rep.dnsPosture.spf != "" && rep.dnsPosture.dmarc != ""
    ensures rep.senderIp == SenderIpPlaceholder && rep.transportTime == TransportTimePlaceholder
    ensures rep.dnsPosture.dkim == "unknown" && rep.smtpTls.cipher == "Unknown"
    ensures rep.dnsPosture.mtaSts == "missing" && rep.dnsPosture.tlsRpt == "missing" && rep.dnsPosture.bimi == "missing"
  {
    var p := results.GetOr(NoResults);
    Report(
      p.domain,
      SenderIpPlaceholder,
      TransportTimePlaceholder,
      DnsPosture(
        OrElse(p.spf, "missing"),
        OrElse(p.dmarc, "missing"),
        "unknown",
        "missing",
        "missing",
        "missing",
        if Passes(p.dmarc) then "pass" else "unknown"),
      SmtpTls(if Passes(p.encryption) then "TLS 1.3" else "Unknown", "Unknown"),
      RiskScore(p),
      Breakdown(p))
  }

  /** A missing or empty SPF or DMARC status is reported as `"missing"`, each
      field on its own, whatever the other one holds. */
  lemma AbsentStatusReadsMissing(p: ProbeResult)
    ensures p.spf in {None, Some("")} ==> AssembleReport(Some(p)).dnsPosture.spf == "missing"
    ensures p.dmarc in {None, Some("")} ==> AssembleReport(Some(p)).dnsPosture.dmarc == "missing"
    ensures AssembleReport(Some(p)).dnsPosture.spf == OrElse(p.spf, "missing")
    ensures AssembleReport(Some(p)).dnsPosture.dmarc == OrElse(p.dmarc, "missing")
  {
  }

  /** No results at all read as an empty response. */
  lemma NoResultsLikeEmpty()
    ensures AssembleReport(None) == AssembleReport(Some(NoResults))
    ensures AssembleReport(None).riskScore == BaseScore
    ensures |AssembleReport(None).riskBreakdown| == 2
  {
  }

  /** The classes `renderReport` gives the assembled report's records: the
      three unprobed records (MTA-STS, TLS-RPT, BIMI) always warn, and DNSSEC
      passes exactly when the DMARC status is `"pass"`. The downloaded report
      colours only `pass` green, so there the three unprobed records show as
      failing. The `dkim` placeholder is never classified or shown. */
  lemma {:induction false} PostureClasses(results: Option<ProbeResult>)
    ensures var rep := AssembleReport(results);
      && GetStatusClass(Some(rep.dnsPosture.mtaSts)) == Warn
      && GetStatusClass(Some(rep.dnsPosture.tlsRpt)) == Warn
      && GetStatusClass(Some(rep.dnsPosture.bimi)) == Warn
      && (GetStatusClass(Some(rep.dnsPosture.dnssec)) == Pass <==> rep.dnsPosture.dmarc == "pass")
  {
    var rep := AssembleReport(results);
    WordsClassifyAsListed();
    UnknownFails();
    assert WarnWords[3] == "missing" && PassWords[0] == "pass";
    assert rep.dnsPosture.dmarc == "pass" <==> Passes(results.GetOr(NoResults).dmarc);
  }

  /** A DMARC status the classifier passes is not necessarily one the scorer
      credits: `"ENFORCE"` shows as passing but scores nothing and leaves
      DNSSEC unknown. */
  lemma ClassifierAndScorerDisagree()
    ensures var p := ProbeResult(None, None, Some("ENFORCE"), None, None);
      && GetStatusClass(Some(AssembleReport(Some(p)).dnsPosture.dmarc)) == Pass
      && AssembleReport(Some(p)).riskScore == BaseScore
      && AssembleReport(Some(p)).dnsPosture.dnssec == "unknown"
  {
    var p := ProbeResult(None, None, Some("ENFORCE"), None, None);
    assert AssembleReport(Some(p)).dnsPosture.dmarc == "ENFORCE";
    EnforcePasses();
  }

  /** The worked example: SPF, MX and encryption pass, DMARC fails. */
  lemma MixedExample()
    ensures var rep := AssembleReport(Some(ProbeResult(None, Some("pass"), Some("fail"), Some("pass"), Some("pass"))));
      && rep.riskScore == 80
      && rep.riskBreakdown == [Finding("SPF Record Valid", 20, Low),
                               Finding("DMARC Policy Not Enforced", -30, High),
                               Finding("MX Records Reachable", 10, Low)]
      && rep.dnsPosture.dnssec == "unknown"
      && rep.smtpTls.version == "TLS 1.3"
  {
  }
}
