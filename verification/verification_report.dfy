/** The report of the result view (src/components/VerificationResult.tsx):
    the fixed metric table shown beside a verdict, the per-metric colour, and
    the JSON report that `generateReport` builds. The report id, the
    timestamp and the download itself are left out. */
module VerificationReport {

  const PassThreshold: int := 70
  const AuthenticVerdict: string := "AUTHENTIC"
  const DeepfakeVerdict: string := "DEEPFAKE_DETECTED"
  const Pass: string := "PASS"
  const Fail: string := "FAIL"
  const AuthenticAdvice: string := "Video appears authentic. Safe to proceed with verification."
  const ManipulatedAdvice: string := "Video shows signs of manipulation. Do not proceed with KYC verification."

  datatype Metric = Metric(name: string, score: int)

  datatype Detail = Detail(metric: string, score: int, status: string)

  datatype Report = Report(
    verdict: string,
    confidenceScore: real,
    analysisDetails: seq<Detail>,
    recommendation: string)

  /** The colour class a metric's score is shown in. */
  datatype Colour = SuccessColour | DestructiveColour

  /** `m.score >= 70 ? "PASS" : "FAIL"`. */
  function Status(score: int): (s: string)
    ensures s == Pass <==> score >= PassThreshold
    ensures s == Fail <==> score < PassThreshold
  {
    if score >= PassThreshold then Pass else Fail
  }

  /** `metric.score >= 70 ? "text-success" : "text-destructive"`, used for
      both the score text and its bar. */
  function ScoreColour(score: int): (c: Colour)
    ensures c == SuccessColour <==> score >= PassThreshold
  {
    if score >= PassThreshold then SuccessColour else DestructiveColour
  }

  /** The metric table of lines 39-44: the same four labels either way, with
      high scores for an authentic verdict and low ones otherwise. */
  function Metrics(isAuthentic: bool): (ms: seq<Metric>)
    ensures |ms| == 4
    ensures isAuthentic ==> forall i :: 0 <= i < 4 ==> ms[i].score >= 90
    ensures !isAuthentic ==> forall i :: 0 <= i < 4 ==> ms[i].score < 50
  {
    [ Metric("Facial Consistency", if isAuthentic then 96 else 34),
      Metric("Temporal Analysis", if isAuthentic then 94 else 28),
      Metric("Lip Sync Detection", if isAuthentic then 98 else 42),
      Metric("Artifact Detection", if isAuthentic then 99 else 18) ]
  }

  function DetailOf(m: Metric): Detail {
    Detail(m.name, m.score, Status(m.score))
  }

  /** Lines 12-25: the report object. */
  function BuildReport(isAuthentic: bool, confidence: real, metrics: seq<Metric>): (r: Report)
    ensures r.verdict == AuthenticVerdict <==> isAuthentic
    ensures r.verdict == DeepfakeVerdict <==> !isAuthentic
    ensures r.confidenceScore == confidence
    ensures |r.analysisDetails| == |metrics|
    ensures forall i :: 0 <= i < |metrics| ==>
      && r.analysisDetails[i].metric == metrics[i].name
      && r.analysisDetails[i].score == metrics[i].score
      && (r.analysisDetails[i].status == Pass <==> metrics[i].score >= PassThreshold)
      && (r.analysisDetails[i].status == Fail <==> metrics[i].score < PassThreshold)
    ensures r.recommendation == AuthenticAdvice <==> isAuthentic
    ensures r.recommendation == ManipulatedAdvice <==> !isAuthentic
  {
    Report(
      if isAuthentic then AuthenticVerdict else DeepfakeVerdict,
      confidence,
      seq(|metrics|, i requires 0 <= i < |metrics| => DetailOf(metrics[i])),
      if isAuthentic then AuthenticAdvice else ManipulatedAdvice)
  }

  /** The metrics a report lists, read back from its details. */
  function MetricsOf(r: Report): (ms: seq<Metric>)
    ensures |ms| == |r.analysisDetails|
  {
    seq(|r.analysisDetails|, i requires 0 <= i < |r.analysisDetails| =>
      Metric(r.analysisDetails[i].metric, r.analysisDetails[i].score))
  }

  /** A report loses nothing of its inputs: the verdict, the confidence and
      the metric list (labels, scores, order) can all be read back. */
  lemma ReportRoundTrip(isAuthentic: bool, confidence: real, metrics: seq<Metric>)
    ensures var r := BuildReport(isAuthentic, confidence, metrics);
      && (r.verdict == AuthenticVerdict) == isAuthentic
      && r.confidenceScore == confidence
      && MetricsOf(r) == metrics
  {
  }

  /** With the fixed table, an authentic verdict passes every metric and any
      other verdict fails every metric. */
  lemma FixedTableAgreesWithVerdict(isAuthentic: bool, confidence: real)
    ensures forall d :: d in BuildReport(isAuthentic, confidence, Metrics(isAuthentic)).analysisDetails ==>
      (d.status == Pass <==> isAuthentic)
  {
    var r := BuildReport(isAuthentic, confidence, Metrics(isAuthentic));
    forall d | d in r.analysisDetails
      ensures d.status == Pass <==> isAuthentic
    {
      var i :| 0 <= i < |r.analysisDetails| && r.analysisDetails[i] == d;
      assert d.score == Metrics(isAuthentic)[i].score;
    }
  }

  /** The on-screen colour of a metric is the success colour exactly when
      the report marks it PASS. */
  lemma ColourMatchesStatus(isAuthentic: bool, confidence: real, metrics: seq<Metric>)
    ensures var r := BuildReport(isAuthentic, confidence, metrics);
      forall i :: 0 <= i < |metrics| ==>
        (ScoreColour(metrics[i].score) == SuccessColour <==> r.analysisDetails[i].status == Pass)
  {
  }
}
