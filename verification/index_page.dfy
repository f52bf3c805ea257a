/** The page-level state machine of src/pages/Index.tsx: which view is
    shown (landing, upload, processing, result), the selected video, and the
    stored result, driven by the page's handlers. The asynchronous
    `handleStartVerification` is split at its `await` into the part before
    the analysis and the part after it. */
module IndexPage {
  import opened Wrappers
  import VideoAnalysis
  import VerificationReport
  import FrameSampling

  datatype AppState = Landing | Upload | Processing | ShowingResult

  /** The selected file; only its identity matters here. */
  datatype VideoFile = VideoFile(name: string)

  /** What the page keeps of an analysis. */
  datatype StoredResult = StoredResult(isAuthentic: bool, confidence: real, summary: Option<string>)

  datatype Page = Page(appState: AppState, selectedVideo: Option<VideoFile>, result: Option<StoredResult>)

  const InitialPage: Page := Page(Landing, None, None)

  /** `handleVideoSelect`: replaces the selection and nothing else. */
  function SelectVideo(p: Page, file: VideoFile): (q: Page)
    ensures q.selectedVideo == Some(file)
    ensures q.appState == p.appState && q.result == p.result
  {
    p.(selectedVideo := Some(file))
  }

  /** The upload view's clear button: drops the selection. */
  function ClearSelection(p: Page): (q: Page)
    ensures q.selectedVideo.None?
    ensures q.appState == p.appState && q.result == p.result
  {
    p.(selectedVideo := None)
  }

  /** The landing view's button opens the upload view. */
  function OpenUpload(p: Page): (q: Page)
    ensures q.appState == Upload
    ensures q.selectedVideo == p.selectedVideo && q.result == p.result
  {
    p.(appState := Upload)
  }

  /** `handleStartVerification` up to its `await`: with a selection, the
      processing view; without one, nothing happens. */
  function BeginVerification(p: Page): (q: Page)
    ensures p.selectedVideo.None? ==> q == p
    ensures p.selectedVideo.Some? ==> q.appState == Processing
    ensures q.selectedVideo == p.selectedVideo && q.result == p.result
  {
    if p.selectedVideo.Some? then p.(appState := Processing) else p
  }

  /** `handleStartVerification` after the analysis settles: a result is
      stored and shown; `null` returns to the upload view with the selection
      kept, so the user can retry. */
  function FinishVerification(p: Page, analysis: Option<VideoAnalysis.AnalysisResult>): (q: Page)
    ensures analysis.Some? ==> q.appState == ShowingResult && q.result.Some?
    ensures analysis.Some? ==> var r := q.result.value; var a := analysis.value;
      r.isAuthentic == a.isAuthentic && r.confidence == a.confidence && r.summary == a.summary
    ensures analysis.None? ==> q.appState == Upload && q.result == p.result
    ensures q.selectedVideo == p.selectedVideo
  {
    match analysis
    case Some(a) => p.(result := Some(StoredResult(a.isAuthentic, a.confidence, a.summary)),
                      appState := ShowingResult)
    case None => p.(appState := Upload)
  }

  /** The whole handler, given what `analyzeVideo` resolved to. Without a
      selection it changes nothing. */
  function StartVerification(p: Page, analysis: Option<VideoAnalysis.AnalysisResult>): (q: Page)
    ensures p.selectedVideo.None? ==> q == p
    ensures p.selectedVideo.Some? && analysis.Some? ==> q.appState == ShowingResult
    ensures p.selectedVideo.Some? && analysis.None? ==> q.appState == Upload && q.result == p.result
    ensures q.selectedVideo == p.selectedVideo
  {
    if p.selectedVideo.Some? then FinishVerification(BeginVerification(p), analysis) else p
  }

  /** `handleReset`: back to the landing view with nothing selected or
      stored, from any state. */
  function Reset(p: Page): (q: Page)
    ensures q == InitialPage
  {
    Page(Landing, None, None)
  }

  /** Line 177: the result view renders only in the result state with a
      stored result. */
  predicate ShowsResult(p: Page) {
    p.appState == ShowingResult && p.result.Some?
  }

  /** Line 162: the verify button is disabled without a selection. */
  predicate VerifyDisabled(p: Page) {
    p.selectedVideo.None?
  }

  // ---------------------------------------------------------------------
  // Reachable pages
  // ---------------------------------------------------------------------

  /** The result state always has a result to show. */
  ghost predicate Consistent(p: Page) {
    p.appState == ShowingResult ==> p.result.Some?
  }

  /** One user action or settled analysis. */
  datatype Action =
    | Select(file: VideoFile)
    | Clear
    | Open
    | Begin
    | Finish(analysis: Option<VideoAnalysis.AnalysisResult>)
    | ResetPage

  function Step(p: Page, a: Action): Page {
    match a
    case Select(f) => SelectVideo(p, f)
    case Clear => ClearSelection(p)
    case Open => OpenUpload(p)
    case Begin => BeginVerification(p)
    case Finish(r) => FinishVerification(p, r)
    case ResetPage => Reset(p)
  }

  function Run(p: Page, actions: seq<Action>): Page
    decreases |actions|
  {
    if |actions| == 0 then p else Run(Step(p, actions[0]), actions[1..])
  }

  /** Every page reachable from the initial one is consistent, so there the
      result view is shown exactly in the result state. */
  lemma {:induction false} ReachableConsistent(p: Page, actions: seq<Action>)
    requires Consistent(p)
    ensures Consistent(Run(p, actions))
    ensures ShowsResult(Run(p, actions)) <==> Run(p, actions).appState == ShowingResult
    decreases |actions|
  {
    if |actions| > 0 {
      ReachableConsistent(Step(p, actions[0]), actions[1..]);
    }
  }

  /** What the result view shows agrees with the analysis: the report's
      verdict is AUTHENTIC exactly when the analysis said authentic, with
      its confidence unchanged. */
  lemma ResultViewReport(p: Page, analysis: VideoAnalysis.AnalysisResult)
    requires p.selectedVideo.Some?
    ensures var q := StartVerification(p, Some(analysis));
      && ShowsResult(q)
      && var r := q.result.value;
         var report := VerificationReport.BuildReport(r.isAuthentic, r.confidence,
                                                      VerificationReport.Metrics(r.isAuthentic));
         && (report.verdict == VerificationReport.AuthenticVerdict <==> analysis.isAuthentic)
         && report.confidenceScore == analysis.confidence
  {
  }

  /** A video whose extraction fails sends the page back to the upload view
      with the selection kept, the stored result untouched and nothing
      shown. */
  lemma FailedExtractionReturnsToUpload(p: Page, load: FrameSampling.LoadOutcome,
                                        invoke: VideoAnalysis.InvokeOutcome)
    requires p.selectedVideo.Some?
    requires VideoAnalysis.ExtractionFailed(load)
    ensures var q := StartVerification(p, VideoAnalysis.AnalyzeVideo(load, invoke).result);
      && q.appState == Upload && q.selectedVideo == p.selectedVideo && q.result == p.result
      && !ShowsResult(q)
  {
  }

  /** While the verify button is disabled, the handler behind it changes
      nothing, whatever the analysis would have produced; once a video is
      selected it always leaves the page in the upload or the result view. */
  lemma DisabledVerifyChangesNothing(p: Page, analysis: Option<VideoAnalysis.AnalysisResult>)
    ensures VerifyDisabled(p) ==> StartVerification(p, analysis) == p
    ensures !VerifyDisabled(p) ==>
      StartVerification(p, analysis).appState in {Upload, ShowingResult}
  {
  }
}
