/** The `analyzeVideo` callback of the `useVideoAnalysis` hook
    (src/hooks/useVideoAnalysis.ts, lines 95-146): extract eight frames,
    invoke the analysis edge function, check its answer, and report
    progress and step labels throughout.

    A run is a pure function of the two things it waits for: how frame
    extraction behaves and what the function invocation returns. Its
    observable effect is the sequence of state-setter calls and invocations
    it makes, plus the value the promise resolves to (`None` for `null`). */
module VideoAnalysis {
  import opened Wrappers
  import FrameSampling

  const FrameCount: nat := 8

  const PreparingLabel: string := "Preparing video..."
  const ExtractingLabel: string := "Extracting video frames..."
  const SendingLabel: string := "Sending to AI for analysis..."
  const ProcessingLabel: string := "Processing results..."
  const CompleteLabel: string := "Analysis complete!"

  /** Progress checkpoints after extraction, after the invocation, at the end. */
  const SentProgress: int := 30
  const ReceivedProgress: int := 80
  const DoneProgress: int := 100

  datatype MetricDetail = MetricDetail(score: real, issues: seq<string>)

  /** The optional per-metric breakdown of the `AnalysisResult` interface. */
  datatype Breakdown = Breakdown(
    facialConsistency: Option<MetricDetail>,
    temporalCoherence: Option<MetricDetail>,
    eyeAnalysis: Option<MetricDetail>,
    mouthAnalysis: Option<MetricDetail>,
    artifactDetection: Option<MetricDetail>)

  datatype AnalysisResult = AnalysisResult(
    isAuthentic: bool,
    confidence: real,
    summary: Option<string>,
    analysis: Option<Breakdown>)

  /** The `data` object the edge function answered with. */
  datatype ResponseData = ResponseData(
    error: Option<string>,
    isAuthentic: bool,
    confidence: real,
    summary: Option<string>,
    analysis: Option<Breakdown>)

  /** What `supabase.functions.invoke` resolved to: an `error`, or `data`
      (possibly null). */
  datatype InvokeOutcome = InvokeFailed(message: string) | Invoked(data: Option<ResponseData>)

  /** One observable step of a run: a hook state setter call, or the
      invocation of the edge function with the frames it was given. */
  datatype Event =
    | SetAnalyzing(on: bool)
    | SetProgress(percent: int)
    | SetStep(step: string)
    | InvokeFunction(frames: seq<FrameSampling.Frame>)

  datatype Run = Run(trace: seq<Event>, result: Option<AnalysisResult>)

  /** `if (data.error)`: a present, non-empty error string. */
  predicate ErrorSet(d: ResponseData) {
    d.error.Some? && d.error.value != ""
  }

  /** Lines 132-137: the result copies the answer's fields. */
  function ResultOf(d: ResponseData): (r: AnalysisResult)
    ensures r.isAuthentic == d.isAuthentic && r.confidence == d.confidence
    ensures r.summary == d.summary && r.analysis == d.analysis
  {
    AnalysisResult(d.isAuthentic, d.confidence, d.summary, d.analysis)
  }

  // ---------------------------------------------------------------------
  // The pieces of a trace
  // ---------------------------------------------------------------------

  const Opening: seq<Event> := [SetProgress(0), SetStep(PreparingLabel), SetStep(ExtractingLabel)]
  const Receiving: seq<Event> := [SetProgress(ReceivedProgress), SetStep(ProcessingLabel)]
  const Completing: seq<Event> := [SetProgress(DoneProgress), SetStep(CompleteLabel)]

  function Sending(frames: seq<FrameSampling.Frame>): seq<Event> {
    [SetProgress(SentProgress), SetStep(SendingLabel), InvokeFunction(frames)]
  }

  /** The per-capture `setProgress` calls made inside `extractFrames`. */
  function FrameEvents(ps: seq<int>): (es: seq<Event>)
    ensures |es| == |ps|
  {
    seq(|ps|, i requires 0 <= i < |ps| => SetProgress(ps[i]))
  }

  /** The body of the `try` block: its events, and the value returned. */
  datatype Attempt = Attempt(events: seq<Event>, result: Option<AnalysisResult>)

  function TryBlock(load: FrameSampling.LoadOutcome, invoke: InvokeOutcome): Attempt {
    var ex := FrameSampling.ExtractFrames(load, FrameCount);
    var extracted := Opening + FrameEvents(ex.progress);
    match ex.outcome
    case Rejected(_) => Attempt(extracted, None)
    case Resolved(frames) =>
      if |frames| == 0 then Attempt(extracted, None)
      else
        var sent := extracted + Sending(frames);
        match invoke
        case InvokeFailed(_) => Attempt(sent, None)
        case Invoked(None) => Attempt(sent + Receiving, None)
        case Invoked(Some(d)) =>
          if ErrorSet(d) then Attempt(sent + Receiving, None)
          else Attempt(sent + Receiving + Completing, Some(ResultOf(d)))
  }

  /** No `setIsAnalyzing` call among `t`. */
  predicate Quiet(t: seq<Event>) {
    forall i :: 0 <= i < |t| ==> !t[i].SetAnalyzing?
  }

  /** Some event of `t` invokes the edge function with `frames`. */
  predicate Invokes(t: seq<Event>, frames: seq<FrameSampling.Frame>) {
    exists i :: 0 <= i < |t| && t[i] == InvokeFunction(frames)
  }

  /** Bracketing a trace with `setIsAnalyzing` calls keeps it, shifted by
      one, between the two new events. */
  lemma Bracket(t: seq<Event>)
    ensures var u := [SetAnalyzing(true)] + t + [SetAnalyzing(false)];
      && |u| == |t| + 2
      && u[0] == SetAnalyzing(true) && u[|u| - 1] == SetAnalyzing(false)
      && u[1..|u| - 1] == t
      && (forall i :: 1 <= i < |u| - 1 ==> u[i] == t[i - 1])
      && (NoInvocation(t) ==> NoInvocation(u))
      && (forall frames :: Invokes(t, frames) ==> Invokes(u, frames))
  {
    var u := [SetAnalyzing(true)] + t + [SetAnalyzing(false)];
    assert u[1..|u| - 1] == t;
    forall frames | Invokes(t, frames)
      ensures Invokes(u, frames)
    {
      var i :| 0 <= i < |t| && t[i] == InvokeFunction(frames);
      assert u[i + 1] == t[i];
    }
  }

  /** No invocation of the edge function among `t`. */
  predicate NoInvocation(t: seq<Event>) {
    forall i :: 0 <= i < |t| ==> !t[i].InvokeFunction?
  }

  /** The extraction step did not hand over any frames. */
  predicate ExtractionFailed(load: FrameSampling.LoadOutcome) {
    FrameSampling.ExtractFrames(load, FrameCount).outcome.Rejected?
  }

  /** The run succeeds: frames were extracted, the invocation answered with
      data, and the data carried no error. */
  predicate Succeeds(load: FrameSampling.LoadOutcome, invoke: InvokeOutcome) {
    && !ExtractionFailed(load)
    && invoke.Invoked? && invoke.data.Some? && !ErrorSet(invoke.data.value)
  }

  /** One call of `analyzeVideo`: `setIsAnalyzing(true)`, the `try` block,
      and `setIsAnalyzing(false)` from the `finally` clause on every path. */
  function AnalyzeVideo(load: FrameSampling.LoadOutcome, invoke: InvokeOutcome): (run: Run)
    ensures |run.trace| >= 2
    ensures run.trace[0] == SetAnalyzing(true)
    ensures run.trace[|run.trace| - 1] == SetAnalyzing(false)
    ensures Quiet(run.trace[1..|run.trace| - 1])
    ensures run.result.Some? <==> Succeeds(load, invoke)
    ensures run.result.Some? ==> run.result == Some(ResultOf(invoke.data.value))
    ensures ExtractionFailed(load) ==> run.result.None? && NoInvocation(run.trace)
    ensures forall i :: 0 <= i < |run.trace| && run.trace[i].InvokeFunction? ==>
      && load.Loaded?
      && run.trace[i].frames == FrameSampling.SampledFrames(load.media, FrameCount)
    ensures !ExtractionFailed(load) ==>
      && load.Loaded?
      && Invokes(run.trace, FrameSampling.SampledFrames(load.media, FrameCount))
  {
    var a := TryBlock(load, invoke);
    QuietAttempt(load, invoke);
    AttemptResult(load, invoke);
    Bracket(a.events);
    Run([SetAnalyzing(true)] + a.events + [SetAnalyzing(false)], a.result)
  }

  /** The `try` block returns a result exactly when the run succeeds, and
      it is then the copied data. */
  lemma AttemptResult(load: FrameSampling.LoadOutcome, invoke: InvokeOutcome)
    ensures TryBlock(load, invoke).result.Some? <==> Succeeds(load, invoke)
    ensures TryBlock(load, invoke).result.Some? ==>
      TryBlock(load, invoke).result == Some(ResultOf(invoke.data.value))
  {
  }

  /** The `try` block never touches `isAnalyzing`, invokes only with the
      sampled frames, never invokes once extraction has failed, and always
      invokes with the sampled frames once extraction has succeeded. */
  lemma QuietAttempt(load: FrameSampling.LoadOutcome, invoke: InvokeOutcome)
    ensures Quiet(TryBlock(load, invoke).events)
    ensures ExtractionFailed(load) ==> NoInvocation(TryBlock(load, invoke).events)
    ensures forall i :: 0 <= i < |TryBlock(load, invoke).events|
                        && TryBlock(load, invoke).events[i].InvokeFunction? ==>
      && load.Loaded?
      && TryBlock(load, invoke).events[i].frames == FrameSampling.SampledFrames(load.media, FrameCount)
    ensures !ExtractionFailed(load) ==>
      && load.Loaded?
      && Invokes(TryBlock(load, invoke).events, FrameSampling.SampledFrames(load.media, FrameCount))
  {
    if !ExtractionFailed(load) {
      var ex := FrameSampling.ExtractFrames(load, FrameCount);
      var head := Opening + FrameEvents(ex.progress);
      assert TryBlock(load, invoke).events[|head| + 2] == InvokeFunction(ex.outcome.frames);
    }
  }

  // ---------------------------------------------------------------------
  // Progress values and step labels
  // ---------------------------------------------------------------------

  /** The progress value one event sets, if any. */
  function ProgressOf(e: Event): seq<int> {
    if e.SetProgress? then [e.percent] else []
  }

  /** The step label one event sets, if any. */
  function StepOf(e: Event): seq<string> {
    if e.SetStep? then [e.step] else []
  }

  /** The values passed to `setProgress`, in order. */
  function Progresses(t: seq<Event>): seq<int> {
    if |t| == 0 then [] else ProgressOf(t[0]) + Progresses(t[1..])
  }

  /** The labels passed to `setCurrentStep`, in order. */
  function Steps(t: seq<Event>): seq<string> {
    if |t| == 0 then [] else StepOf(t[0]) + Steps(t[1..])
  }

  predicate NonDecreasing(ps: seq<int>) {
    forall i, j :: 0 <= i <= j < |ps| ==> ps[i] <= ps[j]
  }

  predicate Within(ps: seq<int>, lo: int, hi: int) {
    forall i :: 0 <= i < |ps| ==> lo <= ps[i] <= hi
  }

  lemma {:induction false} ProgressesAppend(a: seq<Event>, b: seq<Event>)
    ensures Progresses(a + b) == Progresses(a) + Progresses(b)
    decreases |a|
  {
    if |a| == 0 {
      assert a + b == b;
    } else {
      var ab := a + b;
      assert ab[0] == a[0];
      assert ab[1..] == a[1..] + b;
      ProgressesAppend(a[1..], b);
      calc {
        Progresses(ab);
        ProgressOf(a[0]) + Progresses(a[1..] + b);
        ProgressOf(a[0]) + (Progresses(a[1..]) + Progresses(b));
        (ProgressOf(a[0]) + Progresses(a[1..])) + Progresses(b);
      }
    }
  }

  lemma {:induction false} StepsAppend(a: seq<Event>, b: seq<Event>)
    ensures Steps(a + b) == Steps(a) + Steps(b)
    decreases |a|
  {
    if |a| == 0 {
      assert a + b == b;
    } else {
      var ab := a + b;
      assert ab[0] == a[0];
      assert ab[1..] == a[1..] + b;
      StepsAppend(a[1..], b);
      calc {
        Steps(ab);
        StepOf(a[0]) + Steps(a[1..] + b);
        StepOf(a[0]) + (Steps(a[1..]) + Steps(b));
        (StepOf(a[0]) + Steps(a[1..])) + Steps(b);
      }
    }
  }

  /** Both projections distribute over concatenation of traces. */
  lemma ProjectionsAppend(a: seq<Event>, b: seq<Event>)
    ensures Progresses(a + b) == Progresses(a) + Progresses(b)
    ensures Steps(a + b) == Steps(a) + Steps(b)
  {
    ProgressesAppend(a, b);
    StepsAppend(a, b);
  }

  lemma {:induction false} FrameEventsProject(ps: seq<int>)
    ensures Progresses(FrameEvents(ps)) == ps
    ensures Steps(FrameEvents(ps)) == []
    decreases |ps|
  {
    if |ps| > 0 {
      assert FrameEvents(ps)[1..] == FrameEvents(ps[1..]);
      FrameEventsProject(ps[1..]);
    }
  }

  lemma PiecesProject(frames: seq<FrameSampling.Frame>)
    ensures Progresses(Opening) == [0] && Steps(Opening) == [PreparingLabel, ExtractingLabel]
    ensures Progresses(Sending(frames)) == [SentProgress] && Steps(Sending(frames)) == [SendingLabel]
    ensures Progresses(Receiving) == [ReceivedProgress] && Steps(Receiving) == [ProcessingLabel]
    ensures Progresses(Completing) == [DoneProgress] && Steps(Completing) == [CompleteLabel]
  {
    assert Opening[1..][1..] == [SetStep(ExtractingLabel)];
    assert Steps([SetStep(ExtractingLabel)]) == [ExtractingLabel];
    assert Progresses([SetStep(ExtractingLabel)]) == [];
    var snd := Sending(frames);
    assert snd[1..][1..] == [InvokeFunction(frames)];
    assert Steps([InvokeFunction(frames)]) == [];
    assert Progresses([InvokeFunction(frames)]) == [];
    assert Receiving[1..] == [SetStep(ProcessingLabel)];
    assert Steps([SetStep(ProcessingLabel)]) == [ProcessingLabel];
    assert Progresses([SetStep(ProcessingLabel)]) == [];
    assert Completing[1..] == [SetStep(CompleteLabel)];
    assert Steps([SetStep(CompleteLabel)]) == [CompleteLabel];
    assert Progresses([SetStep(CompleteLabel)]) == [];
  }

  /** `setIsAnalyzing` calls contribute neither progress nor labels. */
  lemma BracketProject(t: seq<Event>)
    ensures Progresses([SetAnalyzing(true)] + t + [SetAnalyzing(false)]) == Progresses(t)
    ensures Steps([SetAnalyzing(true)] + t + [SetAnalyzing(false)]) == Steps(t)
  {
    ProjectionsAppend([SetAnalyzing(true)] + t, [SetAnalyzing(false)]);
    ProjectionsAppend([SetAnalyzing(true)], t);
    assert [SetAnalyzing(false)][1..] == [];
  }

  /** The progress checkpoints a run reaches after extraction. */
  function ProgressTail(load: FrameSampling.LoadOutcome, invoke: InvokeOutcome): seq<int> {
    if ExtractionFailed(load) then []
    else match invoke
      case InvokeFailed(_) => [SentProgress]
      case Invoked(None) => [SentProgress, ReceivedProgress]
      case Invoked(Some(d)) =>
        if ErrorSet(d) then [SentProgress, ReceivedProgress]
        else [SentProgress, ReceivedProgress, DoneProgress]
  }

  /** The step labels a run sets after extraction. */
  function StepTail(load: FrameSampling.LoadOutcome, invoke: InvokeOutcome): seq<string> {
    if ExtractionFailed(load) then []
    else match invoke
      case InvokeFailed(_) => [SendingLabel]
      case Invoked(None) => [SendingLabel, ProcessingLabel]
      case Invoked(Some(d)) =>
        if ErrorSet(d) then [SendingLabel, ProcessingLabel]
        else [SendingLabel, ProcessingLabel, CompleteLabel]
  }

  /** The events up to the end of extraction project to 0, the extraction
      progress, and the first two labels. */
  lemma ExtractedProject(ps: seq<int>)
    ensures Progresses(Opening + FrameEvents(ps)) == [0] + ps
    ensures Steps(Opening + FrameEvents(ps)) == [PreparingLabel, ExtractingLabel]
  {
    PiecesProject([]);
    FrameEventsProject(ps);
    ProjectionsAppend(Opening, FrameEvents(ps));
  }

  /** The events that send the frames add 30 and "Sending to AI for analysis...". */
  lemma SentProject(head: seq<Event>, frames: seq<FrameSampling.Frame>)
    ensures Progresses(head + Sending(frames)) == Progresses(head) + [SentProgress]
    ensures Steps(head + Sending(frames)) == Steps(head) + [SendingLabel]
  {
    PiecesProject(frames);
    ProjectionsAppend(head, Sending(frames));
  }

  /** The events after the reply add 80 and "Processing results...". */
  lemma ReceivedProject(sent: seq<Event>)
    ensures Progresses(sent + Receiving) == Progresses(sent) + [ReceivedProgress]
    ensures Steps(sent + Receiving) == Steps(sent) + [ProcessingLabel]
  {
    PiecesProject([]);
    ProjectionsAppend(sent, Receiving);
  }

  /** The closing events of a success add 100 and "Analysis complete!". */
  lemma CompletedProject(received: seq<Event>)
    ensures Progresses(received + Completing) == Progresses(received) + [DoneProgress]
    ensures Steps(received + Completing) == Steps(received) + [CompleteLabel]
  {
    PiecesProject([]);
    ProjectionsAppend(received, Completing);
  }

  /** Every run reports 0, the extraction progress, then the checkpoints it
      reaches; and sets "Preparing video...", "Extracting video frames...",
      then the labels of the stages it reaches. */
  lemma RunProjections(load: FrameSampling.LoadOutcome, invoke: InvokeOutcome)
    ensures Progresses(AnalyzeVideo(load, invoke).trace)
      == [0] + FrameSampling.ExtractFrames(load, FrameCount).progress + ProgressTail(load, invoke)
    ensures Steps(AnalyzeVideo(load, invoke).trace)
      == [PreparingLabel, ExtractingLabel] + StepTail(load, invoke)
  {
    var a := TryBlock(load, invoke);
    assert AnalyzeVideo(load, invoke).trace == [SetAnalyzing(true)] + a.events + [SetAnalyzing(false)];
    BracketProject(a.events);
    AttemptProjections(load, invoke);
  }

  /** The same for the `try` block alone. */
  lemma AttemptProjections(load: FrameSampling.LoadOutcome, invoke: InvokeOutcome)
    ensures Progresses(TryBlock(load, invoke).events)
      == [0] + FrameSampling.ExtractFrames(load, FrameCount).progress + ProgressTail(load, invoke)
    ensures Steps(TryBlock(load, invoke).events)
      == [PreparingLabel, ExtractingLabel] + StepTail(load, invoke)
  {
    var a := TryBlock(load, invoke);
    var ex := FrameSampling.ExtractFrames(load, FrameCount);
    var fp := ex.progress;
    var head := Opening + FrameEvents(fp);
    ExtractedProject(fp);
    if ExtractionFailed(load) {
      assert a.events == head;
    } else {
      var sent := head + Sending(ex.outcome.frames);
      SentProject(head, ex.outcome.frames);
      ReceivedProject(sent);
      match invoke
      case InvokeFailed(_) =>
        assert a.events == sent;
      case Invoked(None) =>
        assert a.events == sent + Receiving;
        assert [0] + fp + [SentProgress] + [ReceivedProgress] == [0] + fp + [SentProgress, ReceivedProgress];
      case Invoked(Some(d)) =>
        assert [0] + fp + [SentProgress] + [ReceivedProgress] == [0] + fp + [SentProgress, ReceivedProgress];
        if ErrorSet(d) {
          assert a.events == sent + Receiving;
        } else {
          assert a.events == sent + Receiving + Completing;
          CompletedProject(sent + Receiving);
          assert [0] + fp + [SentProgress] + [ReceivedProgress] + [DoneProgress]
            == [0] + fp + [SentProgress, ReceivedProgress, DoneProgress];
        }
    }
  }

  /** The extraction progress of a run with the hook's frame count: a
      non-decreasing prefix of 4, 8, 11, 15, 19, 23, 26, 30, all of it when
      extraction succeeds. */
  lemma ExtractionProgressShape(load: FrameSampling.LoadOutcome)
    ensures var ps := FrameSampling.ExtractFrames(load, FrameCount).progress;
      && NonDecreasing(ps) && Within(ps, 0, 30)
      && |ps| <= FrameCount
      && ps == FrameSampling.ProgressAfter(FrameCount, FrameCount)[..|ps|]
      && (!ExtractionFailed(load) ==> ps == FrameSampling.ProgressAfter(FrameCount, FrameCount))
  {
    var ps := FrameSampling.ExtractFrames(load, FrameCount).progress;
    forall i, j | 0 <= i <= j < |ps|
      ensures 0 <= ps[i] <= ps[j] <= 30
    {
      FrameSampling.FrameProgressBounds(i + 1, j + 1, FrameCount);
    }
  }

  /** The checkpoints after extraction climb from 30 to at most 100. */
  lemma TailShape(load: FrameSampling.LoadOutcome, invoke: InvokeOutcome)
    ensures var tail := ProgressTail(load, invoke);
      NonDecreasing(tail) && Within(tail, SentProgress, DoneProgress)
  {
  }

  /** 0, then values within 0..30 that never go back, then values within
      30..100 that never go back, never go back. */
  lemma ShapeMonotone(fp: seq<int>, tail: seq<int>)
    requires NonDecreasing(fp) && Within(fp, 0, SentProgress)
    requires NonDecreasing(tail) && Within(tail, SentProgress, DoneProgress)
    ensures NonDecreasing([0] + fp + tail) && Within([0] + fp + tail, 0, DoneProgress)
  {
    var ps := [0] + fp + tail;
    forall i, j | 0 <= i <= j < |ps|
      ensures ps[i] <= ps[j]
    {
      if j <= |fp| {
        if 0 < i { assert ps[i] == fp[i - 1] && ps[j] == fp[j - 1]; }
        else if 0 < j { assert ps[j] == fp[j - 1]; }
      } else if i <= |fp| {
        assert ps[j] == tail[j - 1 - |fp|];
        if 0 < i { assert ps[i] == fp[i - 1]; }
      } else {
        assert ps[i] == tail[i - 1 - |fp|] && ps[j] == tail[j - 1 - |fp|];
      }
    }
    forall i | 0 <= i < |ps|
      ensures 0 <= ps[i] <= DoneProgress
    {
      if 0 < i <= |fp| { assert ps[i] == fp[i - 1]; }
      else if |fp| < i { assert ps[i] == tail[i - 1 - |fp|]; }
    }
  }

  /** Across every run the reported progress never goes backwards, starts
      at 0 and stays between 0 and 100. */
  lemma ProgressMonotone(load: FrameSampling.LoadOutcome, invoke: InvokeOutcome)
    ensures var ps := Progresses(AnalyzeVideo(load, invoke).trace);
      NonDecreasing(ps) && Within(ps, 0, 100) && 0 < |ps| && ps[0] == 0
  {
    var fp := FrameSampling.ExtractFrames(load, FrameCount).progress;
    var tail := ProgressTail(load, invoke);
    RunProjections(load, invoke);
    ExtractionProgressShape(load);
    TailShape(load, invoke);
    ShapeMonotone(fp, tail);
  }

  /** The pieces of a successful run's projections. */
  lemma SuccessfulPieces(load: FrameSampling.LoadOutcome, invoke: InvokeOutcome)
    requires Succeeds(load, invoke)
    ensures FrameSampling.ExtractFrames(load, FrameCount).progress == [4, 8, 11, 15, 19, 23, 26, 30]
    ensures ProgressTail(load, invoke) == [SentProgress, ReceivedProgress, DoneProgress]
    ensures StepTail(load, invoke) == [SendingLabel, ProcessingLabel, CompleteLabel]
  {
    ExtractionProgressShape(load);
    FrameSampling.EightFrameProgress();
  }

  /** A successful run reports exactly 0, 4, 8, 11, 15, 19, 23, 26, 30, 30,
      80, 100 and sets the five step labels in order. */
  lemma SuccessfulRunTrace(load: FrameSampling.LoadOutcome, invoke: InvokeOutcome)
    requires Succeeds(load, invoke)
    ensures Progresses(AnalyzeVideo(load, invoke).trace)
      == [0, 4, 8, 11, 15, 19, 23, 26, 30, 30, 80, 100]
    ensures Steps(AnalyzeVideo(load, invoke).trace)
      == [PreparingLabel, ExtractingLabel, SendingLabel, ProcessingLabel, CompleteLabel]
  {
    RunProjections(load, invoke);
    SuccessfulPieces(load, invoke);
  }

  // ---------------------------------------------------------------------
  // The hook's state as a component sees it
  // ---------------------------------------------------------------------

  /** The three state variables of the hook. */
  datatype HookState = HookState(isAnalyzing: bool, progress: int, currentStep: string)

  const InitialHookState: HookState := HookState(false, 0, "")

  function Apply(st: HookState, e: Event): HookState {
    match e
    case SetAnalyzing(on) => st.(isAnalyzing := on)
    case SetProgress(p) => st.(progress := p)
    case SetStep(l) => st.(currentStep := l)
    case InvokeFunction(_) => st
  }

  /** The state after the calls in `t`, applied in order. */
  function Replay(st: HookState, t: seq<Event>): HookState
    decreases |t|
  {
    if |t| == 0 then st else Apply(Replay(st, t[..|t| - 1]), t[|t| - 1])
  }

  /** A trace that opens with `setIsAnalyzing(true)` and makes no other
      `setIsAnalyzing` call before position `k` keeps `isAnalyzing` set. */
  lemma {:induction false} AnalyzingUntil(st: HookState, t: seq<Event>, k: nat)
    requires 1 <= k <= |t|
    requires t[0] == SetAnalyzing(true)
    requires forall i :: 1 <= i < k ==> !t[i].SetAnalyzing?
    ensures Replay(st, t[..k]).isAnalyzing
    decreases k
  {
    var p := t[..k];
    assert p[..k - 1] == t[..k - 1];
    if k == 1 {
      assert Replay(st, p) == Apply(Replay(st, []), SetAnalyzing(true));
    } else {
      AnalyzingUntil(st, t, k - 1);
    }
  }

  /** `isAnalyzing` is true from the first call of a run until its last,
      on every path. */
  lemma AnalyzingDuringRun(st: HookState, load: FrameSampling.LoadOutcome, invoke: InvokeOutcome, k: nat)
    requires 1 <= k < |AnalyzeVideo(load, invoke).trace|
    ensures Replay(st, AnalyzeVideo(load, invoke).trace[..k]).isAnalyzing
  {
    var t := AnalyzeVideo(load, invoke).trace;
    var mid := t[1..|t| - 1];
    assert forall i :: 1 <= i < k ==> t[i] == mid[i - 1];
    AnalyzingUntil(st, t, k);
  }

  /** Replaying one more call applies it to the state reached so far. */
  lemma ReplaySnoc(st: HookState, t: seq<Event>, e: Event)
    ensures Replay(st, t + [e]) == Apply(Replay(st, t), e)
  {
    assert (t + [e])[..|t|] == t;
  }

  /** The state after a trace whose last calls set progress, set the step
      label, possibly invoke the edge function, and clear `isAnalyzing`. */
  lemma ReplayClosing(st: HookState, pre: seq<Event>, p: int, l: string, mid: seq<Event>)
    requires |mid| <= 1 && (|mid| == 1 ==> mid[0].InvokeFunction?)
    ensures Replay(st, pre + [SetProgress(p), SetStep(l)] + mid + [SetAnalyzing(false)])
      == HookState(false, p, l)
  {
    var u0 := pre + [SetProgress(p)];
    var u1 := u0 + [SetStep(l)];
    ReplaySnoc(st, pre, SetProgress(p));
    ReplaySnoc(st, u0, SetStep(l));
    var u2 := u1 + mid;
    if |mid| == 1 {
      assert u2 == u1 + [mid[0]];
      ReplaySnoc(st, u1, mid[0]);
    } else {
      assert u2 == u1;
    }
    ReplaySnoc(st, u2, SetAnalyzing(false));
    assert pre + [SetProgress(p), SetStep(l)] + mid + [SetAnalyzing(false)] == u2 + [SetAnalyzing(false)];
  }

  /** The state after `setIsAnalyzing(true)`, the `try` block and the
      `finally` clause, case by case. */
  lemma AttemptClosing(st: HookState, load: FrameSampling.LoadOutcome, invoke: InvokeOutcome)
    ensures var t := [SetAnalyzing(true)] + TryBlock(load, invoke).events + [SetAnalyzing(false)];
      && !Replay(st, t).isAnalyzing
      && (Succeeds(load, invoke) ==> Replay(st, t) == HookState(false, DoneProgress, CompleteLabel))
      && (!ExtractionFailed(load) && invoke.Invoked? && !Succeeds(load, invoke) ==>
            Replay(st, t) == HookState(false, ReceivedProgress, ProcessingLabel))
      && (!ExtractionFailed(load) && invoke.InvokeFailed? ==>
            Replay(st, t) == HookState(false, SentProgress, SendingLabel))
  {
    var a := TryBlock(load, invoke);
    var t := [SetAnalyzing(true)] + a.events + [SetAnalyzing(false)];
    var ex := FrameSampling.ExtractFrames(load, FrameCount);
    var pre := [SetAnalyzing(true)] + Opening + FrameEvents(ex.progress);
    if ExtractionFailed(load) {
      ReplaySnoc(st, [SetAnalyzing(true)] + a.events, SetAnalyzing(false));
    } else {
      var frames := ex.outcome.frames;
      var sent := pre + [SetProgress(SentProgress), SetStep(SendingLabel)];
      match invoke
      case InvokeFailed(_) =>
        assert t == sent + [InvokeFunction(frames)] + [SetAnalyzing(false)];
        ReplayClosing(st, pre, SentProgress, SendingLabel, [InvokeFunction(frames)]);
      case Invoked(data) =>
        var received := sent + [InvokeFunction(frames)];
        if Succeeds(load, invoke) {
          assert t == received + Receiving + [SetProgress(DoneProgress), SetStep(CompleteLabel)] + [] + [SetAnalyzing(false)];
          ReplayClosing(st, received + Receiving, DoneProgress, CompleteLabel, []);
        } else {
          assert t == received + [SetProgress(ReceivedProgress), SetStep(ProcessingLabel)] + [] + [SetAnalyzing(false)];
          ReplayClosing(st, received, ReceivedProgress, ProcessingLabel, []);
        }
    }
  }

  /** After a run `isAnalyzing` is false. A successful run leaves progress
      at 100 with "Analysis complete!"; one that fails on the data's error
      (or on null data) leaves it at 80 with "Processing results...",
      because 80 is set before that check; a failed invocation leaves it at
      30. */
  lemma FinalHookState(st: HookState, load: FrameSampling.LoadOutcome, invoke: InvokeOutcome)
    ensures !Replay(st, AnalyzeVideo(load, invoke).trace).isAnalyzing
    ensures Succeeds(load, invoke) ==>
      Replay(st, AnalyzeVideo(load, invoke).trace) == HookState(false, DoneProgress, CompleteLabel)
    ensures !ExtractionFailed(load) && invoke.Invoked? && !Succeeds(load, invoke) ==>
      Replay(st, AnalyzeVideo(load, invoke).trace) == HookState(false, ReceivedProgress, ProcessingLabel)
    ensures !ExtractionFailed(load) && invoke.InvokeFailed? ==>
      Replay(st, AnalyzeVideo(load, invoke).trace) == HookState(false, SentProgress, SendingLabel)
  {
    var a := TryBlock(load, invoke);
    assert AnalyzeVideo(load, invoke).trace == [SetAnalyzing(true)] + a.events + [SetAnalyzing(false)];
    AttemptClosing(st, load, invoke);
  }
}
