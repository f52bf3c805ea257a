# Deepfake-detection KYC verification — Dafny model

This project models the verification core of the DeepVerify KYC application in Dafny:

- **The analysis edge function.** It answers CORS preflight and rejects a request without frames (400). It checks the gateway credential, forwards at most eight frames to the chat-completions gateway, and maps the gateway's failure statuses (429, 402, everything else to 500). It then normalises the model's reply. The normalisation parses a JSON candidate cut out of a fenced block or a brace span. When parsing fails, it falls back to a keyword scan ("authentic" without "not authentic") and a `NN%` confidence scan.
- **The `useVideoAnalysis` hook.**
  - The `extractFrames` arithmetic: canvas caps of 640×480, `numFrames` evenly spaced seek targets clamped to 0.1 s before the end, and per-capture progress `Math.round(k/n*30)`. It also models how the promise settles: no canvas context, a load error, the 30-second metadata timeout, or an element error part-way through.
  - The `analyzeVideo` trace of state updates (`setIsAnalyzing`, `setProgress`, `setCurrentStep`, the edge-function invocation) and the value it returns.
- **The result view's report.** The fixed metric table (96/94/98/99 against 34/28/42/18), the PASS/FAIL status and colour at the threshold of 70, and the object `generateReport` builds.
- **The page state machine of `Index.tsx`.** The views are landing, upload, processing and result, driven by the selected video, the stored result and the handlers.

## Modules

| file | module | contents |
|---|---|---|
| wrappers.dfy | `Wrappers` | `Option` |
| text.dfy | `Text` | JavaScript `\s`, ASCII lower-casing, substring search, whitespace and digit runs, decimal value of a digit string |
| response_parser.dfy | `ResponseParser` | the two regular expressions, the JSON candidate, the keyword fallback, `Normalize` |
| analyze_video_handler.dfy | `AnalyzeVideoHandler` | the `serve` handler as one function of request, environment, gateway outcome and parser |
| frame_sampling.dfy | `FrameSampling` | `extractFrames`: canvas size, seek schedule, progress, capture loop, settlement |
| video_analysis.dfy | `VideoAnalysis` | `analyzeVideo` as an event trace; its progress and label projections; the hook state replayed over it |
| verification_report.dfy | `VerificationReport` | metric table, status, colour, report object |
| index_page.dfy | `IndexPage` | page state, handlers, reachable-state invariant |

Calls the model cannot see are parameters:

- `JSON.parse` becomes `parse: string -> Option<J>`.
- `Deno.env.get` becomes an `Option<string>`.
- The gateway call becomes an `Upstream` outcome.
- The media pipeline becomes a `LoadOutcome`.
- `supabase.functions.invoke` becomes an `InvokeOutcome`.

Behaviour of the code that a reader might not expect:

- The instruction prompt asks the model for a confidence of 0–100 (supabase/functions/analyze-video/index.ts:51), but the fallback confidence is not clamped to that range. Any one-to-three-digit number before `%` is taken as written, up to 999 (`ResponseParser.FallbackConfidenceUnclamped`).
- Seek positions lie inside the video only when it is longer than 0.1 s. A video of at most 0.1 s is asked to seek to a time at or before 0 (`FrameSampling.SeeksInterior`).
- The handler has 500 paths besides the 400 one:
  - an unreadable request body;
  - a missing credential;
  - any gateway status other than 2xx, 429 or 402;
  - an unreachable gateway;
  - an unreadable gateway reply, whether the OK reply's JSON or a failing reply's text, answered with the read's own message.
- The percentage scan takes the leftmost position at which `(\d{1,3})%` matches. In `1234%` that is `234`, not `123` (`ResponseParser.LeftmostPercentMatch`).
- The keyword fallback reads "inauthentic" as an authentic verdict (`ResponseParser.InauthenticReadsAuthentic`).

## Model

| member | source | states |
|---|---|---|
| AnalyzeVideoHandler.Serve | supabase/functions/analyze-video/index.ts:8-142 | OPTIONS gets an empty 200 and nothing is sent. The response is 400 with "No video frames provided" exactly when the parsed body's `frames` is falsy, not an array, or empty. A body that cannot be read as JSON gives 500 with the read's own message. A missing or empty credential gives 500 "LOVABLE_API_KEY is not configured". The gateway is called exactly when frames and credential are both present, with the truncated request, and the answer then comes from the gateway outcome |
| AnalyzeVideoHandler.ChatFor | supabase/functions/analyze-video/index.ts:29-86 | The user turn is the instruction text followed by one image part per frame for the first `min(n, 8)` frames, in order. It carries the bearer credential, model `google/gemini-2.5-pro` and temperature 0.1 |
| AnalyzeVideoHandler.GatewayFailure | supabase/functions/analyze-video/index.ts:89-105 | For a non-OK status: 429 and 402 are kept, each with its own message. Every other status becomes 500 "AI analysis failed". The status is kept exactly for 429, 402 and 500 |
| AnalyzeVideoHandler.ContentText | supabase/functions/analyze-video/index.ts:108 | Missing content reads as the empty string; present content is passed through |
| AnalyzeVideoHandler.Answer | supabase/functions/analyze-video/index.ts:89-140 | The answer is 200 exactly when the gateway replied OK with a readable body, and the body is then the normalised content. An unreachable gateway, or an OK reply whose JSON cannot be read, gives 500 with that failure's message. 429 and 402 get their own answers whatever the body. Any other failing status gives 500 with the message of the failed text read, or "AI analysis failed" when the text was read |
| AnalyzeVideoHandler.ValidationPrecedesCredential | supabase/functions/analyze-video/index.ts:9-26 | A request of any method other than OPTIONS without frames gets the 400 answer whatever the credential and gateway would do, and no gateway request is sent |
| AnalyzeVideoHandler.TwelveFramesSendEight | supabase/functions/analyze-video/index.ts:29-34 | With twelve frames exactly the first eight are sent, in order |
| AnalyzeVideoHandler.FailingReplyStatus | supabase/functions/analyze-video/index.ts:89-105 | A failing gateway reply always gives an error body. The client sees 429 or 402 exactly when the gateway said so, and 500 for any other failure |
| AnalyzeVideoHandler.RateLimitDistinctFromCredits | supabase/functions/analyze-video/index.ts:90-101 | The 429 and 402 answers differ in both status and message |
| Text.FindFrom | supabase/functions/analyze-video/index.ts:114 | The result is the leftmost occurrence of the pattern at or after the start index, or none when there is no occurrence there |
| Text.Contains | supabase/functions/analyze-video/index.ts:120 | `includes` holds exactly when the needle occurs somewhere in the text |
| Text.ToLower | supabase/functions/analyze-video/index.ts:120 | ASCII lower-casing: the length is kept and only `A`–`Z` change, each to the letter at the same place in `a`–`z` |
| Text.DecimalValue | supabase/functions/analyze-video/index.ts:124 | `parseInt` of a run of `d` digits is below 10^d |
| ResponseParser.FindFence | supabase/functions/analyze-video/index.ts:114 | A reported fenced match has its opener and closing fence in place, and its capture lies between them |
| ResponseParser.FindFenceIsFirstMatch | supabase/functions/analyze-video/index.ts:114 | `/```json\s*([\s\S]*?)\s*```/` is matched exactly. There is a match iff the pattern matches at some position. The reported one has the leftmost start, consumes the opener's whitespace greedily, stops at the first closing fence, and leaves the whitespace before it out of the capture |
| ResponseParser.FindBraces | supabase/functions/analyze-video/index.ts:114 | `/\{[\s\S]*\}/` yields the first `{` to the last `}` when the first comes before the last, and no match otherwise |
| ResponseParser.FencePatternCovered | supabase/functions/analyze-video/index.ts:114 | Any layout of the fenced pattern's pieces from a position (opener, whitespace, any text, whitespace, closing fence) counts as a match there |
| ResponseParser.FencedCandidate | supabase/functions/analyze-video/index.ts:114-115 | Whenever the fenced pattern matches somewhere, the candidate comes from its leftmost, lazily closed match: the capture, or the whole match when the capture is empty (an empty capture is falsy) |
| ResponseParser.FencedCandidateTrimmed | supabase/functions/analyze-video/index.ts:114-115 | A non-empty fenced candidate neither starts nor ends with whitespace and contains no fence |
| ResponseParser.BraceCandidate | supabase/functions/analyze-video/index.ts:114-115 | Without a fenced block, the candidate is the brace span and starts with `{` and ends with `}` |
| ResponseParser.WholeCandidate | supabase/functions/analyze-video/index.ts:114-115 | When the fenced pattern matches nowhere and no `{` precedes a `}`, the whole content is the candidate |
| ResponseParser.CandidateWithinContent | supabase/functions/analyze-video/index.ts:114-115 | Whatever the branch, the candidate is a substring of the reply |
| ResponseParser.HeuristicVerdict | supabase/functions/analyze-video/index.ts:120 | Authentic exactly when the lower-cased reply contains "authentic" and does not contain "not authentic" |
| ResponseParser.PercentAtIsPattern | supabase/functions/analyze-video/index.ts:121 | A percentage match starts at a position exactly when one to three digits there are followed by `%` |
| ResponseParser.FindPercent | supabase/functions/analyze-video/index.ts:121 | Finds the leftmost position at or after the start where `(\d{1,3})%` matches, or none when it matches nowhere there |
| ResponseParser.HeuristicConfidence | supabase/functions/analyze-video/index.ts:121-124 | The confidence is 50 when `(\d{1,3})%` matches nowhere. Otherwise it is the decimal value of the digits of the leftmost match, at most 999 |
| ResponseParser.Normalize | supabase/functions/analyze-video/index.ts:111-128 | The parsed candidate is adopted exactly when it parses. Otherwise the fallback object has the fixed summary and the keyword verdict. Its confidence is the decimal value of the leftmost `(\d{1,3})%` match's digits, so at most 999, and 50 when there is no match |
| ResponseParser.EmptyContentFallback | supabase/functions/analyze-video/index.ts:108-127 | An empty reply falls back to "not authentic", confidence 50 and the fixed summary |
| ResponseParser.LeftmostPercentMatch | supabase/functions/analyze-video/index.ts:121-124 | In "1234%" the match starts at the second digit, giving 234 |
| ResponseParser.FallbackConfidenceUnclamped | supabase/functions/analyze-video/index.ts:121-124 | "999%" yields confidence 999; no clamping to 100 |
| ResponseParser.NegationCaseInsensitive | supabase/functions/analyze-video/index.ts:120 | "Not authentic" is caught after lower-casing |
| ResponseParser.InauthenticReadsAuthentic | supabase/functions/analyze-video/index.ts:120 | "inauthentic" reads as an authentic verdict |
| FrameSampling.CanvasWidth | src/hooks/useVideoAnalysis.ts:50 | The canvas width is the video width capped at 640 |
| FrameSampling.CanvasHeight | src/hooks/useVideoAnalysis.ts:51 | The canvas height is the video height capped at 480 |
| FrameSampling.SeekTime | src/hooks/useVideoAnalysis.ts:53-65 | The seek position is the `k+1`-th of `n+1` equal slices, clamped to 0.1 s before the end |
| FrameSampling.Round | src/hooks/useVideoAnalysis.ts:73 | `Math.round` is within half a unit, halves rounding up |
| FrameSampling.ProgressAfter | src/hooks/useVideoAnalysis.ts:73 | One progress value per completed capture |
| FrameSampling.SampledFrames | src/hooks/useVideoAnalysis.ts:55-77 | A completed capture run has exactly `n` frames |
| FrameSampling.CaptureFrames | src/hooks/useVideoAnalysis.ts:55-77 | The sequential capture loop produces frame `k` at seek target `k` at the capped canvas size, and reports `Math.round((k+1)/n*30)` after capture `k` |
| FrameSampling.ExtractFrames | src/hooks/useVideoAnalysis.ts:30-93 | The promise resolves exactly when metadata loaded and no element error interrupts the `n` captures, and then with the sampled frames and `n` progress values. It rejects with "Could not create canvas context", "Failed to load video" or "Video loading timed out" on the matching failure. An element error after `k < n` captures leaves exactly the `k` progress values `Math.round(1/n*30)` … `Math.round(k/n*30)` reported by the completed seeks. Callbacks that run after the promise has settled are not part of this contract (see Left out) |
| FrameSampling.ErrorKeepsCompletedProgress | src/hooks/useVideoAnalysis.ts:68-82 | An element error after `k < n` captures rejects with "Failed to load video" and leaves exactly the progress values of the `k` completed seeks |
| FrameSampling.TargetsInterior | src/hooks/useVideoAnalysis.ts:54-64 | For a positive duration the unclamped targets lie strictly inside the video |
| FrameSampling.TargetsIncreasing | src/hooks/useVideoAnalysis.ts:54-64 | The unclamped targets strictly increase with the frame index |
| FrameSampling.SeeksNonDecreasing | src/hooks/useVideoAnalysis.ts:64-65 | The clamped seek positions never go backwards |
| FrameSampling.SeeksInterior | src/hooks/useVideoAnalysis.ts:64-65 | For videos longer than 0.1 s every seek position is strictly inside the video |
| FrameSampling.SampledFramesOrdered | src/hooks/useVideoAnalysis.ts:50-71 | Frames are in time order, none after 0.1 s before the end, all at most 640×480 |
| FrameSampling.FrameProgressBounds | src/hooks/useVideoAnalysis.ts:73 | Per-capture progress stays in 0..30, never decreases, and reaches 30 with the last capture |
| FrameSampling.EightFrameProgress | src/hooks/useVideoAnalysis.ts:73 | With eight frames the values are 4, 8, 11, 15, 19, 23, 26, 30 |
| VideoAnalysis.ResultOf | src/hooks/useVideoAnalysis.ts:132-137 | The returned result copies the data's verdict, confidence, summary and analysis |
| VideoAnalysis.AnalyzeVideo | src/hooks/useVideoAnalysis.ts:95-146 | The trace opens with `setIsAnalyzing(true)` and closes with `setIsAnalyzing(false)` on every path, with no other such call. The result is present exactly when extraction succeeded, the invocation answered with data, and the data has no error; it is then the copied data. After a failed extraction nothing is invoked; after a successful one the edge function is invoked with the sampled frames. Every invocation carries the sampled frames |
| VideoAnalysis.QuietAttempt | src/hooks/useVideoAnalysis.ts:100-137 | The `try` block never calls `setIsAnalyzing`. It invokes only with the sampled frames, only after a successful extraction, and always after one |
| VideoAnalysis.RunProjections | src/hooks/useVideoAnalysis.ts:95-146 | The progress values of a run are 0, the extraction's values, then the checkpoints 30, 80, 100 it reaches. The labels are "Preparing video...", "Extracting video frames..." and those of the stages reached |
| VideoAnalysis.AttemptProjections | src/hooks/useVideoAnalysis.ts:100-130 | The same projection for the `try` block alone |
| VideoAnalysis.ExtractionProgressShape | src/hooks/useVideoAnalysis.ts:73 | The extraction progress seen by a run is a non-decreasing prefix of the eight-frame values, all of them on success |
| VideoAnalysis.ProgressMonotone | src/hooks/useVideoAnalysis.ts:95-146 | On every path the reported progress starts at 0, stays in 0..100 and never goes backwards |
| VideoAnalysis.SuccessfulRunTrace | src/hooks/useVideoAnalysis.ts:96-130 | A successful run reports exactly 0, 4, 8, 11, 15, 19, 23, 26, 30, 30, 80, 100, and sets the five step labels in order |
| VideoAnalysis.AnalyzingDuringRun | src/hooks/useVideoAnalysis.ts:96-144 | `isAnalyzing` is true after every proper prefix of a run's updates |
| VideoAnalysis.FinalHookState | src/hooks/useVideoAnalysis.ts:96-145 | After a run `isAnalyzing` is false. Success leaves 100 and "Analysis complete!". An error in the data, or null data, leaves 80 and "Processing results...". A failed invocation leaves 30 and "Sending to AI for analysis..." |
| VerificationReport.Status | src/components/VerificationResult.tsx:20 | PASS exactly at scores of 70 and above, FAIL below |
| VerificationReport.ScoreColour | src/components/VerificationResult.tsx:125 | The success colour exactly at scores of 70 and above |
| VerificationReport.Metrics | src/components/VerificationResult.tsx:39-44 | Four metrics, all scoring at least 90 for an authentic verdict and all below 50 otherwise |
| VerificationReport.BuildReport | src/components/VerificationResult.tsx:11-25 | The verdict is AUTHENTIC iff authentic, else DEEPFAKE_DETECTED. The confidence is copied. There is one detail per metric, in order, with label and score copied, PASS iff the score is at least 70 and FAIL iff it is below. The recommendation matches the verdict |
| VerificationReport.MetricsOf | src/components/VerificationResult.tsx:17-21 | One metric is read back per report detail |
| VerificationReport.ReportRoundTrip | src/components/VerificationResult.tsx:11-25 | Verdict, confidence and the whole metric list can be read back from the report |
| VerificationReport.FixedTableAgreesWithVerdict | src/components/VerificationResult.tsx:15-44 | With the fixed table every metric passes for an authentic verdict and fails otherwise |
| VerificationReport.ColourMatchesStatus | src/components/VerificationResult.tsx:20-135 | The colour on screen is the success colour exactly when the report says PASS |
| IndexPage.SelectVideo | src/pages/Index.tsx:19-21 | Selecting a video replaces the selection and nothing else |
| IndexPage.ClearSelection | src/pages/Index.tsx:152 | Clearing drops the selection and nothing else |
| IndexPage.OpenUpload | src/pages/Index.tsx:101 | The landing button moves to the upload view and keeps everything else |
| IndexPage.BeginVerification | src/pages/Index.tsx:23-25 | With a selection the page moves to processing; without one nothing changes |
| IndexPage.FinishVerification | src/pages/Index.tsx:27-39 | A result is stored (verdict, confidence, summary) and shown. A null result returns to the upload view with the selection kept |
| IndexPage.StartVerification | src/pages/Index.tsx:23-41 | The whole handler: no selection means no change; otherwise the page ends in the result or the upload view |
| IndexPage.Reset | src/pages/Index.tsx:43-47 | Reset returns to the initial page from any state |
| IndexPage.ReachableConsistent | src/pages/Index.tsx:172-183 | From a consistent page every sequence of handlers keeps the result state backed by a stored result. The result view therefore shows exactly in the result state |
| IndexPage.ResultViewReport | src/pages/Index.tsx:27-35 | After a successful analysis the result view's report says AUTHENTIC exactly when the analysis did, with its confidence unchanged |
| IndexPage.FailedExtractionReturnsToUpload | src/pages/Index.tsx:36-39 | A failed extraction returns the page to the upload view with the selection and the stored result kept and no result shown |
| IndexPage.DisabledVerifyChangesNothing | src/pages/Index.tsx:23-41 | Without a selection the verify handler changes nothing; with one it ends in the upload or the result view |

## Left out

- Network, environment and logging: the gateway HTTP exchange, `Deno.env`, `console` output, toast notifications and the CORS headers. Outcomes of calls the model cannot see are parameters.
- The system prompt's wording is not modelled; only the user turn's instruction text and image parts are.
- `JSON.parse` is the parameter `parse`. Whether the JSON the model returns has the promised fields and types is not modelled: a structured payload is passed through as it is.
- Non-string `content` in the gateway reply is not modelled: content is either a string or missing.
- The text that `response.text()` reads on the non-429/402 error path only feeds the log, so its content is not modelled. Whether the read rejects is modelled, because a rejection replaces "AI analysis failed" with its own message.
- Text.ToLower: only ASCII letters are lower-cased. JavaScript's `toLowerCase` also maps non-ASCII letters: U+0130 becomes two code units, and final sigma depends on context. The handler lower-cases only to search for ASCII needles, and that search is unaffected (see the next line).
- ResponseParser.HeuristicVerdict: lower-casing covers ASCII letters only. Both needles are ASCII. Only two non-ASCII characters lower-case to anything containing an ASCII letter:
  - U+212A KELVIN SIGN becomes 'k', which the needles do not contain.
  - U+0130 becomes 'i' followed by U+0307, and in the needles 'i' is always followed by 'c'.
  So neither can create or break an occurrence, and the verdict is unchanged.
- FrameSampling.ExtractFrames: the video and canvas elements, JPEG encoding and object URLs are left out. Media behaviour is an abstract `LoadOutcome`. A seek that never completes (the promise then never settles) and NaN or infinite durations are not modelled.
- The 30-second metadata timeout is the outcome `MetadataTimeout`; clocks are not modelled.
- FrameSampling.ExtractFrames: a rejection removes no handler, and callbacks that run after the promise has settled are not modelled. With `MetadataTimeout`, metadata that arrives after the timeout (src/hooks/useVideoAnalysis.ts:85-89) still starts the captures. Each capture then still calls `setProgress` (lines 48-77), after the rejection, possibly after `analyzeVideo`'s `finally` or during a later run. Seeks that complete after an element error likewise keep reporting progress. The model records only the progress reported before the promise settles.
- Times and the progress quotient are exact reals, where the source uses doubles. For eight frames every progress value is exact in binary floating point.
- VideoAnalysis.AnalyzeVideo: the thrown message and toast of a failed run are not recorded, only the `null` return. A non-empty frame list is always what a resolved extraction yields, so the "Could not extract frames" throw is unreachable with eight frames.
- The report id, timestamp and the JSON file download of `generateReport` are left out.
- Presentation-only components are not part of this model: src/components/ProcessingState.tsx, src/components/VideoUpload.tsx, src/components/Header.tsx, src/pages/Dashboard.tsx and the dashboard components. JSX markup and styling are also out.
