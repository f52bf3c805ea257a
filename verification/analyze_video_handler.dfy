/** The `serve` handler of the analysis edge function
    (supabase/functions/analyze-video/index.ts): answer CORS preflight,
    validate the posted frames, check the gateway credential, forward at most
    eight frames to the chat-completions gateway, map its failure statuses,
    and normalise its reply.

    The environment lookup, the gateway call and `JSON.parse` are parameters:
    `apiKey` is what `Deno.env.get` returned, `upstream` is what the gateway
    call produced, and `parse` stands for `JSON.parse`. The exchange records
    the gateway request, if one was sent, beside the response. */
module AnalyzeVideoHandler {
  import opened Wrappers
  import ResponseParser

  const MaxFrames: nat := 8
  const NoFramesMessage: string := "No video frames provided"
  const MissingKeyMessage: string := "LOVABLE_API_KEY is not configured"
  const RateLimitMessage: string := "Rate limit exceeded. Please try again in a moment."
  const CreditsMessage: string := "AI service credits depleted. Please add credits to continue."
  const GatewayFailedMessage: string := "AI analysis failed"
  const GatewayModel: string := "google/gemini-2.5-pro"
  const Temperature: real := 0.1
  const UserInstruction: string :=
    "Analyze these video frames for signs of deepfake manipulation. Look for any inconsistencies, artifacts, or signs of AI-generated or manipulated content. Provide a detailed analysis."

  /** The `frames` field of the posted JSON body. `Absent` covers every falsy
      value (undefined, null, false, 0, ""); `NotAnArray` any other
      non-array value. Frames themselves are opaque data URLs. */
  datatype FramesField = Absent | NotAnArray | FrameList(items: seq<string>)

  /** `await req.json()` either throws (the message is surfaced) or yields a
      body whose `frames` field is then read. */
  datatype RequestBody = Unparsable(reason: string) | Parsed(frames: FramesField)

  datatype Request = Request(httpMethod: string, body: RequestBody)

  /** One part of the user turn sent to the gateway. */
  datatype ContentPart = TextPart(text: string) | ImageUrl(url: string)

  /** The chat-completions request: bearer credential, model, the user turn
      (the system turn carries the fixed instruction prompt, whose wording
      is not modelled) and the sampling temperature. */
  datatype ChatRequest = ChatRequest(
    authorization: string,
    model: string,
    userContent: seq<ContentPart>,
    temperature: real)

  /** The gateway reply's body as the handler reads it: `response.json()`
      for an OK reply, `response.text()` for a failing reply other than 429
      and 402 (429 and 402 are answered without reading it). Either read
      may reject, and its message is then surfaced. An OK reply whose JSON
      is `null` also belongs to `Unreadable`: `response.json()` resolves,
      but reading `data.choices` then throws a `TypeError`, whose message is
      surfaced with status 500 just the same. For an OK reply,
      `choices[0].message.content` may be missing; for a failing reply the
      text read only feeds the log, so its content plays no part. */
  datatype ReplyBody = Unreadable(reason: string) | Completion(content: Option<string>)

  /** What the gateway call produced: `fetch` rejected, or a reply arrived. */
  datatype Upstream = Unreachable(reason: string) | Reply(status: int, body: ReplyBody)

  datatype Body<J> = NoBody | ErrorBody(error: string) | Analysis(payload: ResponseParser.Payload<J>)

  datatype Response<J> = Response(status: int, body: Body<J>)

  datatype Exchange<J> = Exchange(sent: Option<ChatRequest>, response: Response<J>)

  /** `!frames || !Array.isArray(frames) || frames.length === 0` fails. */
  predicate HasFrames(f: FramesField) {
    f.FrameList? && |f.items| > 0
  }

  /** An environment variable is usable when it is set and non-empty. */
  predicate Configured(apiKey: Option<string>) {
    apiKey.Some? && apiKey.value != ""
  }

  /** `response.ok`. */
  predicate IsOk(status: int) {
    200 <= status <= 299
  }

  function Min(a: nat, b: nat): nat {
    if a <= b then a else b
  }

  /** Lines 29-34 and 64-86: the instruction text first, then one image part
      per frame for the first eight frames, in their original order. */
  function ChatFor(frames: seq<string>, key: string): (c: ChatRequest)
    ensures |c.userContent| == 1 + Min(|frames|, MaxFrames)
    ensures c.userContent[0] == TextPart(UserInstruction)
    ensures forall i :: 0 <= i < Min(|frames|, MaxFrames) ==> c.userContent[i + 1] == ImageUrl(frames[i])
    ensures forall i :: 1 <= i < |c.userContent| ==> c.userContent[i].ImageUrl?
    ensures c.authorization == "Bearer " + key
    ensures c.model == GatewayModel && c.temperature == Temperature
  {
    var images := seq(Min(|frames|, MaxFrames), i requires 0 <= i < Min(|frames|, MaxFrames) => ImageUrl(frames[i]));
    ChatRequest("Bearer " + key, GatewayModel, [TextPart(UserInstruction)] + images, Temperature)
  }

  /** Lines 89-105 with the catch-all at 133-140: a non-OK gateway status
      becomes the response. 429 and 402 keep their status with distinct
      messages; anything else is rethrown as "AI analysis failed" and
      answered with 500. */
  function GatewayFailure<J>(status: int): (r: Response<J>)
    requires !IsOk(status)
    ensures r.body.ErrorBody?
    ensures r.status == status <==> status == 429 || status == 402 || status == 500
    ensures r.status == 429 <==> status == 429
    ensures r.status == 402 <==> status == 402
    ensures status == 429 ==> r.body.error == RateLimitMessage
    ensures status == 402 ==> r.body.error == CreditsMessage
    ensures status != 429 && status != 402 ==> r == Response(500, ErrorBody(GatewayFailedMessage))
  {
    if status == 429 then Response(429, ErrorBody(RateLimitMessage))
    else if status == 402 then Response(402, ErrorBody(CreditsMessage))
    else Response(500, ErrorBody(GatewayFailedMessage))
  }

  /** `data.choices?.[0]?.message?.content || ""`. */
  function ContentText(content: Option<string>): (t: string)
    ensures content.Some? ==> t == content.value
    ensures content.None? ==> t == ""
  {
    content.GetOr("")
  }

  /** What happens once the gateway has been called. */
  function Answer<J>(upstream: Upstream, parse: string -> Option<J>): (r: Response<J>)
    ensures r.status == 200 <==> upstream.Reply? && IsOk(upstream.status) && upstream.body.Completion?
    ensures r.status == 200 ==> r.body == Analysis(ResponseParser.Normalize(ContentText(upstream.body.content), parse))
    ensures r.status != 200 ==> r.body.ErrorBody?
    ensures upstream.Unreachable? ==> r == Response(500, ErrorBody(upstream.reason))
    ensures upstream.Reply? && IsOk(upstream.status) && upstream.body.Unreadable? ==>
      r == Response(500, ErrorBody(upstream.body.reason))
    ensures upstream.Reply? && (upstream.status == 429 || upstream.status == 402) ==>
      r == GatewayFailure(upstream.status)
    ensures upstream.Reply? && !IsOk(upstream.status) && upstream.status != 429 && upstream.status != 402 ==>
      r == Response(500, ErrorBody(if upstream.body.Unreadable? then upstream.body.reason else GatewayFailedMessage))
  {
    match upstream
    case Unreachable(reason) => Response(500, ErrorBody(reason))
    case Reply(status, body) =>
      if !IsOk(status) then
        if status != 429 && status != 402 && body.Unreadable? then Response(500, ErrorBody(body.reason))
        else GatewayFailure(status)
      else match body
        case Unreadable(reason) => Response(500, ErrorBody(reason))
        case Completion(content) =>
          Response(200, Analysis(ResponseParser.Normalize(ContentText(content), parse)))
  }

  /** The whole handler. Validation comes first, then the credential check,
      and only then is the gateway called. */
  function Serve<J>(req: Request, apiKey: Option<string>, upstream: Upstream,
                    parse: string -> Option<J>): (x: Exchange<J>)
    ensures req.httpMethod == "OPTIONS" ==> x == Exchange(None, Response(200, NoBody))
    ensures req.httpMethod != "OPTIONS" && req.body.Unparsable? ==>
      x == Exchange(None, Response(500, ErrorBody(req.body.reason)))
    ensures x.response.status == 400 <==>
      req.httpMethod != "OPTIONS" && req.body.Parsed? && !HasFrames(req.body.frames)
    ensures x.response.status == 400 ==> x.response.body == ErrorBody(NoFramesMessage) && x.sent.None?
    ensures req.httpMethod != "OPTIONS" && req.body.Parsed? && HasFrames(req.body.frames) && !Configured(apiKey) ==>
      x == Exchange(None, Response(500, ErrorBody(MissingKeyMessage)))
    ensures x.sent.Some? <==>
      req.httpMethod != "OPTIONS" && req.body.Parsed? && HasFrames(req.body.frames) && Configured(apiKey)
    ensures x.sent.Some? ==>
      x.sent.value == ChatFor(req.body.frames.items, apiKey.value)
      && x.response == Answer(upstream, parse)
  {
    if req.httpMethod == "OPTIONS" then Exchange(None, Response(200, NoBody))
    else match req.body
      case Unparsable(reason) => Exchange(None, Response(500, ErrorBody(reason)))
      case Parsed(frames) =>
        if !HasFrames(frames) then Exchange(None, Response(400, ErrorBody(NoFramesMessage)))
        else if !Configured(apiKey) then Exchange(None, Response(500, ErrorBody(MissingKeyMessage)))
        else Exchange(Some(ChatFor(frames.items, apiKey.value)), Answer(upstream, parse))
  }

  /** Whatever the gateway would have said, a request without frames is
      answered 400 and the gateway is not called, even when the credential
      is missing too. */
  lemma ValidationPrecedesCredential<J>(httpMethod: string, frames: FramesField, apiKey: Option<string>,
                                        upstream: Upstream, parse: string -> Option<J>)
    requires httpMethod != "OPTIONS" && !HasFrames(frames)
    ensures Serve(Request(httpMethod, Parsed(frames)), apiKey, upstream, parse)
            == Exchange(None, Response(400, ErrorBody(NoFramesMessage)))
  {
  }

  /** Twelve frames: only the first eight are sent, in order. */
  lemma TwelveFramesSendEight(frames: seq<string>, key: string)
    requires |frames| == 12
    ensures var c := ChatFor(frames, key);
      |c.userContent| == 9 && c.userContent[1..] == seq(8, i requires 0 <= i < 8 => ImageUrl(frames[i]))
  {
  }

  /** The rate-limit and credits answers differ in status and message, so a
      client can tell them apart. */
  lemma RateLimitDistinctFromCredits<J>()
    ensures GatewayFailure<J>(429) != GatewayFailure<J>(402)
    ensures GatewayFailure<J>(429).body.error != GatewayFailure<J>(402).body.error
  {
  }

  /** A failing gateway reply never reaches the client as a success: the
      client sees 429 or 402 exactly when the gateway said so, and 500 for
      every other failure, whatever the reply's body. */
  lemma FailingReplyStatus<J>(status: int, body: ReplyBody, parse: string -> Option<J>)
    requires !IsOk(status)
    ensures var r := Answer(Reply(status, body), parse);
      && r.body.ErrorBody?
      && (r.status == 429 <==> status == 429)
      && (r.status == 402 <==> status == 402)
      && (status != 429 && status != 402 ==> r.status == 500)
  {
  }
}
