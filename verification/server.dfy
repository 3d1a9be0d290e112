/**
  The `POST /api/generate` handler as one pure function from (the request's
  `prompt` field, whether the API key is configured, what the completion API
  did) to (the HTTP response, the chat request sent upstream if any).
 */
module Server {
  import opened Wrappers
  import opened Http
  import Utf8
  import Base64
  import SvgMatch
  import Text

  /** The `prompt` member of the parsed request body. */
  datatype PromptField =
    | Missing                  // absent, or JSON null
    | JsonString(text: string)
    | JsonNonString            // a number, boolean, array or object

  /** A JavaScript exception: its `message` ("" when it has none) and its `String(err)` rendering. */
  datatype Thrown = Thrown(message: string, rendering: string)

  /** `data.choices[0].message.content` of a parsed completion. */
  datatype Content =
    | NoContent                      // any link of the optional chain missing
    | TextContent(text: string)
    | NonTextContent(truthy: bool)   // a number, boolean, array, object or null

  /** The upstream body as seen by `await openaiResponse.json()`. */
  datatype UpstreamBody =
    | NotJson(parseError: Thrown)
    | Json(errorMessage: Option<string>, content: Content)  // `data.error.message`, completion content

  /** What the completion API call did. */
  datatype Upstream =
    | FetchFailed(error: Thrown)
    | Responded(status: int, body: UpstreamBody)

  /**
    The chat request sent upstream, identified by the prompt spliced into it;
    `Messages` renders its two messages.
   */
  datatype ChatRequest = ChatRequest(prompt: string)

  datatype Body =
    | ImageBody(imageUrl: string)
    | ErrorBody(error: string, details: Option<string>)

  datatype Response = Response(status: int, body: Body)

  /** The handler's observable effect: the reply, and the upstream request if one was made. */
  datatype Outcome = Outcome(response: Response, upstreamCall: Option<ChatRequest>)

  const InvalidPromptError := "Missing or invalid 'prompt' in request body."
  const MissingKeyError := "OPENAI_API_KEY not configured on the server."
  const UpstreamFailedError := "Failed to generate SVG."
  const UnknownUpstreamDetails := "Unknown error from OpenAI."
  const NoSvgError := "Model did not return a valid SVG."
  const InternalError := "Internal server error in /api/generate."
  const DataUrlPrefix := "data:image/svg+xml;base64,"

  /** What V8 throws when `svgRaw.match` is called on a non-string completion. */
  const MatchNotAFunction := Thrown("svgRaw.match is not a function", "TypeError: svgRaw.match is not a function")

  const SystemDirective :=
    "You are an SVG illustration engine for playful workshop doodles. You ONLY respond with a single <svg>...</svg> element."

  /** The instruction text before the quoted prompt. */
  const InstructionHead := "\nYou are designing a playful WORKSHOP DOODLE as SVG for this concept:\n\n\""

  /** The instruction text after the quoted prompt: the requirement sections and the closing order. */
  const InstructionTail :=
    "\"\n\nRequirements:\n\n"
    + VibeRules + CompositionRules + StyleRules + PaletteRules + TechnicalRules
    + "Return ONLY a single <svg>...</svg> element, nothing else.\n"

  /** The overall vibe requirements. */
  const VibeRules :=
    "- Overall vibe:\n  - Fun, chunky, hand-drawn workshop doodle.\n  - Looks like something on a sticky note or facilitation wall.\n  - Simple but expressive, not overly detailed.\n\n"

  /** The composition requirements. */
  const CompositionRules :=
    "- Composition:\n  - Use a 400x300 canvas.\n  - Include 3\U{2013}7 simple elements (shapes / icons / arrows).\n  - Focus on clear metaphor for the concept (e.g. people, arrows, screens, circles, stars).\n  - Center-weighted composition, avoid empty corners.\n\n"

  /** The style requirements. */
  const StyleRules :=
    "- Style:\n  - Flat colors, no gradients.\n  - THICK strokes (4\U{2013}6px) with rounded linecaps and linejoins.\n  - DO NOT use text labels inside the image (no words, letters, or numbers).\n\n"

  /** The colour palette requirements. */
  const PaletteRules :=
    "- Color palette (stick to these):\n  - Background: #f4e4c3 (paper)\n  - Ink / outlines: #0d1b2a\n  - Accents: #e4572e (orange), #f5b42a (yellow), #4cb5ae (teal), #6c4ab6 (purple)\n  - Avoid pure white backgrounds; always use the paper color as base.\n\n"

  /** The technical SVG details requirements. */
  const TechnicalRules :=
    "- Technical SVG details:\n  - Use: <svg width=\"400\" height=\"300\" viewBox=\"0 0 400 300\" ...>\n  - Set a background rect that fills the whole canvas with #f4e4c3.\n  - Use stroke=\"#0d1b2a\" and stroke-width between 4 and 6 for main outlines.\n  - No external images, no <foreignObject>, no scripts.\n\n"

  /** The handler's guard `!prompt || typeof prompt !== "string"`, negated: a non-empty string. */
  predicate IsValidPrompt(p: PromptField) {
    p.JsonString? && p.text != ""
  }

  /** `err?.message || String(err)`. */
  function ErrorDetails(e: Thrown): (d: string)
    ensures e.message != "" ==> d == e.message
    ensures e.message == "" ==> d == e.rendering
  {
    if e.message != "" then e.message else e.rendering
  }

  /** `data?.error?.message || "Unknown error from OpenAI."`. */
  function UpstreamDetails(message: Option<string>): (d: string)
    ensures d != ""
    ensures message.Some? && message.value != "" ==> d == message.value
    ensures !(message.Some? && message.value != "") ==> d == UnknownUpstreamDetails
  {
    if message.Some? && message.value != "" then message.value else UnknownUpstreamDetails
  }

  /** `data?.choices?.[0]?.message?.content || ""` when that value is a string or falsy. */
  function CompletionText(c: Content): (t: string)
    requires !(c.NonTextContent? && c.truthy)
    ensures c.TextContent? ==> t == c.text
    ensures !c.TextContent? ==> t == ""
  {
    if c.TextContent? then c.text else ""
  }

  /** The user instruction: the prompt between quotes inside the fixed drawing brief. */
  function UserInstruction(prompt: string): (r: string)
    ensures |r| == |InstructionHead| + |prompt| + |InstructionTail|
    ensures r[..|InstructionHead|] == InstructionHead
    ensures r[|InstructionHead|..|InstructionHead| + |prompt|] == prompt
    ensures r[|InstructionHead| + |prompt|..] == InstructionTail
  {
    Text.Splice(InstructionHead, prompt, InstructionTail)
  }

  /** Distinct prompts give distinct instructions, so the prompt can be read back. */
  lemma {:induction false} UserInstructionInjective(p: string, q: string)
    requires UserInstruction(p) == UserInstruction(q)
    ensures p == q
  {
    Text.SpliceInjective(InstructionHead, p, q, InstructionTail);
  }

  /** The request's messages: the fixed system directive, then the user instruction. */
  function Messages(c: ChatRequest): seq<string> {
    [SystemDirective, UserInstruction(c.prompt)]
  }

  /** `data:image/svg+xml;base64,` followed by the Base64 of the UTF-8 of `svg`. */
  function DataUrl(svg: string): (url: string)
    ensures |url| >= |DataUrlPrefix| && url[..|DataUrlPrefix|] == DataUrlPrefix
  {
    DataUrlPrefix + Base64.Encode(Utf8.Encode(svg))
  }

  /** Reads a `data:image/svg+xml;base64,` URL back to the text it carries. */
  function DecodeDataUrl(url: string): Option<string> {
    if |url| < |DataUrlPrefix| || url[..|DataUrlPrefix|] != DataUrlPrefix then None
    else
      match Base64.Decode(url[|DataUrlPrefix|..])
      case None => None
      case Some(bytes) => Utf8.Decode(bytes)
  }

  /** Round trip: the data URL decodes to exactly the fragment it was made from. */
  lemma {:induction false} DecodeDataUrlOfDataUrl(svg: string)
    ensures DecodeDataUrl(DataUrl(svg)) == Some(svg)
  {
    var url := DataUrl(svg);
    assert url[|DataUrlPrefix|..] == Base64.Encode(Utf8.Encode(svg));
    Base64.DecodeEncode(Utf8.Encode(svg));
    Utf8.DecodeEncode(svg);
  }

  /** The catch-all branch. */
  function InternalErrorResponse(e: Thrown): Response {
    Response(500, ErrorBody(InternalError, Some(ErrorDetails(e))))
  }

  /**
    Everything after the upstream call: parse the body as JSON (a failure is
    thrown, so it reaches the catch-all even when the status was not ok),
    classify the status, take the completion text, extract the SVG fragment
    and wrap it in a data URL.
   */
  function Respond(u: Upstream): (r: Response)
    ensures r.status == 200 || r.status == 500
    ensures r.status == 200 <==> r.body.ImageBody?
    ensures u.FetchFailed? ==> r == InternalErrorResponse(u.error)
    ensures u.Responded? && u.body.NotJson? ==> r == InternalErrorResponse(u.body.parseError)
    ensures u.Responded? && u.body.Json? && !IsOk(u.status) ==>
      r == Response(500, ErrorBody(UpstreamFailedError, Some(UpstreamDetails(u.body.errorMessage))))
    ensures u.Responded? && u.body.Json? && IsOk(u.status) && u.body.content.NonTextContent? && u.body.content.truthy ==>
      r == InternalErrorResponse(MatchNotAFunction)
    ensures (u.Responded? && u.body.Json? && IsOk(u.status) && !(u.body.content.NonTextContent? && u.body.content.truthy)
             && SvgMatch.Extract(CompletionText(u.body.content)).Some?) ==>
      r == Response(200, ImageBody(DataUrl(SvgMatch.Extract(CompletionText(u.body.content)).value)))
    ensures r.body.ImageBody? ==>
      && u.Responded? && IsOk(u.status) && u.body.Json?
      && !(u.body.content.NonTextContent? && u.body.content.truthy)
      && SvgMatch.Extract(CompletionText(u.body.content)).Some?
      && DecodeDataUrl(r.body.imageUrl) == SvgMatch.Extract(CompletionText(u.body.content))
    ensures (u.Responded? && u.body.Json? && IsOk(u.status) && !(u.body.content.NonTextContent? && u.body.content.truthy)) ==>
      (r == Response(500, ErrorBody(NoSvgError, None)) <==>
        forall a, b :: !SvgMatch.PatternAt(CompletionText(u.body.content), a, b))
  {
    match u
    case FetchFailed(e) => InternalErrorResponse(e)
    case Responded(status, NotJson(e)) => InternalErrorResponse(e)
    case Responded(status, Json(message, content)) =>
      if !IsOk(status) then
        Response(500, ErrorBody(UpstreamFailedError, Some(UpstreamDetails(message))))
      else if content.NonTextContent? && content.truthy then
        InternalErrorResponse(MatchNotAFunction)
      else
        match SvgMatch.Extract(CompletionText(content))
        case None => Response(500, ErrorBody(NoSvgError, None))
        case Some(svg) =>
          DecodeDataUrlOfDataUrl(svg);
          Response(200, ImageBody(DataUrl(svg)))
  }

  /**
    The handler. The prompt is checked first, then the key; only a request
    that passes both reaches the completion API, with the prompt spliced into
    the instruction.
   */
  function Handle(prompt: PromptField, keyConfigured: bool, upstream: Upstream): (r: Outcome)
    ensures r.upstreamCall.Some? <==> IsValidPrompt(prompt) && keyConfigured
    ensures !IsValidPrompt(prompt) ==> r.response == Response(400, ErrorBody(InvalidPromptError, None))
    ensures IsValidPrompt(prompt) && !keyConfigured ==> r.response == Response(500, ErrorBody(MissingKeyError, None))
    ensures r.upstreamCall.Some? ==>
      && r.upstreamCall.value == ChatRequest(prompt.text)
      && r.response == Respond(upstream)
  {
    if !IsValidPrompt(prompt) then
      Outcome(Response(400, ErrorBody(InvalidPromptError, None)), None)
    else if !keyConfigured then
      Outcome(Response(500, ErrorBody(MissingKeyError, None)), None)
    else
      Outcome(Respond(upstream), Some(ChatRequest(prompt.text)))
  }

  /** The request the handler sends carries the fixed system directive, then the prompt's instruction. */
  lemma HandleSendsInstruction(prompt: PromptField, keyConfigured: bool, upstream: Upstream)
    ensures var r := Handle(prompt, keyConfigured, upstream);
      r.upstreamCall.Some? ==> Messages(r.upstreamCall.value) == [SystemDirective, UserInstruction(prompt.text)]
  {
  }

  /** A non-empty whitespace-only prompt is accepted: the server does not trim. */
  lemma WhitespacePromptAccepted(s: string, upstream: Upstream)
    requires s != "" && Text.AllSpace(s)
    ensures Handle(JsonString(s), true, upstream).upstreamCall == Some(ChatRequest(s))
    ensures Handle(JsonString(s), true, upstream).response == Respond(upstream)
  {
  }

  /** Every successful reply carries a data URL that decodes to a fragment of the completion. */
  lemma {:induction false} SuccessDecodesToFragment(prompt: PromptField, keyConfigured: bool, upstream: Upstream)
    requires Handle(prompt, keyConfigured, upstream).response.status == 200
    ensures var url := Handle(prompt, keyConfigured, upstream).response.body.imageUrl;
      && url[..|DataUrlPrefix|] == DataUrlPrefix
      && DecodeDataUrl(url).Some?
      && SvgMatch.PatternAt(DecodeDataUrl(url).value, 0, |DecodeDataUrl(url).value|)
  {
  }
}
