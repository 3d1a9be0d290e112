/**
  One tile of the page (`createTile` in the browser script): its input fields,
  the image it currently holds, its status line and its buttons, and the
  three actions on it: generate, download and copy.
 */
module Tile {
  import opened Wrappers
  import opened Http
  import opened Text

  /** The glyph on the generate button: idle or in flight. */
  datatype Icon = Sparkles | Hourglass

  /** What the image container shows. */
  datatype Display =
    | Placeholder            // the initial hint text
    | Cleared                // emptied, no image appended
    | ShowsImage(src: string)

  /**
    The state of one tile. `title` and `prompt` are the raw field values;
    `imageUrl` is the closure variable (None for `null`/`undefined`).
   */
  datatype Tile = Tile(
    index: nat,
    id: string,
    title: string,
    prompt: string,
    imageUrl: Option<string>,
    status: string,
    statusIsError: bool,
    toolsVisible: bool,
    buttonDisabled: bool,
    icon: Icon,
    display: Display)

  /** The body of the reply to `POST /api/generate` as `response.json()` sees it. */
  datatype ReplyBody =
    | NotJson
    | JsonNull                         // `null`: reading `data.imageUrl` throws
    | Json(imageUrl: Option<string>)   // the `imageUrl` member, if any

  /** What `fetch("/api/generate", …)` produced. */
  datatype Reply =
    | NetworkFailure
    | HttpReply(status: int, body: ReplyBody)

  /** The result of a generate click: the new tile and the prompt posted, if a request was made. */
  datatype Generation = Generation(tile: Tile, request: Option<string>)

  /** A download the anchor click starts: the link target and the file name. */
  datatype Download = Download(href: string, filename: string)

  /** The result of a copy click: the new tile and the text placed on the clipboard, if any. */
  datatype Copy = Copy(tile: Tile, clipboard: Option<string>)

  const GuardStatus := "Add at least a title or a prompt first."
  const GeneratingStatus := "Generating image\U{2026}"
  const DoneStatus := "Done! Drag/download this into Miro."
  const ErrorStatus := "Error generating image. Try again."
  const CopiedStatus := "Image URL copied!"
  const CopyFailedStatus := "Could not copy URL."
  const TitlePromptHead := "A visual metaphor for the 2025 trend: "
  const TitlePromptTail := ". Stylized, clean, workshop-friendly illustration."

  /** JavaScript truthiness of the `imageUrl` variable: a non-empty string. */
  predicate HasImage(imageUrl: Option<string>) {
    imageUrl.Some? && imageUrl.value != ""
  }

  /** The click guard: both trimmed fields are empty. */
  predicate IsBlank(t: Tile) {
    Trim(t.title) == [] && Trim(t.prompt) == []
  }

  /**
    The prompt sent for a tile: the trimmed prompt when there is one, otherwise
    a sentence built around the trimmed title. Never empty.
   */
  function ComposePrompt(title: string, prompt: string): (r: string)
    ensures r != []
    ensures Trim(prompt) != [] ==> r == Trim(prompt)
    ensures Trim(prompt) == [] ==>
      && |r| == |TitlePromptHead| + |Trim(title)| + |TitlePromptTail|
      && r[..|TitlePromptHead|] == TitlePromptHead
      && r[|TitlePromptHead|..|r| - |TitlePromptTail|] == Trim(title)
      && r[|r| - |TitlePromptTail|..] == TitlePromptTail
  {
    var p := Trim(prompt);
    if p != [] then p else Splice(TitlePromptHead, Trim(title), TitlePromptTail)
  }

  /** The in-flight state entered before the request: button disabled, hourglass, "Generating image…". */
  function Begin(t: Tile): (r: Tile)
    ensures r.buttonDisabled && r.icon == Hourglass && !r.statusIsError && r.status == GeneratingStatus
    ensures r.imageUrl == t.imageUrl && r.display == t.display && r.toolsVisible == t.toolsVisible
  {
    t.(buttonDisabled := true, icon := Hourglass, status := GeneratingStatus, statusIsError := false)
  }

  /** The `try`/`catch` part: what the reply does to the in-flight tile. */
  function Settle(t: Tile, reply: Reply): (r: Tile)
    ensures r.index == t.index && r.id == t.id && r.title == t.title && r.prompt == t.prompt
    ensures r.buttonDisabled == t.buttonDisabled && r.icon == t.icon
    ensures Delivers(reply) ==>
      r == t.(imageUrl := reply.body.imageUrl, display := ShowsImage(reply.body.imageUrl.value),
              toolsVisible := true, status := DoneStatus)
    ensures FailsEarly(reply) ==> r == t.(status := ErrorStatus, statusIsError := true)
    ensures !Delivers(reply) && !FailsEarly(reply) ==>
      r == t.(imageUrl := None, display := Cleared, status := ErrorStatus, statusIsError := true)
  {
    match reply
    case NetworkFailure => Fail(t)
    case HttpReply(status, body) =>
      if !IsOk(status) then Fail(t)
      else
        match body
        case NotJson => Fail(t)
        case JsonNull => Fail(t)
        // `imageUrl = data.imageUrl` and the container is cleared before `undefined.startsWith` throws
        case Json(None) => Fail(t.(imageUrl := None, display := Cleared))
        case Json(Some(url)) =>
          t.(imageUrl := Some(url), display := ShowsImage(url), toolsVisible := true, status := DoneStatus)
  }

  /** The `catch` block. */
  function Fail(t: Tile): Tile {
    t.(status := ErrorStatus, statusIsError := true)
  }

  /** The `finally` block: the button is re-enabled and its icon restored. */
  function Finish(t: Tile): Tile {
    t.(buttonDisabled := false, icon := Sparkles)
  }

  /** A reply that reaches `imageUrl = data.imageUrl` with a string there. */
  predicate Delivers(reply: Reply) {
    reply.HttpReply? && IsOk(reply.status) && reply.body.Json? && reply.body.imageUrl.Some?
  }

  /** A reply that fails before `imageUrl` is assigned. */
  predicate FailsEarly(reply: Reply) {
    reply.NetworkFailure? || !IsOk(reply.status) || reply.body.NotJson? || reply.body.JsonNull?
  }

  /** `generateImage`: guard, compose, request, settle, restore. */
  function Generate(t: Tile, reply: Reply): (g: Generation)
    // the tile's identity and fields are never touched
    ensures g.tile.index == t.index && g.tile.id == t.id
    ensures g.tile.title == t.title && g.tile.prompt == t.prompt
    // the guard: no request, only the status line changes
    ensures IsBlank(t) ==> g.request.None? && g.tile == t.(status := GuardStatus, statusIsError := false)
    // past the guard: the composed prompt is posted and the button is restored whatever happens
    ensures !IsBlank(t) ==>
      && g.request == Some(ComposePrompt(t.title, t.prompt))
      && !g.tile.buttonDisabled && g.tile.icon == Sparkles
    // success
    ensures !IsBlank(t) && Delivers(reply) ==>
      && g.tile.imageUrl == reply.body.imageUrl
      && g.tile.display == ShowsImage(reply.body.imageUrl.value)
      && g.tile.toolsVisible && g.tile.status == DoneStatus && !g.tile.statusIsError
    // failure before the assignment: the previous image stays
    ensures !IsBlank(t) && FailsEarly(reply) ==>
      && g.tile.imageUrl == t.imageUrl && g.tile.display == t.display
      && g.tile.toolsVisible == t.toolsVisible
      && g.tile.status == ErrorStatus && g.tile.statusIsError
    // a 2xx reply without `imageUrl`: the previous image is lost
    ensures !IsBlank(t) && !Delivers(reply) && !FailsEarly(reply) ==>
      && g.tile.imageUrl.None? && g.tile.display == Cleared
      && g.tile.toolsVisible == t.toolsVisible
      && g.tile.status == ErrorStatus && g.tile.statusIsError
  {
    if IsBlank(t) then
      Generation(t.(status := GuardStatus, statusIsError := false), None)
    else
      var settled := Settle(Begin(t), reply);
      Generation(Finish(settled), Some(ComposePrompt(t.title, t.prompt)))
  }

  /** The file name a download uses: the raw title, or `trend-<n>` numbering from 1, plus `.png`. */
  function DownloadName(t: Tile): (name: string)
    ensures |name| >= 4 && name[|name| - 4..] == ".png"
    ensures t.title != "" ==> name[..|name| - 4] == t.title
    ensures t.title == "" ==>
      && |name| > 10 && name[..6] == "trend-"
      && (forall i :: 6 <= i < |name| - 4 ==> '0' <= name[i] <= '9')
      && DigitsValue(name[6..|name| - 4]) == t.index + 1
  {
    if t.title != "" then Splice(t.title, "", ".png")
    else
      var name := Splice("trend-", NatToString(t.index + 1), ".png");
      DigitsValueOfNatToString(t.index + 1);
      name
  }

  /** The download button: nothing without an image, else a download of the image URL. */
  function StartDownload(t: Tile): (r: Option<Download>)
    ensures r.None? <==> !HasImage(t.imageUrl)
    ensures r.Some? ==> r.value.href == t.imageUrl.value && r.value.filename == DownloadName(t)
  {
    if !HasImage(t.imageUrl) then None else Some(Download(t.imageUrl.value, DownloadName(t)))
  }

  /**
    The copy button. `clipboardAvailable` is `navigator.clipboard` being
    present; `writeSucceeds` is whether `writeText` resolves.
   */
  function CopyUrl(t: Tile, clipboardAvailable: bool, writeSucceeds: bool): (r: Copy)
    ensures r.tile.imageUrl == t.imageUrl && r.tile.display == t.display
    ensures !HasImage(t.imageUrl) || !clipboardAvailable ==> r == Copy(t, None)
    ensures HasImage(t.imageUrl) && clipboardAvailable ==>
      && r.tile == t.(status := if writeSucceeds then CopiedStatus else CopyFailedStatus,
                      statusIsError := !writeSucceeds)
      && (r.clipboard.Some? <==> writeSucceeds)
      && (writeSucceeds ==> r.clipboard == t.imageUrl)
  {
    if !HasImage(t.imageUrl) || !clipboardAvailable then Copy(t, None)
    else if writeSucceeds then Copy(t.(status := CopiedStatus, statusIsError := false), t.imageUrl)
    else Copy(t.(status := CopyFailedStatus, statusIsError := true), None)
  }
}
