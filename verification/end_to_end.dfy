/**
  The browser tile talking to the server handler: what a tile's request does
  to the tile once the handler has answered it.
 */
module EndToEnd {
  import opened Wrappers
  import Server
  import SvgMatch
  import opened Tile

  /** The handler's response as the tile's `fetch` sees it: every body the handler sends is JSON. */
  function Deliver(r: Server.Response): (reply: Reply)
    ensures reply.HttpReply? && reply.status == r.status && reply.body.Json?
    ensures reply.body.imageUrl.Some? <==> r.body.ImageBody?
  {
    HttpReply(r.status, Json(if r.body.ImageBody? then Some(r.body.imageUrl) else None))
  }

  /** What generating tile `t` ends in when the handler answers its request. */
  function Roundtrip(t: Tile, keyConfigured: bool, upstream: Server.Upstream): Generation
    requires !IsBlank(t)
  {
    var prompt := ComposePrompt(t.title, t.prompt);
    Generate(t, Deliver(Server.Handle(Server.JsonString(prompt), keyConfigured, upstream).response))
  }

  /** The tile never sends a prompt the handler rejects with 400. */
  lemma ComposedPromptIsValid(title: string, prompt: string)
    ensures Server.IsValidPrompt(Server.JsonString(ComposePrompt(title, prompt)))
  {
  }

  /**
    A served image lands in the tile, and its data URL decodes to the SVG
    fragment extracted from the completion.
   */
  lemma {:induction false} ServedImageReachesTile(t: Tile, keyConfigured: bool, upstream: Server.Upstream)
    requires !IsBlank(t)
    requires Server.Handle(Server.JsonString(ComposePrompt(t.title, t.prompt)), keyConfigured, upstream).response.status == 200
    ensures var g := Roundtrip(t, keyConfigured, upstream);
      && g.tile.imageUrl.Some? && g.tile.display == ShowsImage(g.tile.imageUrl.value)
      && g.tile.toolsVisible && g.tile.status == DoneStatus && !g.tile.statusIsError
      && Server.DecodeDataUrl(g.tile.imageUrl.value) == SvgMatch.Extract(Server.CompletionText(upstream.body.content))
  {
    ComposedPromptIsValid(t.title, t.prompt);
  }

  /**
    With the key configured, a 2xx completion whose text contains the pattern
    installs the data URL of the extracted fragment in the tile.
   */
  lemma {:induction false} MatchingCompletionReachesTile(t: Tile, status: int, message: Option<string>, text: string)
    requires !IsBlank(t) && 200 <= status <= 299 && SvgMatch.Extract(text).Some?
    ensures var g := Roundtrip(t, true, Server.Responded(status, Server.Json(message, Server.TextContent(text))));
      && g.tile.imageUrl == Some(Server.DataUrl(SvgMatch.Extract(text).value))
      && g.tile.display == ShowsImage(Server.DataUrl(SvgMatch.Extract(text).value))
      && g.tile.toolsVisible && g.tile.status == DoneStatus && !g.tile.statusIsError
  {
    ComposedPromptIsValid(t.title, t.prompt);
  }

  /** Every error the handler reports leaves the tile's previous image in place. */
  lemma {:induction false} ServerErrorKeepsImage(t: Tile, keyConfigured: bool, upstream: Server.Upstream)
    requires !IsBlank(t)
    requires Server.Handle(Server.JsonString(ComposePrompt(t.title, t.prompt)), keyConfigured, upstream).response.status != 200
    ensures var g := Roundtrip(t, keyConfigured, upstream);
      && g.tile.imageUrl == t.imageUrl && g.tile.display == t.display
      && g.tile.status == ErrorStatus && g.tile.statusIsError
  {
    ComposedPromptIsValid(t.title, t.prompt);
  }
}
