/**
  The page: the fixed, ordered list of tiles created at load time and the
  "generate all" button that runs every tile's generation one after another.
 */
module Page {
  import opened Wrappers
  import opened Text
  import opened Tile

  const TileCount := 8
  const BatchFinishedStatus := "Finished generating all tiles."

  datatype Page = Page(tiles: seq<Tile>, globalStatus: string, generateAllDisabled: bool)

  /** The DOM id of the tile at `index`. */
  function TileId(index: nat): (id: string)
    ensures |id| > 5 && id[..5] == "tile-"
    ensures forall k :: 5 <= k < |id| ==> '0' <= id[k] <= '9'
    ensures DigitsValue(id[5..]) == index
  {
    var id := "tile-" + NatToString(index);
    assert id[5..] == NatToString(index);
    DigitsValueOfNatToString(index);
    id
  }

  /** A freshly created tile: empty fields, no image, idle button, tools hidden. */
  function NewTile(index: nat): Tile {
    Tile(index, TileId(index), "", "", None, "", false, false, false, Sparkles, Placeholder)
  }

  /** The tiles `createTile(0)` … `createTile(n - 1)`, in creation order. */
  function CreateTiles(n: nat): (ts: seq<Tile>)
    ensures |ts| == n
    ensures forall i :: 0 <= i < n ==> ts[i] == NewTile(i)
  {
    if n == 0 then [] else CreateTiles(n - 1) + [NewTile(n - 1)]
  }

  /** The page as loaded: eight fresh tiles numbered from 0, idle batch button. */
  function Init(): (p: Page)
    ensures |p.tiles| == TileCount
    ensures forall i :: 0 <= i < TileCount ==>
      && p.tiles[i].index == i && p.tiles[i].id == TileId(i)
      && p.tiles[i].imageUrl.None? && !p.tiles[i].toolsVisible && !p.tiles[i].buttonDisabled
      && p.tiles[i].display == Placeholder
    ensures !p.generateAllDisabled
  {
    Page(CreateTiles(TileCount), "", false)
  }

  /** Tile ids are distinct. */
  lemma TileIdsDistinct(i: nat, j: nat)
    requires i != j
    ensures TileId(i) != TileId(j)
  {
  }

  /** What one tile posts when generated: nothing if blank, else its composed prompt. */
  function Posted(t: Tile): seq<string> {
    if IsBlank(t) then [] else [ComposePrompt(t.title, t.prompt)]
  }

  /** The request a generation made, as a list of zero or one prompts. */
  function Sent(g: Generation): seq<string> {
    if g.request.Some? then [g.request.value] else []
  }

  /** What `Generate` posts is what `Posted` says. */
  lemma PostedByGenerate(t: Tile, reply: Reply)
    ensures Posted(t) == Sent(Generate(t, reply))
  {
  }

  /** The prompts the first `n` tiles would post, in tile order. */
  function Requests(ts: seq<Tile>, n: nat): seq<string>
    requires n <= |ts|
  {
    if n == 0 then [] else Requests(ts, n - 1) + Posted(ts[n - 1])
  }

  /**
    After `i` steps of the batch: tiles before `i` are generated with their
    own replies, the rest are untouched, and `sent` holds their prompts.
   */
  ghost predicate BatchProgress(p: Page, replies: seq<Reply>, tiles: seq<Tile>, sent: seq<string>, i: nat)
    requires |replies| == |p.tiles|
  {
    && i <= |tiles| == |p.tiles|
    && (forall k {:trigger Generate(p.tiles[k], replies[k])} :: 0 <= k < i ==> tiles[k] == Generate(p.tiles[k], replies[k]).tile)
    && (forall k :: i <= k < |tiles| ==> tiles[k] == p.tiles[k])
    && sent == Requests(p.tiles, i)
  }

  /** One step of the batch keeps `BatchProgress`. */
  lemma {:induction false} BatchStep(p: Page, replies: seq<Reply>, tiles: seq<Tile>, sent: seq<string>, i: nat)
    requires |replies| == |p.tiles|
    requires BatchProgress(p, replies, tiles, sent, i) && i < |tiles|
    ensures var g := Generate(tiles[i], replies[i]);
      BatchProgress(p, replies, tiles[i := g.tile], sent + Sent(g), i + 1)
  {
    PostedByGenerate(tiles[i], replies[i]);
  }

  /** Before the first step, nothing is generated and nothing is sent. */
  lemma BatchStart(p: Page, replies: seq<Reply>)
    requires |replies| == |p.tiles|
    ensures BatchProgress(p, replies, p.tiles, [], 0)
  {
  }

  /** After the last step, every tile is generated and every prompt is sent. */
  lemma BatchDone(p: Page, replies: seq<Reply>, tiles: seq<Tile>, sent: seq<string>, i: nat)
    requires |replies| == |p.tiles|
    requires BatchProgress(p, replies, tiles, sent, i) && i >= |tiles|
    ensures |tiles| == |p.tiles|
    ensures forall k :: 0 <= k < |p.tiles| ==> tiles[k] == Generate(p.tiles[k], replies[k]).tile
    ensures sent == Requests(p.tiles, |p.tiles|)
  {
  }

  /** One iteration of the batch: `await tile.generateImage()` for tile `i`. */
  method GenerateNext(p: Page, replies: seq<Reply>, tiles: seq<Tile>, sent: seq<string>, i: nat)
    returns (tiles': seq<Tile>, sent': seq<string>)
    requires |replies| == |p.tiles|
    requires BatchProgress(p, replies, tiles, sent, i) && i < |tiles|
    ensures BatchProgress(p, replies, tiles', sent', i + 1)
  {
    var g := Generate(tiles[i], replies[i]);
    BatchStep(p, replies, tiles, sent, i);
    tiles', sent' := tiles[i := g.tile], sent + Sent(g);
  }

  /**
    The "generate all" click: each tile in order is generated to completion
    before the next starts, with `replies[i]` the reply tile `i`'s request gets.
    A failing tile does not stop the rest, since `generateImage` catches its
    own errors.
   */
  method GenerateAll(p: Page, replies: seq<Reply>) returns (q: Page, sent: seq<string>)
    requires |replies| == |p.tiles|
    ensures |q.tiles| == |p.tiles|
    ensures forall i :: 0 <= i < |p.tiles| ==> q.tiles[i] == Generate(p.tiles[i], replies[i]).tile
    ensures sent == Requests(p.tiles, |p.tiles|)
    ensures q.globalStatus == BatchFinishedStatus && !q.generateAllDisabled
  {
    var tiles := p.tiles;
    sent := [];
    var i := 0;
    BatchStart(p, replies);
    while i < |tiles|
      invariant BatchProgress(p, replies, tiles, sent, i)
      decreases |p.tiles| - i
    {
      tiles, sent := GenerateNext(p, replies, tiles, sent, i);
      i := i + 1;
    }
    BatchDone(p, replies, tiles, sent, i);
    q := Page(tiles, BatchFinishedStatus, false);
  }
}
