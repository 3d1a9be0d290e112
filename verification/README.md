# Workshop doodle generator — verified model

The system turns a short description of a "trend" into an SVG doodle. A
browser page holds eight tiles; each tile posts a prompt to the server's
`POST /api/generate` endpoint, which wraps the prompt in a fixed drawing
instruction, asks an external chat-completion API for an SVG, cuts the
`<svg>…</svg>` fragment out of the completion with a regular expression and
returns it as a `data:image/svg+xml;base64,` URL. The tile shows the image
and offers download and copy actions; a "generate all" button runs the
tiles one after another.

This project models, as pure Dafny functions over immutable datatypes:

- `Server.Handle` — the whole `/api/generate` handler: prompt validation,
  key check, the instruction template, classification of what the completion
  API did, SVG extraction and data-URL encoding, and the catch-all branch.
  The API key is a boolean input and the completion API is an input value
  (`Server.Upstream`): the fetch throws, or it answers with a status and a
  body that is or is not JSON.
- `SvgMatch` — `/<svg[\s\S]*<\/svg>/i` as index arithmetic: the match
  starts at the first `<svg` in any letter case and ends at the end of the
  last `</svg>` at or after the end of that `<svg`. It is proved equal to
  the leftmost, then longest, span the pattern matches.
- `Utf8` and `Base64` — UTF-8 (RFC 3629, section 3) over Unicode scalar
  values and Base64 (RFC 4648, section 4), each with a strict decoder. Both
  round trips are proved, so the data URL decodes to exactly the extracted
  fragment.
- `Tile` — one tile's state: image URL, status line, error flag, tool
  visibility, button and icon, and what the image container shows. It
  models the generate, download and copy handlers.
- `Page` — page initialisation (eight tiles, `tile-0` … `tile-7`) and the
  sequential "generate all" loop, written as a method whose loop invariants
  carry the proof.
- `EndToEnd` — a tile's request answered by the handler.

## Model

| member | source | states |
|---|---|---|
| Server.Handle | server.js:20-132 | An invalid prompt gets 400 with the fixed message and no upstream call. A valid prompt with no key gets 500 with the key message and no call. Otherwise exactly one call is made, carrying the prompt unchanged, and the reply is the upstream classification. |
| Server.HandleSendsInstruction | server.js:84-91 | The request sent upstream has two messages: the fixed system directive, then the instruction built from the prompt. |
| Server.WhitespacePromptAccepted | server.js:24-28 | Every non-empty whitespace-only prompt passes validation and is sent upstream unchanged, because the server does not trim. |
| Server.UserInstruction | server.js:36-72 | The instruction is the fixed head, then the prompt verbatim, then the fixed tail. |
| Server.UserInstructionInjective | server.js:36-72 | Distinct prompts give distinct instructions. |
| Server.Respond | server.js:98-131 | A thrown fetch or a non-JSON body (ok or not) gives 500 "Internal server error in /api/generate." with the exception's details. A non-ok JSON reply gives 500 "Failed to generate SVG." with the upstream message or the fallback. A non-string truthy completion reaches the catch-all. The reply is "Model did not return a valid SVG." with no details exactly when the pattern matches nowhere in the completion. A 2xx JSON reply whose completion text matches the pattern gets 200 with the data URL of the extracted fragment. A 200 reply is exactly an image body, and its URL decodes to the extracted fragment. |
| Server.UpstreamDetails | server.js:104 | The details are the upstream error message when it is a non-empty string, else "Unknown error from OpenAI.". |
| Server.ErrorDetails | server.js:129 | The details are the exception's message, or its string rendering when the message is empty. |
| Server.CompletionText | server.js:108 | A missing or falsy completion is read as the empty string; a string completion is taken as is. |
| Server.DataUrl | server.js:121-122 | The URL starts with `data:image/svg+xml;base64,`. |
| Server.DecodeDataUrlOfDataUrl | server.js:121-124 | Stripping the prefix, Base64-decoding and UTF-8-decoding the URL gives back the fragment exactly. |
| Server.SuccessDecodesToFragment | server.js:111-124 | Every 200 reply carries the data-URL prefix. Its payload decodes to a text that starts with `<svg` and ends with `</svg>`. |
| SvgMatch.MatchSpan | server.js:111 | The span found is the leftmost-then-longest match of the pattern. There is no span exactly when the pattern matches nowhere. |
| SvgMatch.FirstOpen | server.js:111 | The index found holds `<svg` in any letter case, and no earlier index from the start position does. None means no `<svg` from there on. |
| SvgMatch.LastClose | server.js:111 | The index found holds `</svg>`, and no later index up to the bound does. None means no `</svg>` starts in the range. |
| SvgMatch.Extract | server.js:111-119 | The result is a substring of the completion at a leftmost-greedy match span. It starts with `<svg` and ends with `</svg>`. The result is absent exactly when the pattern matches nowhere. |
| SvgMatch.LeftmostGreedyUnique | server.js:111 | At most one span is the leftmost-greedy match. |
| SvgMatch.ExtractWhole | server.js:111-119 | A text the pattern matches from first to last character extracts to itself. |
| SvgMatch.ExtractIdempotent | server.js:111-119 | Extracting from an extracted fragment returns that fragment. |
| Utf8.EncodeScalar | server.js:121 | A scalar takes 1, 2, 3 or 4 octets according to its range. Only the octets after the first are continuation octets. |
| Utf8.Encode | server.js:121 | A string takes between one and four octets per scalar. |
| Utf8.DecodeEncodeScalar | server.js:121 | The strict decoder reads back the encoded scalar and its length, whatever follows it. |
| Utf8.DecodeEncode | server.js:121 | Decoding the UTF-8 of any string gives the string. |
| Utf8.EncodeDecodeScalar | server.js:121 | The octets the strict decoder consumes for one scalar are exactly that scalar's encoding, so overlong forms are rejected. |
| Utf8.EncodeDecode | server.js:121 | Any octet sequence the decoder accepts is the UTF-8 of what it decodes to: the decoder is strict. |
| Base64.Encode | server.js:121 | The output has 4 characters per started group of 3 octets. |
| Base64.EncodeAlphabet | server.js:121 | Every character of an encoding is in the alphabet, except `=` in the last two positions. |
| Base64.DecodeSextet | server.js:121 | A character decodes exactly when it is in the alphabet, and it decodes to the value the alphabet maps to it. |
| Base64.DecodeQuad | server.js:121 | An accepted group yields 1 to 3 octets, and 3 unless it is the last group. |
| Base64.DecodeEncode | server.js:121 | Decoding the Base64 of any octet sequence gives the sequence. |
| Base64.EncodeDecode | server.js:121 | Any text the decoder accepts is the Base64 of what it decodes to. |
| Base64.DecodeThreeEncoded | server.js:121 | A full group decodes to its three octets. |
| Base64.DecodeTwoEncoded | server.js:121 | A group with one `=` decodes to its two octets. |
| Base64.DecodeOneEncoded | server.js:121 | A group with `==` decodes to its one octet. |
| Base64.EncodingOfDecodeQuad | server.js:121 | An accepted group is the encoding of what it decodes to. |
| Base64.EncodeThreeDecoded | server.js:121 | The three octets a full group decodes to re-encode to that group. |
| Base64.EncodeTwoDecoded | server.js:121 | The two octets a `xxx=` group with zero pad bits decodes to re-encode to that group. |
| Base64.EncodeOneDecoded | server.js:121 | The octet that a `xx==` group with zero pad bits decodes to re-encodes to that group. |
| Base64.DecodeEncodeGroup | server.js:121 | A leading full group decodes to its three octets ahead of the rest. |
| Text.Trim | public/app.js:70-71 | The result is the infix left after removing whitespace at both ends. It neither starts nor ends with whitespace, and it is empty exactly when the field is all whitespace. |
| Text.TrimIdempotent | public/app.js:70-71 | Trimming twice equals trimming once. |
| Text.Splice | public/app.js:79-81 | The result is the head, then the middle text verbatim, then the tail, with the length adding up. |
| Text.SpliceInjective | public/app.js:79-81 | Distinct middle texts in the same template give distinct results. |
| Text.NatToString | public/app.js:10 | The result is non-empty decimal digits with no leading zero. |
| Text.DigitsValueOfNatToString | public/app.js:10 | The digits read back as the number. |
| Text.NatToStringInjective | public/app.js:10 | Distinct numbers render as distinct strings. |
| Tile.ComposePrompt | public/app.js:79-81 | The composed prompt is never empty. It is the trimmed prompt when that is non-empty, otherwise the fixed sentence around the trimmed title. |
| Tile.Begin | public/app.js:83-86 | In flight, the button is disabled, the icon is the hourglass and the status is "Generating image…" with no error flag. The image is untouched. |
| Tile.Settle | public/app.js:88-128 | A reply with a string `imageUrl` installs it, shows it, reveals the tools and says "Done!". A reply failing before line 106 only sets the error status. That covers a network failure, a non-ok status, a body that is not JSON, and a JSON `null` body. A 2xx reply without `imageUrl` also drops the image and empties the container. |
| Tile.Generate | public/app.js:69-133 | With both trimmed fields empty, no request is sent and only the status changes to the guard message, with no error flag. Past the guard, the composed prompt is sent and the button and icon are always restored. Success installs the returned URL, whatever its scheme. Network failures, non-ok replies, non-JSON bodies and `null` bodies keep the previous image. A 2xx reply without `imageUrl` loses it. The index, id and fields never change. |
| Tile.DownloadName | public/app.js:141 | The name ends in `.png`. Before that comes the untrimmed title, or, when the title is empty, `trend-` and digits that read as index + 1. |
| Tile.StartDownload | public/app.js:137-145 | Nothing happens exactly when there is no image (null, undefined or empty). Otherwise the current URL is downloaded under the derived name. |
| Tile.CopyUrl | public/app.js:147-157 | Without an image or a clipboard nothing changes. Otherwise a successful write puts the image URL on the clipboard and says "Image URL copied!" with no error flag. A failed write says "Could not copy URL." with the flag set. The image is never touched. |
| Page.TileId | public/app.js:10 | The id is `tile-` followed by digits that read as the index. |
| Page.TileIdsDistinct | public/app.js:10 | Distinct indexes give distinct ids. |
| Page.CreateTiles | public/app.js:159-167 | Creation yields n tiles, tile i being the fresh tile for index i. |
| Page.Init | public/app.js:164-167 | The page starts with 8 tiles in index order, with ids from the index, no image, hidden tools, enabled buttons and the placeholder. |
| Page.BatchStep | public/app.js:174-176 | One more awaited tile keeps the batch invariant: earlier tiles generated with their own replies, later ones untouched, and the prompts sent so far in tile order. |
| Page.GenerateNext | public/app.js:174-176 | Awaiting one more tile moves the batch invariant from i tiles to i + 1. |
| Page.GenerateAll | public/app.js:170-180 | Every tile ends exactly as generating it alone with its own reply would leave it, so a failing tile never stops or changes the later ones. The prompts posted are the unblank tiles' composed prompts, in tile order. Afterwards the status says finished and the button is enabled. |
| EndToEnd.Deliver | public/app.js:89-104 | Every handler reply reaches the tile as JSON with the same status. It carries `imageUrl` exactly when it is an image reply. |
| EndToEnd.ComposedPromptIsValid | public/app.js:79-94 | A tile never posts a prompt the handler rejects. |
| EndToEnd.ServedImageReachesTile | public/app.js:104-124 | When the handler answers 200, the tile holds the image URL, its container shows that image, the tools are visible, and the status says "Done!" with no error flag. Its URL decodes to the fragment extracted from the completion. |
| EndToEnd.MatchingCompletionReachesTile | server.js:106-124 | With the key configured, a 2xx completion whose text contains the pattern ends with the tile showing the data URL of the extracted fragment and saying "Done!". |
| EndToEnd.ServerErrorKeepsImage | public/app.js:97-102 | Every error the handler reports leaves the tile's previous image and container in place and sets the error status. |

## Left out

- Express setup, static file serving, `listen` and environment loading (server.js:1-18, 134-136). The API key appears only as the `keyConfigured` input.
- The completion API request beyond its two messages: the URL, headers, model name, `max_tokens` and temperature (server.js:74-96). `Server.Upstream` stands for whatever the call did.
- A request body that is not a JSON object: `Server.PromptField` models only the `prompt` member.
- A non-string `error.message` in the upstream body, and a non-string `imageUrl` in the reply a tile receives. Both are modelled as strings or absent.
- Lone UTF-16 surrogates, which Node's `Buffer` replaces with U+FFFD. Strings here are sequences of Unicode scalar values.
- SVG well-formedness. The code does only a textual match, so no XML parsing is modelled.
- DOM construction, `innerHTML`, the `img` element and its `alt` text, the anchor-click mechanics and the clipboard API (public/app.js:11-65, 109-121, 139-144, 150). They become the `Tile.Tile` fields, `Tile.Download` and the two booleans of `Tile.CopyUrl`.
- The client-side error text built from an error body (public/app.js:98-101). The `catch` discards it, so it leaves no trace in the state.
- Console logging, and async scheduling. The batch is a sequential loop in which each tile's generation completes before the next starts.
- `Server.MatchNotAFunction`: the `TypeError` text for a non-string completion is V8's wording, not something the repository states.

## Behaviour worth knowing

- The SVG match is textual and greedy. It runs from the first `<svg` to the last `</svg>` after it, so a completion with two fragments yields both, and whatever lies between them, in one data URL. No XML is checked.
- A 2xx reply without `imageUrl` clears the tile's image variable and its container before `startsWith` throws. The previous image is then lost, although the status says only that generation failed (see `Tile.Generate`).
- The handler's non-ok reply carries the upstream error message, or the fallback text, but not the upstream status. An upstream error body that is not JSON ends in the catch-all branch instead.
