# Vintage greeting card: generation clients and email handlers

This project models the logic of a small web app. The app turns a photo into a
vintage-style greeting card and emails it. It has four parts:

- **Seedream client** (`generateSeedreamPoster`). It refuses to run without a model
  endpoint id, and picks an output size from the input's aspect ratio (`getBestResolution`).
  It turns the service's JSON reply into either a displayable image reference or an error.
- **Gemini client** (`generateRetroPoster`, `fileToGenerativePart`). It takes the base64
  payload from the file's data URL, and picks an inline image from the model's answer.
  Without an image it raises an error: the first non-empty text quoted, or a fixed message.
- **Standalone server route** `POST /api/send-email`. It validates the five JSON fields and
  fills the HTML template:
  - the two name tokens are replaced globally;
  - the image block and the message block are replaced lazily.
  It turns a `data:image…` card into a `card.png` attachment referenced by `cid:card-image`,
  hands the email to the delivery provider, and maps the provider's answer to an HTTP reply.
- **Serverless handler** `api/send-email`. It does the same after setting CORS headers,
  answering `OPTIONS`, refusing other methods and checking that the API key is configured.

The modules follow that structure:

| module | contents |
|---|---|
| `JsValues` | `Option`, `Result`, and JavaScript truthiness of an optional string |
| `Decimal` | decimal rendering of naturals and its inverse |
| `Text` | substring search, `split`/`join`, `pop()` of a split, global literal replace |
| `LazyBlock` | the non-global `START[\s\S]*?END` replace, with a leftmost-shortest reference definition |
| `Resolution` | the five output sizes and the aspect-ratio bands |
| `Seedream` | the Seedream client |
| `Gemini` | the Gemini client |
| `EmailRender` | image preparation, message line breaks, template rendering |
| `EmailDispatch` | request fields, the outgoing email, the provider's outcome and HTTP replies |
| `StandaloneServer` | the Express route |
| `ServerlessHandler` | the serverless handler |
| `HandlerParity` | the two handlers compared |

Each JavaScript regular expression is modelled by the behaviour it has on these patterns:

| source | model |
|---|---|
| `/\[Recipient Name\]/g` (a global literal replace) | `Text.ReplaceAll`, left to right and non-overlapping. It is proved equal to `split`/`join`. |
| `/<!-- X_START -->[\s\S]*?<!-- X_END -->/` | `LazyBlock.FindBlock`. It is proved to find the leftmost start with the shortest block. |
| `split(';base64,').pop()` | `Text.AfterLast` |
| `split(',')[1]` | `Gemini.SecondPiece` |

Values from outside are parameters:
- the HTTP reply of the Seedream service (or the network failure of `fetch`);
- the Gemini SDK's answer (or its thrown error);
- the file read as a data URL, and its pixel width and height (or the read failure);
- the `RESEND_API_KEY` setting;
- the template text (or the error from reading it);
- the provider's outcome (a reply, or a thrown error).

A handler returns its status, its JSON body and the email it handed to the provider, if any.

Four behaviours of the code are worth stating plainly:
- **Sizes.** `getBestResolution` has five sizes.
- **Markers.** The replacement fragments re-emit their `<!-- …_START -->`/`<!-- …_END -->` markers
  (`EmailRender.FragmentsKeepMarkers`).
- **Success body.** On success the standalone route answers `{ success: true, data }`. The
  serverless handler answers with the provider's reply as is (`HandlerParity.SameOutcome`).
- **No-image error.** A successful Seedream reply without a usable image gets the fixed
  message "No image data received from Seedream API".

## Model

| member | source | states |
|---|---|---|
| Decimal.ParseNatToString | src/lib/seedream.ts:96 | The status number printed into the error message reads back as the same number. |
| Text.JoinSplit | server/index.js:48 | Joining the pieces of a `split` with the separator gives the original string back. |
| Text.SplitCount | src/lib/gemini.ts:82 | `split` yields at least two pieces exactly when the separator occurs. |
| Text.AfterLastShape | server/index.js:48 | `split(sep).pop()` has no `sep` in it. If `sep` does not occur it is the whole string; otherwise the string ends with `sep` followed by it. |
| Text.ReplaceAllIsSplitJoin | server/index.js:58-60 | The global literal replace equals the `split`/`join` formulation that the source's own comment names. |
| Text.ReplaceAllAbsent | server/index.js:59-60 | A template without the token is left unchanged by the global replace. |
| Text.ReplaceWhole | server/index.js:59-60 | A string that is exactly the token becomes exactly the replacement. |
| Text.ReplaceCharIsMap | server/index.js:80 | Replacing every newline globally is the same as mapping each newline character to the replacement. |
| LazyBlock.FindBlockIsLazyMatch | server/index.js:64 | The block search finds the leftmost START whose block is shortest, as `[\s\S]*?` does. If it finds nothing, no START…END block exists. |
| LazyBlock.ReplacesLazyMatch | server/index.js:72 | The first lazy match `s[i..k]` is replaced by the fragment, so the result is `s[..i] + frag + s[k..]`. A string without a block is unchanged. |
| LazyBlock.LazyMatchUnique | server/index.js:64 | A regular-expression match of the block pattern is unique: two leftmost-shortest matches coincide. |
| LazyBlock.ReplaceLaidOut | server/index.js:64-72 | With no earlier START and no END inside the block, `x START b END y` becomes `x frag y`. |
| Resolution.BestResolution | src/lib/seedream.ts:148-163 | The result is always one of the five size strings. |
| Resolution.BandsByRatio | src/lib/seedream.ts:149-162 | For a positive height, the chosen size is determined by the bands of the real ratio w/h: above 1.5 gives 16:9; (1.2, 1.5] gives 4:3; below 0.6 gives 9:16; [0.6, 0.8) gives 3:4; [0.8, 1.2] gives square. |
| Resolution.ZeroHeight | src/lib/seedream.ts:149-162 | A zero height follows JavaScript division. A positive width gives Infinity and so 16:9; 0/0 gives NaN and so square. |
| Resolution.ScaleInvariant | src/lib/seedream.ts:149 | Only the ratio matters: scaling both dimensions by the same factor keeps the size. |
| Resolution.KeepsOrientation | src/lib/seedream.ts:153-162 | A wide size is chosen only for an image wider than it is tall, and a tall size only for one taller than it is wide. |
| Resolution.EnoughPixels | src/lib/seedream.ts:151 | Every size has at least 3,686,400 pixels. |
| Resolution.TextSpellsDimensions | src/lib/seedream.ts:154-162 | Each size string spells its width, "x", and its height in decimal. |
| Resolution.Examples | src/lib/seedream.ts:154-162 | 1600x900 and 3200x1800 give "2560x1440"; 1000x1000 gives "2048x2048". |
| Seedream.PickImage | src/lib/seedream.ts:103-112 | The first data object's truthy `b64_json` becomes a PNG data URL. Otherwise its truthy `url` is used. Otherwise, and for missing or empty data, the "no image" error results. |
| Seedream.StatusError | src/lib/seedream.ts:93-97 | A failed call reports the upstream `error.message` when it is truthy. Otherwise the message is the fixed prefix followed by the status in decimal: the digits read back as that status and have no leading zero. |
| Seedream.StatusErrorNamesStatus | src/lib/seedream.ts:96 | Without an upstream message, failed calls with different statuses report different errors. |
| Seedream.Interpret | src/lib/seedream.ts:93-112 | The result is an image exactly when the call succeeded and the first data object has a truthy `b64_json` or `url`. The image is the PNG data URL of `b64_json` when that is truthy, else the `url`. A failed call gives the status error; a successful call without a usable image gives the fixed no-image message. |
| Seedream.Generate | src/lib/seedream.ts:8-117 | A falsy model gives the missing-endpoint error before the file is read. A failed file read or measurement is rethrown with no request sent. Otherwise the payload carries the model, the data URL, the best size, base64 encoding and no watermark. A network failure of `fetch` is rethrown; a reply is interpreted as `Interpret` states. |
| Seedream.OnlyFirstObjectMatters | src/lib/seedream.ts:103-104 | Elements after the first in `data` never change the outcome. |
| Seedream.InlineWinsOverUrl | src/lib/seedream.ts:105-109 | When both `b64_json` and `url` are present, the inline image is returned. |
| Seedream.DataUrlRoundTrip | src/lib/seedream.ts:106 | Splitting the returned PNG data URL at its last ";base64," gives the payload back, provided the payload has no ";base64," in it. |
| Gemini.FirstIndex | src/lib/gemini.ts:56 | The index of the element `find` returns is the first one that satisfies the predicate. When there is none, no element satisfies it. |
| Gemini.PartsOf | src/lib/gemini.ts:49 | The optional chain is undefined exactly when `candidates` is missing or empty, or the first candidate has no `content`, or that content has no `parts`. Otherwise it is the first candidate's parts. |
| Gemini.InterpretParts | src/lib/gemini.ts:49-70 | The outcomes are: missing parts give "No content generated."; the first inline-data part gives its data URL; with no image, the first truthy text becomes the error; with neither, "No image generated.". Success happens exactly when some part has inline data. |
| Gemini.ImageBeatsEarlierText | src/lib/gemini.ts:56-67 | An image part anywhere wins over text parts, including text parts that come before it. |
| Gemini.EmptyPartsList | src/lib/gemini.ts:51-70 | An empty parts array is not falsy, so it gets "No image generated.". |
| Gemini.ToImagePart | src/lib/gemini.ts:78-93 | The MIME type is the file's type. The data is undefined exactly when the data URL has no comma. For a data URL of the form header "," payload with no other comma, the data sent is exactly the payload. |
| Gemini.PayloadAfterComma | src/lib/gemini.ts:82 | For a data URL of the form header "," payload with no other comma, the payload is exactly what is sent. |
| Gemini.GenerateRetro | src/lib/gemini.ts:21-93 | A failed file read is rethrown with nothing sent. Otherwise the image part has the file's type, and its data is `split(',')[1]` of the data URL, undefined exactly when the data URL has no comma. An SDK error is rethrown. For an answer, the result is what `InterpretParts` gives for the first candidate's parts: the first inline image's data URL, or the "Model returned text: …", "No content generated." or "No image generated." error. "No content generated." is reported exactly when the first candidate has no parts, and success happens exactly when one of its parts has inline data. |
| Gemini.NoContentOnlyWithoutParts | src/lib/gemini.ts:51-70 | "No content generated." arises only from a missing parts list; the text and no-image errors never coincide with it. |
| EmailRender.PrepareImage | server/index.js:41-55 | Only a source starting with "data:image" yields an attachment, and at most one. That attachment is `card.png` with id `card-image` and holds the text after the last ";base64,". It is then referenced as `cid:card-image`. Any other source is used unchanged. |
| EmailRender.MessageHtml | server/index.js:80 | Each newline becomes `<br/>`, no newline is left, and a one-line message is unchanged. |
| EmailRender.NamesReplacedInOrder | server/index.js:59-60 | The recipient token is replaced before the sender token, so a recipient name that reads "[Sender Name]" ends up as the sender's name. |
| EmailRender.Render | server/index.js:38-85 | The rendered email carries the attachments that image preparation produced. |
| EmailRender.FragmentsKeepMarkers | server/index.js:65-84 | Each replacement fragment is itself a START…END block, so the markers survive rendering. |
| EmailRender.ImageFragmentEmbedsSource | server/index.js:68 | The image fragment contains `src="…"` with the prepared source. |
| EmailRender.RenderLaidOut | server/index.js:57-85 | For a template laid out as `a IMAGE_START b IMAGE_END c MESSAGE_START d MESSAGE_END e` after name substitution, rendering gives `a` + image fragment + `c` + message fragment + `e`. |
| EmailRender.RenderWithoutBlocks | server/index.js:57-85 | A template without start markers only has its name tokens replaced. |
| EmailRender.GeneratedImageAttachment | server/index.js:47-54 | An image returned by the Seedream client is attached as `card.png` holding exactly its base64 payload. |
| EmailRender.TwoLines | server/index.js:80 | One newline between two single-line texts becomes one `<br/>`. |
| EmailRender.ExampleMessage | server/index.js:80 | "Hi\nThere" becomes "Hi<br/>There". |
| EmailRender.ExampleImage | server/index.js:47-54 | "data:image/png;base64,AAAA" becomes one `card.png` attachment "AAAA" referenced by `cid:card-image`. |
| EmailDispatch.Compose | server/index.js:88-94 | The email goes from the fixed sender to `[toEmail]`, with subject "A Vintage Greeting Card from " + fromName, the rendered html and the attachments. |
| EmailDispatch.Deliver | server/index.js:96-106 | Once handed over: 200 exactly when the provider replied without error; otherwise 500 with the provider's or the thrown error's message. |
| StandaloneServer.HandleSendEmail | server/index.js:30-107 | Missing fields give exactly the 400s, with nothing sent. A template read error gives 500. The email is sent exactly for valid fields and a readable template. Success is 200 with `{ success: true, data }`. A provider error gives `{ error }` with the provider's message, and a thrown error gives `{ error }` with its message. The status is always 200, 400 or 500. |
| ServerlessHandler.Post | api/send-email.js:25-99 | A missing key gives 500 before validation. Missing fields give 400. The email is sent exactly when both checks pass. Success is 200 with the provider's reply. A provider error gives `{ error }` with the provider's message, and a thrown error gives `{ error }` with its message. The status is always 200, 400 or 500. |
| ServerlessHandler.Dispatch | api/send-email.js:16-23 | `OPTIONS` gives 200 with an empty body; any other method except `POST` gives 405; `POST` proceeds. Nothing is sent in the first two cases. |
| ServerlessHandler.Handler | api/send-email.js:4-14 | Every response carries the four CORS headers, whatever the branch. |
| HandlerParity.SameOutcome | api/send-email.js:32-99 | With the key set and the same template, both handlers send the same email and give the same status and error bodies. They differ only in the success body's wrapping. |
| HandlerParity.ConfigBeforeValidation | api/send-email.js:25-37 | A missing key wins over missing fields: 500 and nothing sent. |
| HandlerParity.BothRefuseMissingFields | api/send-email.js:35-37 | Both handlers refuse missing fields with the same 400 reply. |

## Left out

- Network and SDK calls are parameters: `fetch` to the Seedream endpoint, the Gemini SDK and `resend.emails.send`. Console logging and the `try`/`catch` rethrows have no effect on the results and are not modelled.
- Reading files and images is left out. `FileReader`, `Image`, `URL.createObjectURL` and `fs.readFileSync` become their outcomes: a data URL and pixel dimensions or the read failure for the clients, template text or the read error for the standalone server. When both reads of the Seedream client fail, `Promise.all` reports whichever fails first; the model takes that one as given.
- EmailRender.PrepareImage: the attachment keeps the base64 text. The model does not model `Buffer.from(…, 'base64')` decoding it to bytes.
- Replacement strings are inserted literally. JavaScript's `$&`, `$1`, `$$` patterns in a name, a message or a remote image URL (the fragments embed `imageSrc`) would be expanded by `String.prototype.replace`, and this is not modelled.
- Resolution.BestResolution: the bands are compared exactly with integer cross-multiplication, whereas the source divides in double precision. The two agree for realistic image dimensions; this is argued, not proved. Negative and non-integer dimensions cannot come from an image and are not modelled.
- The JSON request body is modelled as five optional strings. Non-string JSON values and a missing `req.body` (which makes the destructuring throw) are not modelled.
- A Seedream reply with `ok` whose body is not JSON (so that `response.json()` throws) is not modelled. Neither is a JSON `null` body, for which `errorData.error` or `data.data` throws a `TypeError`, nor `data` elements that are not objects.
- EmailRender.Render: its own contract states only the attachments. The html is characterised by `RenderLaidOut` and `RenderWithoutBlocks` and by `LazyBlock.ReplacesLazyMatch` about the replacement it is built from.
- Express wiring is not modelled: the `cors()` middleware, the body-size limit, `app.listen` and routes other than `POST /api/send-email`.
- At module load the standalone server creates its provider client, which is covered by the provider outcome parameter. The console warning for a missing key is logging and is not modelled.
- The two handlers read their templates from different assets (`template.html` and `template.js`). `HandlerParity` compares them on the same template text.
- The prompt texts are fixed strings sent to the services and do not affect any outcome modelled here.
- The user interface (`App.tsx`), the Supabase client, the type declarations and the styling configuration lie outside this model.
