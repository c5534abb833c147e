# Caption and upload gateways, modelled in Dafny

This project models the server-side decision logic of the two API routes of a
small meme-caption web application:

- **Caption gateway** (`POST /api/generate-captions`): authenticate the
  caller, require an `imageUrl`, then either call a configured captioning API
  and normalise its answer to `{ id, text }` captions numbered from 1, or fall
  back to a fixed list of ten mock captions whose first two entries mention
  the request's `context`.
- **Upload gateway** (`POST /api/upload-image`): authenticate the caller,
  validate the uploaded file (present, one of four image types, at most
  10 MiB), build the storage key `userId/timestamp-randomId.ext`, upload the
  bytes to the `images` bucket, and answer with the stored path and its public
  URL, or with a storage error classified by its message.

Every handler is a pure function. The outcomes of the external services are
its inputs: the session reported by the auth service, the parsed request body
or form, the clock reading and the random id. The captioning API, the storage
upload and the public-URL lookup are function parameters. Each handler returns
its response together with the external call it made, if any. So "a rejected
request never reaches storage" is a plain postcondition.

Files:

- `js.dfy` (module `Js`): optional values, string truthiness, and thrown values.
- `text.dfy` (module `Text`): `includes`, `split`/`join`, the last piece of a
  split, ASCII lower-casing, and the decimal rendering of a timestamp.
- `http.dfy` (module `Http`): JSON responses, the auth session, the 401 and the catch-all 500.
- `captions.dfy` (module `Captions`): the caption gateway.
- `upload.dfy` (module `Upload`): the upload gateway.

Two JavaScript details are modelled as the code behaves:

- `result.captions || result.data || []` takes `captions` whenever it is
  present, even as an empty array, because an empty array is truthy.
  `Captions.EmptyCaptionsShadowData` states this.
- `file.name.split('.').pop() || 'jpg'` gives the whole name when there is no
  dot. Only an empty name or a name ending in a dot gets `jpg`.

## Model

| member | source | states |
|---|---|---|
| Js.Truthy | app/api/generate-captions/route.ts:30 | an optional string is truthy exactly when it is present and not the empty string |
| Js.MessageOf | app/api/generate-captions/route.ts:118 | a caught `Error` contributes its message; any other thrown value gives the handler's fallback text |
| Http.SignedIn | app/api/generate-captions/route.ts:47 | a handler goes on exactly when no auth error was reported and a user came back |
| Http.Status | app/api/generate-captions/route.ts:108-113 | a success answer goes out with the default status 200; an error answer carries the status it was given |
| Http.Unauthorized | app/api/generate-captions/route.ts:47-52 | a caller without a session gets status 401 with "Unauthorized. Please log in." |
| Http.Caught | app/api/generate-captions/route.ts:115-120 | the outer catch answers 500 with the error's message, or the fallback for a non-`Error` value |
| Text.Contains | app/api/upload-image/route.ts:69 | `includes` is true exactly when the substring occurs at some position of the message |
| Text.Split | app/api/upload-image/route.ts:49 | `split` always yields at least one piece, so `pop()` always has a piece to return |
| Text.SplitPiecesAvoidSeparator | app/api/upload-image/route.ts:49 | no piece of a split contains the separator |
| Text.JoinSplit | app/api/upload-image/route.ts:49 | joining the pieces of a split with the separator gives back the original name |
| Text.Last | app/api/upload-image/route.ts:49 | `pop()` on a non-empty array returns its final element: the array is the other elements followed by it |
| Text.LastSegment | app/api/upload-image/route.ts:49 | reference for the last piece: a separator-free suffix that is the whole string or starts right after a separator |
| Text.LastOfSplit | app/api/upload-image/route.ts:49 | the last piece of `split` (what `pop()` returns) equals the longest separator-free suffix |
| Text.SplitAt | app/api/upload-image/route.ts:49 | splitting at one separator occurrence splits the two sides independently |
| Text.SplitWithoutSeparator | app/api/upload-image/route.ts:49 | a name without the separator splits into itself alone |
| Text.LowerChar | app/api/generate-captions/route.ts:32 | an ASCII capital becomes the letter 32 code points later, every other character is kept, and no capital remains |
| Text.ToLower | app/api/generate-captions/route.ts:32 | lower-casing keeps the length, leaves no ASCII capital, keeps every non-capital and shifts every capital to its lower-case letter |
| Text.ToLowerIdempotent | app/api/generate-captions/route.ts:32 | lower-casing an already lower-cased context changes nothing |
| Text.Decimal | app/api/upload-image/route.ts:50 | the timestamp in the key is a non-empty digit string with no leading zero, and "0" only for zero |
| Text.DecimalRoundTrip | app/api/upload-image/route.ts:50 | reading the timestamp's digits back gives the timestamp |
| Captions.NumberFrom | app/api/generate-captions/route.ts:35-38 | numbering keeps every text in place and gives consecutive ids from the first one |
| Captions.Numbered | app/api/generate-captions/route.ts:95-98 | the index-mapped captions have the input texts in order, and element i has id i+1 |
| Captions.MockCaptions | app/api/generate-captions/route.ts:15-39 | exactly 10 captions with ids 1..10; the fixed texts when the context is falsy; otherwise texts 0 and 1 are the context variants and texts 2..9 are the fixed texts |
| Captions.MondayContext | app/api/generate-captions/route.ts:30-33 | the context "Monday" gives "Monday: expectations vs reality" and "When monday hits different", other entries unchanged |
| Captions.ItemText | app/api/generate-captions/route.ts:97 | a string element is its own text; an object element contributes its `text` field |
| Captions.SourceItems | app/api/generate-captions/route.ts:95 | the mapped array is `captions` whenever it is present, else `data` when present, else the empty array |
| Captions.UsesApi | app/api/generate-captions/route.ts:70 | the external API is used exactly when both the URL and the key are present and non-empty |
| Captions.Normalize | app/api/generate-captions/route.ts:95-98 | when `captions` is present, caption i has the text of `captions[i]` and there is one per element; otherwise the same holds for `data` when present; with neither the list is empty. Caption i has id i+1 |
| Captions.EmptyCaptionsShadowData | app/api/generate-captions/route.ts:95 | an empty `captions` array yields no captions, whatever `data` holds |
| Captions.TwoStringCaptions | app/api/generate-captions/route.ts:95-98 | `{ captions: ["a", "b"] }` yields captions 1 "a" and 2 "b" |
| Captions.ApiRequest | app/api/generate-captions/route.ts:72-83 | the upstream call goes to the configured URL with `Bearer <key>`, the image URL, the context and 10 requested captions |
| Captions.Generate | app/api/generate-captions/route.ts:41-122 | 401 iff no session; otherwise 400 "Image URL is required" iff the body parsed but `imageUrl` is falsy. The API is called iff the request is valid and both URL and key are non-empty. A non-OK API answer gives 500 with the fixed message. A value thrown while reading the body or calling the API gives 500 with its message. An OK answer gives the normalised captions, and without a configured API the mock captions are returned. A success echoes `imageUrl` and `context` |
| Captions.UnauthorizedIgnoresRequest | app/api/generate-captions/route.ts:47-55 | without a session the answer does not depend on the body, the configuration or the API |
| Captions.MockIgnoresApi | app/api/generate-captions/route.ts:99-103 | when the API is not configured, the answer does not depend on the API |
| Upload.AllowedType | app/api/upload-image/route.ts:29-30 | a type passes exactly when it equals one of `image/jpeg`, `image/png`, `image/gif`, `image/webp` |
| Upload.Validate | app/api/upload-image/route.ts:10-44 | 401 "Unauthorized. Please log in." iff no session. A form that cannot be read gives 500 with the thrown message or "Failed to upload image". Then the first failing check decides: no file, then type, then size, each a 400. Accepted iff the type is one of the four image types and the size is at most 10485760 bytes |
| Upload.TypeCheckedBeforeSize | app/api/upload-image/route.ts:29-44 | a file with a bad type that is also too large reports the type error |
| Upload.SizeBoundary | app/api/upload-image/route.ts:38-39 | exactly 10485760 bytes is accepted and 10485761 is rejected as too large |
| Upload.Extension | app/api/upload-image/route.ts:49 | the extension is the longest dot-free suffix of the name, or "jpg" when that is empty; it is never empty and never holds a dot |
| Upload.ExtensionAfterDot | app/api/upload-image/route.ts:49 | a name ending in a dot followed by a non-empty, dot-free text has that text as its extension |
| Upload.ExtensionCases | app/api/upload-image/route.ts:49 | a dot-free name is its own extension; an empty name or one ending in a dot gets "jpg" |
| Upload.StorageKey | app/api/upload-image/route.ts:50 | the key starts with `userId/`, ends with `.ext`, and holds `timestamp-randomId` between them |
| Upload.KeyFolder | app/api/upload-image/route.ts:50 | when the caller's id contains no `/`, the first `/`-separated piece of the key is that id |
| Upload.KeyKeepsExtension | app/api/upload-image/route.ts:49-50 | the key's own extension is the uploaded file's extension |
| Upload.UploadRequest | app/api/upload-image/route.ts:57-63 | the upload goes to bucket `images` with the file's bytes, content type = the file's type, cache control "3600" and upsert false |
| Upload.ClassifyStorageError | app/api/upload-image/route.ts:65-79 | every storage error is a 500. A message containing "not found" or "Bucket" (case-sensitive) gets the bucket-not-configured message. Any other message becomes "Upload failed: " followed by the message |
| Upload.HandleUpload | app/api/upload-image/route.ts:4-112 | storage is called iff validation accepts, and then with exactly the upload request for bucket `images`: the caller's key built from the timestamp and random id, the file's bytes and the fixed options. A rejection is answered with the ladder's error. A storage error is classified. A stored object is answered with its path and the public URL derived from it |
| Upload.RejectionIgnoresStorage | app/api/upload-image/route.ts:21-63 | a rejected request does not depend on the clock, the random id, the storage service or the URL lookup |

## Left out

- The auth service, the captioning API, the storage upload and the public-URL lookup are not modelled. Their results are inputs or function parameters.
- `Date.now()` and `Math.random().toString(36).substring(2, 15)` are inputs: any natural timestamp and any random-id string.
- Environment variable reads are left out. `CAPTION_API_URL` and `CAPTION_API_KEY` are passed in as optional strings.
- JSON and multipart parsing are left out. Their result, or the value they threw, is an input.
- Logging is left out. It does not affect any response.
- Values of the wrong JSON type are not modelled: a non-string `imageUrl` or `context`, a `null` body, a non-array `captions` or `data`, or a caption element that is `null` or has no `text`. In the source they behave as follows:
  - A truthy non-string `imageUrl` passes the check at generate-captions line 57. It is sent to the API (line 79) and echoed unchanged (line 110).
  - A falsy non-array `captions` (`0`, `""`, `false`) falls through to `data` at line 95.
  - A truthy non-array `captions` or `data` has no `map` and throws into the catch-all 500.
  - A truthy non-string `context` throws at `context.toLowerCase()` (generate-captions line 32) in the mock branch, which gives the catch-all 500. In the API branch it is sent unchanged (line 80) and echoed (line 111).
  - A `null` body throws at line 57 into the catch-all 500.
  - A `null` element throws at line 97. An element without `text` gives an `undefined` text.
- A JSON `null` field and an absent field are both `None`. In the source a `context` sent as `null` is echoed as `"context": null`, while an absent `context` leaves the key out of the success body.
- A `file` form field that holds a string instead of a file is not modelled. The empty string is falsy and gets "No file provided" (upload-image line 21). A non-empty string has an `undefined` type and gets the invalid-type error.
- Exceptions thrown by `createClient()` (generate-captions line 44, upload-image line 7), `getUser`, `response.text()` on a non-OK answer, `file.arrayBuffer()` (upload-image line 53), `storage.upload` or `getPublicUrl` are not modelled. The model treats these services as returning results. In the source each such throw ends in the catch-all 500.
- Text.LowerChar: maps only the ASCII capitals A–Z. Any other character, including a non-ASCII capital such as `É`, is returned unchanged, whereas JavaScript lower-cases it.
- Text.ToLower: models `toLowerCase` for ASCII letters only. Other characters are kept unchanged, whereas the source applies full Unicode case mapping.
- Text.Decimal: renders any natural number in decimal. The source renders a JavaScript number, which is decimal only below 10^21. Millisecond timestamps are far below that.
- `file.size` is modelled as the length of the file's bytes. The conversion `ArrayBuffer` → `Uint8Array` is the identity on those bytes.
- The commented-out database insert in the upload route (upload-image lines 90-97) and the note about storing captions in the caption route (generate-captions lines 105-106) do nothing and are not modelled.
- The React pages and components are not part of this model.
