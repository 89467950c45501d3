# Cloudinary upload signing and upload client, in Dafny

This project models the three pieces of the `test-cloudinary` SvelteKit app that
carry its logic:

- **`generateSignature(params, secret)`** (module `Signature`). It visits the
  properties of `params` with `for...in`. Each own property whose value is truthy
  becomes a token `key=String(value)`. The tokens are sorted in JavaScript's
  default string order and joined with `&`, and the secret is appended with no
  delimiter. The result is the lower-case hex of the SHA-1 of that string.
  - The loop is an imperative method, `GenerateSignature`. It is proved equal to
    the specification function `Sign`, and the properties below are lemmas
    about `Sign` and `CanonicalString`.
- **`POST /signature`** (module `SigningEndpoint`). It rounds the clock to whole
  seconds and fixes the parameters `{timestamp, upload_preset: "testing",
  folder: "sa"}`.
  - With an empty secret it answers with the plain text `No API secret`.
  - Otherwise it answers with JSON `{timestamp, signature, folder, upload_preset}`.
- **`CloudinaryUploader`** (module `Uploader`). This is a builder with three
  optional callbacks, plus `start()`.
  - `start()` posts a two-field form: `upload_preset`, and `file`, which is
    `data:image/png;base64,` followed by the second comma-separated piece of
    the image data.
  - It turns the request's progress and ready-state events into callback calls
    and a single promise.
  - The client uploads to an unsigned preset. It never calls the signing
    endpoint and sends no `api_key`, `timestamp` or `signature`.

Supporting modules model the JavaScript built-ins the core relies on:

- `Js`:
  - `String(n)` for integers, with a parser as its partner.
  - The `<` order on strings, by UTF-16 code unit.
  - `Array.prototype.sort()` with no comparator, as a function proved sorted and
    a permutation. The sorted result is unique.
  - `join`, `split(",")` and `Math.round` of a quotient.
- `Hex`: `encodeHexLowerCase`, the base 16 encoding of section 8 of RFC 4648
  with the lower-case alphabet, together with a decoder. Each is proved the
  inverse of the other.

Environment and effects are replaced as follows:

- The clock is the parameter `nowMillis`.
- The secret is a parameter.
- SHA-1 of the UTF-8 bytes is the parameter `digest`, which can be any function
  from strings to 20 bytes.
- `JSON.parse` is its result, `Option<Json>`. `None` stands for a parse that
  threw.
- A callback is an identity plus whether it throws. The calls made are
  recorded, in order, in `Transfer.calls`.

How the code behaves in cases that are easy to miss:

- A timestamp of 0 is falsy, so it is not signed, although the response still
  carries it.
- `=` and `&` are not escaped, so different parameter sets can share a signature.
- The sort compares whole tokens, not keys. The key `a+` sorts before `a`
  because `+` is below `=`.
- The error callback receives `{...error, http_code}`. Spreading an `Error`
  copies none of its properties, so the callback receives only `http_code`.
- The success callback and `resolve` run inside the `try`.
  - A success callback that throws is followed by the error callback and a
    rejection.
  - An error callback that throws escapes the handler, and the promise never
    settles.
  - With an invalid response body, a throwing error callback is called twice.
  - When callbacks return normally, the promise settles and at most one callback
    fires. Exactly one fires when both the success and the error callback are
    registered. The success callback fires exactly when the promise is fulfilled.

## Model

| member | source | states |
|---|---|---|
| Signature.GenerateSignature | src/lib/cloudinary/signature.ts:4-24 | The loop keeps the token list equal to the tokens of the properties visited so far. The result is `Sign` of the parameters: lower-case hex of the digest of the sorted tokens joined by `&`, followed by the secret. |
| Signature.Sign | src/lib/cloudinary/signature.ts:20-23 | The signature is 40 lower-case hex characters. They decode to exactly the digest of the canonical string. |
| Signature.Truthy | src/lib/cloudinary/signature.ts:13 | Definition of the `if (element)` test: the empty string, `0`, `false`, `null` and `undefined` are falsy. Properties in TokensMembership and FalsyValuesDropped. |
| Signature.Render | src/lib/cloudinary/signature.ts:14 | Definition of `String(element)` per kind of value. Properties in Js.NumberToStringRoundTrip and EqualsSignIsNotEscaped. |
| Signature.Token | src/lib/cloudinary/signature.ts:14 | Definition of `key=value`. Properties in PrefixKeyOrder and EqualsSignIsNotEscaped. |
| Signature.Tokens | src/lib/cloudinary/signature.ts:9-16 | Definition of the tokens the loop pushes, in visiting order. Properties in TokensMembership, TokensCount, TokensAppend and TokensPermutation, and the loop invariant of GenerateSignature. |
| Signature.CanonicalString | src/lib/cloudinary/signature.ts:20 | Definition of the sorted tokens joined by `&`, followed by the secret. Properties in CanonicalFromSortedTokens, SignatureOrderIndependent and CanonicalSplitsIntoTokens. |
| Signature.TokensAppend | src/lib/cloudinary/signature.ts:9-18 | Visiting two property lists one after the other yields the tokens of the first, then those of the second. |
| Signature.TokensMembership | src/lib/cloudinary/signature.ts:9-16 | A string is a token if and only if some own property with a truthy value renders to it. |
| Signature.TokensCount | src/lib/cloudinary/signature.ts:9-16 | There is exactly one token per own, truthy property. |
| Signature.IgnoredPropertyIsInvisible | src/lib/cloudinary/signature.ts:10-13 | Inserting an inherited or falsy property anywhere leaves the canonical string unchanged. |
| Signature.TokensPermutation | src/lib/cloudinary/signature.ts:9-18 | Visiting a reordering of the properties yields a reordering of the tokens. |
| Signature.CanonicalDependsOnTokens | src/lib/cloudinary/signature.ts:20 | The canonical string depends only on the multiset of tokens. |
| Signature.CanonicalFromSortedTokens | src/lib/cloudinary/signature.ts:20 | Any sorted arrangement of the tokens, joined by `&` and followed by the secret, is the canonical string. |
| Signature.SignatureOrderIndependent | src/lib/cloudinary/signature.ts:9-23 | Parameters that hold the same properties in any order give the same canonical string and the same signature. |
| Signature.NothingKeptSignsSecretAlone | src/lib/cloudinary/signature.ts:13-20 | With no own, truthy property, the string hashed is the secret alone. |
| Signature.CanonicalSplitsIntoTokens | src/lib/cloudinary/signature.ts:20 | When no token contains `&`, the canonical string ends with the secret, and the part before it splits on `&` into exactly the sorted tokens. |
| Signature.PrefixKeyOrder | src/lib/cloudinary/signature.ts:14-20 | When one key extends another, the token order depends on how the next character compares with `=`: above `=` sorts the longer key last, below `=` sorts it first. |
| Signature.TokenOrderIsNotKeyOrder | src/lib/cloudinary/signature.ts:14-20 | `a` is before `a+` as a key, yet the token `a+=1` is before `a=1`. |
| Signature.EqualsSignIsNotEscaped | src/lib/cloudinary/signature.ts:14 | `{a: "b=c"}` and `{"a=b": "c"}` have the same canonical string. |
| Signature.AmpersandIsNotEscaped | src/lib/cloudinary/signature.ts:14-20 | `{a: "1&b=2"}` has the same canonical string as `{a: 1, b: 2}`. |
| Signature.ThreeTokens | src/lib/cloudinary/signature.ts:20 | Three tokens in ascending order are joined in that order, and the secret follows. |
| Signature.FalsyValuesDropped | src/lib/cloudinary/signature.ts:13 | `{a: 1, b: "", c: 0, d: null}` signs like `{a: 1}`. |
| Js.NatToDecimal | src/lib/cloudinary/signature.ts:14 | `String` of a natural number is a non-empty string of digits with no leading zero. |
| Js.NumberToString | src/lib/cloudinary/signature.ts:14 | Definition of `String` on an integer: a minus sign for negatives, then the decimal digits. Properties in NumberToStringRoundTrip. |
| Js.Less | src/lib/cloudinary/signature.ts:20 | Definition of the default `sort()` comparison: UTF-16 code-unit order. Properties in LessIrreflexive, LessAsymmetric, LessTransitive and LessTotal. |
| Js.Join | src/lib/cloudinary/signature.ts:20 | Definition of `join(sep)`. Properties in JoinSplit and SplitJoin. |
| Js.Split | src/lib/cloudinary.ts:40 | Definition of `split(c)` on a one-character separator. Properties in JoinSplit, SplitJoin, SplitFree and SplitAfterFree. |
| Js.NumberToStringRoundTrip | src/lib/cloudinary/signature.ts:14 | `String` is injective on integers: parsing its text gives the integer back. |
| Js.LessIrreflexive | src/lib/cloudinary/signature.ts:20 | No string sorts before itself. |
| Js.LessAsymmetric | src/lib/cloudinary/signature.ts:20 | Two strings are never each before the other. |
| Js.LessTransitive | src/lib/cloudinary/signature.ts:20 | Code-unit order is transitive. |
| Js.LessTotal | src/lib/cloudinary/signature.ts:20 | Of two different strings, one sorts before the other. |
| Js.LessAfterCommonPrefix | src/lib/cloudinary/signature.ts:20 | A common prefix does not decide the order: the remainders do. |
| Js.Insert | src/lib/cloudinary/signature.ts:20 | Inserting into a sorted list keeps it sorted, and the elements are the old ones plus the new one. |
| Js.Sort | src/lib/cloudinary/signature.ts:20 | `sort()` returns a sorted permutation of its input. |
| Js.SortedUnique | src/lib/cloudinary/signature.ts:20 | Two sorted permutations of the same strings are equal, so the result does not depend on the sort algorithm. |
| Js.JoinSplit | src/lib/cloudinary.ts:40 | Joining the pieces of `split(c)` with `c` restores the string. |
| Js.SplitJoin | src/lib/cloudinary/signature.ts:20 | Splitting a join of separator-free parts on the separator gives the parts back. |
| Js.SplitFree | src/lib/cloudinary.ts:40 | A string without the separator splits into itself alone. |
| Js.SplitAfterFree | src/lib/cloudinary.ts:40 | A separator-free head followed by the separator becomes the first piece. The rest splits on its own. |
| Js.RoundQuotient | src/routes/signature/+server.ts:7 | `Math.round(num / den)` lies within half of `den` of the exact quotient, and a half rounds up. |
| Js.RoundQuotientUnique | src/routes/signature/+server.ts:7 | Only one integer satisfies that bracket. |
| Js.RoundQuotientMonotone | src/lib/cloudinary.ts:73 | Rounding a quotient is monotone in the numerator. |
| Hex.NibbleOf | src/lib/cloudinary/signature.ts:23 | A character has a nibble if and only if it is a lower-case hex digit, and that digit encodes the nibble. |
| Hex.EncodeHexLowerCase | src/lib/cloudinary/signature.ts:23 | The output has two lower-case hex digits per byte. |
| Hex.DecodeEncode | src/lib/cloudinary/signature.ts:23 | Decoding an encoding gives the bytes back. |
| Hex.EncodeDecode | src/lib/cloudinary/signature.ts:23 | Whatever the decoder accepts is the encoding of what it returns. |
| Hex.DecodeAccepts | src/lib/cloudinary/signature.ts:23 | The decoder accepts exactly the even-length lower-case hex strings. |
| SigningEndpoint.Timestamp | src/routes/signature/+server.ts:7 | The timestamp is the second nearest to the clock reading, with a half rounding up. |
| SigningEndpoint.ParamsToSign | src/routes/signature/+server.ts:8-12 | Definition of the signed parameters `timestamp`, `upload_preset` and `folder`. Properties in SignedCanonicalString, ZeroTimestampNotSigned and ResponseMirrorsSignedParams. |
| SigningEndpoint.Post | src/routes/signature/+server.ts:6-32 | The answer is plain text exactly when the secret is empty, and that text is `No API secret`. |
| SigningEndpoint.ResponseMirrorsSignedParams | src/routes/signature/+server.ts:8-31 | A JSON answer has exactly the signed keys plus `signature`. Each signed key carries the value that was signed, and `signature` is the signature of the signed parameters. |
| SigningEndpoint.ResponseVerifies | src/routes/signature/+server.ts:16-31 | Re-signing the returned fields other than `signature`, in the order listed, reproduces the returned signature. |
| SigningEndpoint.SignedCanonicalString | src/routes/signature/+server.ts:8-16 | For a non-zero timestamp the string hashed is `folder=sa&timestamp=<t>&upload_preset=testing` followed by the secret. |
| SigningEndpoint.ZeroTimestampNotSigned | src/routes/signature/+server.ts:7-16 | For timestamp 0 the string hashed is `folder=sa&upload_preset=testing` followed by the secret. |
| SigningEndpoint.AllFieldsSigned | src/routes/signature/+server.ts:7-12 | From half a second after the epoch onwards, all three parameters are signed. |
| SigningEndpoint.FixtureCanonicalString | src/routes/signature/+server.ts:8-16 | For timestamp 1700000000 the string hashed is `folder=sa&timestamp=1700000000&upload_preset=testing` followed by the secret. |
| Uploader.CloudinaryUploader.constructor | src/lib/cloudinary.ts:15-18 | It stores the image data and preset, and no callback is set. |
| Uploader.CloudinaryUploader.OnProgress | src/lib/cloudinary.ts:20-23 | It sets the progress callback, leaves the others unchanged, and returns the same object. |
| Uploader.CloudinaryUploader.OnSuccess | src/lib/cloudinary.ts:25-28 | It sets the success callback, leaves the others unchanged, and returns the same object. |
| Uploader.CloudinaryUploader.OnError | src/lib/cloudinary.ts:30-33 | It sets the error callback, leaves the others unchanged, and returns the same object. |
| Uploader.CloudinaryUploader.Start | src/lib/cloudinary.ts:35-43 | It returns a new pending transfer with no calls. The form is `UploadForm(uploadPreset, imageData)`. |
| Uploader.Upload | src/lib/cloudinary.ts:85-88 | It returns a new uploader over the image data and preset, with no callbacks. |
| Uploader.FileField | src/lib/cloudinary.ts:40-41 | Definition of the `file` form value. Properties in FileFieldOfDataUri and FileFieldWithoutComma. |
| Uploader.UploadForm | src/lib/cloudinary.ts:37-41 | Definition of the form: `upload_preset`, then `file`. Property in CloudinaryUploader.Start. |
| Uploader.PublicId | src/lib/cloudinary.ts:57 | Definition of reading `res.public_id`. Properties in Classify. |
| Uploader.Acceptable | src/lib/cloudinary.ts:57 | Definition of the body that passes `!res \|\| !res.public_id`. Properties in Classify. |
| Uploader.FileFieldOfDataUri | src/lib/cloudinary.ts:40-41 | For `header,payload[,rest]` the file field is the payload behind a PNG header, whatever media type the header named. |
| Uploader.FileFieldWithoutComma | src/lib/cloudinary.ts:40-41 | Without a comma the file field is `data:image/png;base64,undefined`. |
| Uploader.Progress | src/lib/cloudinary.ts:73 | The percentage is the nearest integer to `100 * loaded / total`. It is `NaN` for 0/0 and `Infinity` for x/0. |
| Uploader.ProgressBounded | src/lib/cloudinary.ts:73 | Within a transfer of known size the percentage lies in 0..100. It is 0 at the start and 100 at the end. |
| Uploader.ProgressMonotone | src/lib/cloudinary.ts:73 | More bytes sent never lowers the percentage. |
| Uploader.Classify | src/lib/cloudinary.ts:46-65 | A finished transfer succeeds if and only if the status is 200 and the body parses to a value with a truthy `public_id`; success carries that body. A failure carries the status as its code, and it is "Upload failed" exactly when the status is not 200. |
| Uploader.Settle | src/lib/cloudinary.ts:51-68 | Definition of a `resolve` or `reject` call: only a pending promise changes. Properties in Transfer.OnReadyStateChange. |
| Uploader.ErrorPath | src/lib/cloudinary.ts:48-69 | Definition of the error branch: the error callback, if set, is called with the status, then the promise is rejected unless the callback throws. Properties in ExactlyOneOutcome and ThrowingErrorCallbackNeverSettles. |
| Uploader.CompletionEffect | src/lib/cloudinary.ts:48-69 | Definition of the calls, escape and settlement of a finished transfer. Properties in ExactlyOneOutcome, ThrowingSuccessCallbackAlsoFiresError, ThrowingErrorCallbackNeverSettles and Transfer.OnReadyStateChange. |
| Uploader.ExactlyOneOutcome | src/lib/cloudinary.ts:45-70 | When callbacks return normally, the promise settles and at most one callback fires. With both callbacks set, exactly one fires. The success callback fires exactly when the promise is fulfilled, and with that body. The error callback receives the status. |
| Uploader.ThrowingSuccessCallbackAlsoFiresError | src/lib/cloudinary.ts:55-69 | A success callback that throws is followed by the error callback with `http_code` 200 and a rejection. |
| Uploader.ThrowingErrorCallbackNeverSettles | src/lib/cloudinary.ts:48-69 | An error callback that throws leaves the promise pending. It is called twice for an invalid body and once otherwise. |
| Uploader.Transfer.OnUploadProgress | src/lib/cloudinary.ts:72-75 | The progress callback, if set, is called once with `Progress(loaded, total)`. The promise is untouched. |
| Uploader.Transfer.OnReadyStateChange | src/lib/cloudinary.ts:45-70 | Before state 4 nothing happens. At state 4 the calls made, the escape of an exception and the settlement are those of `CompletionEffect` for `Classify(status, parsed)`. A settled promise never changes again. |

## Left out

- SHA-1 and the UTF-8 encoding in front of it are not modelled. They are the
  parameter `digest`, any function from strings to 20-byte digests. The
  properties proved therefore hold for every such function.
- JavaScript numbers are modelled as integers:
  - Non-integer values and the exponent form `String` uses from 1e21 upward are
    not modelled.
  - The progress quotient is rational arithmetic. It equals the floating-point
    result whenever `total` is below 2^45, where no float rounding can cross a
    half.
- Values in `params` are strings, integers, booleans, `null` and `undefined`.
  Objects and symbols are not modelled.
- Uploader.Transfer.OnReadyStateChange: a callback is reduced to its identity
  and whether it throws. What a callback does beyond that is not modelled,
  including re-entrant calls into the uploader.
- GenerateSignature: `tempParams.sort()` sorts in place. The model reassigns the
  sequence with the `Sort` function, so in-place update and aliasing of the
  array are not captured.
- `XMLHttpRequest`, `FormData`, `open`, `setRequestHeader` and `send` are not
  modelled. The request is its form plus the two events it delivers. The
  upload URL and the header are fixed strings.
- `JSON.parse` is replaced by its outcome. A body that does not parse is `None`,
  and numbers in the body are integers.
- The `console.log` in the endpoint, the environment variables (the cloud name
  and the API key are only logged), and the request body (never read) are not
  modelled.
- The deletion flow and the Svelte pages are not part of this model.
