# Fal.ai request/response adapter: a Dafny model

This project models the client adapter in `services/falService.ts`. The image editor uses it
to send an image and an instruction to the Fal.ai image-edit endpoint and to turn the answer
into an image URL or an error. The model covers these rules:

- **Request-body shaping.** An image string that starts with `data:` goes under `image_url`.
  Any other string goes into a one-element `image_urls`. Every request carries the same
  generation constants.
- **Error-message construction for a failed request.** The message starts with the status.
  A truthy JSON `error` is appended first. Otherwise a truthy `detail` is appended. A body that
  is not JSON appends its non-empty text. Otherwise nothing is appended.
- **Redaction of the API key.** The key is removed from that message with JavaScript's
  `String.prototype.replace` and a string pattern, which replaces only the leftmost occurrence.
- **Success-result extraction.** The adapter returns the first image's URL, or throws the
  "did not return an image" error.
- **The three public operations (edit, filter, adjustment)** and the prompt each one sends.

The network call is not modelled. The HTTP response is a closed datatype, `Response(status, body)`,
passed in as a parameter. Its body is one of three shapes:

- `JsonBody(error, detail)`: `json()` parsed, with these string fields if present.
- `JsonFails(text)`: `json()` threw. `text` holds what `text()` returned, or `None` if it threw too.
- `SuccessJson(images)`: an `images` array, giving each image's `url`.

`callFalApi` is the method `FalService.CallFalApi`. Like the source, it builds the message in a
local variable with successive appends. It is proved equal to the expression-level
specification `FalService.CallOutcome`, and the properties are proved about that specification.
JavaScript truthiness is written out: a missing or empty `error`, `detail`, text or `url` counts
as absent.

On redaction, the code promises less than "the key never appears in an error". The model
proves exactly what it does promise:

- A message without the key is unchanged.
- Otherwise the leftmost occurrence is replaced and the text around it is kept.
- A later occurrence that does not overlap the first one survives (`RedactKeepsLaterOccurrence`).
- For a non-empty key that shares no character with `[REDACTED]`, the result still holds the key
  exactly when the message held it twice without overlap (`RedactLeavesKeyIff`).
- Under the same condition, redacting twice equals redacting once exactly in that case
  (`RedactIdempotentIff`).

So "redaction removes every occurrence" and "redaction is idempotent" hold, for such a key,
exactly for messages with no two non-overlapping copies of it (two overlapping copies, as `aa`
in `aaa`, are both destroyed by the one replacement). A key that overlaps the placeholder can even be recreated
by it (`PlaceholderCanRecreateKey`). An empty key puts the placeholder in front of the message
(`EmptyKeyPrefixesPlaceholder`). Redaction runs over the whole message, status prefix included,
so the thrown message keeps its `status` prefix exactly when no occurrence of the key starts
inside that prefix (`ThrownMessageKeepsStatusIff`).

Files: `wrappers.dfy` holds Option and Result. `strings.dfy` holds the string built-ins the
adapter relies on: `startsWith`, `indexOf`, first-match `replace`, and number-to-decimal
conversion with its round trip. `fal_service.dfy` holds the adapter.

## Model

| member | source | states |
|---|---|---|
| `Strings.IndexOf` | services/falService.ts:61-62 | the search `replace` uses: present exactly when the pattern occurs, at an occurrence with no occurrence further left |
| `Strings.ReplaceFirstSplits` | services/falService.ts:61-62 | when the pattern occurs, the result is the text before its leftmost occurrence, the replacement, then the text after it; its length changes by the difference of the two lengths |
| `Strings.NatToString` | services/falService.ts:45 | the status is written as a non-empty run of decimal digits with no leading zero |
| `Strings.NatToStringRoundTrip` | services/falService.ts:45 | reading back the written status gives the number, so distinct statuses give distinct text |
| `FalService.BuildRequestBody` | services/falService.ts:22-33 | `image_url` is present exactly when the image starts with `data:`, and then holds the image; otherwise `image_urls` is the one-element list of the image; never both, never neither; the prompt is copied unchanged |
| `FalService.FixedGenerationParameters` | services/falService.ts:27-32 | every body has output format `png`, safety checker off, acceleration `regular`, sync mode on, one image, size `square_hd` |
| `FalService.SettingsIndependentOfInput` | services/falService.ts:24-33 | two bodies differ only in their image fields and their prompt |
| `FalService.FailureMessage` | services/falService.ts:45 | the unredacted message of a failed request always starts with `Fal.ai API request failed with status <status>` |
| `FalService.ErrorFieldFirst` | services/falService.ts:48-49 | a truthy `error` is appended as `: <error>`, whatever `detail` holds |
| `FalService.DetailFieldSecond` | services/falService.ts:50-51 | without a truthy `error`, a truthy `detail` is appended as `: <detail>` |
| `FalService.NeitherFieldAddsNothing` | services/falService.ts:47-52 | a JSON body with neither field truthy leaves the message at the status prefix |
| `FalService.TextFallback` | services/falService.ts:53-59 | a body that is not JSON appends `: <text>` only when its text is non-empty; an empty or unreadable text leaves exactly the status prefix |
| `FalService.FailureMessageDeterminesStatus` | services/falService.ts:45 | two failure messages that are equal come from the same status code |
| `FalService.RedactWithoutKey` | services/falService.ts:61-62 | a message without the key is returned unchanged |
| `FalService.RedactAt` | services/falService.ts:61-62 | character by character: the text before the leftmost key is kept, then `[REDACTED]`, then the text after the key |
| `FalService.RedactKeepsLaterOccurrence` | services/falService.ts:61-62 | a second occurrence not overlapping the first one survives redaction |
| `FalService.RedactedOccurrenceIsLater` | services/falService.ts:61-62 | for a key with no character of the placeholder, every occurrence in the redacted message is a later occurrence of the original, shifted |
| `FalService.RedactLeavesKeyIff` | services/falService.ts:61-62 | for such a key, the redacted message holds the key if and only if the original held two non-overlapping occurrences |
| `FalService.RedactIdempotentIff` | services/falService.ts:61-62 | for such a key, redacting twice equals redacting once if and only if there were no two non-overlapping occurrences |
| `FalService.PlaceholderCanRecreateKey` | services/falService.ts:61-62 | the key `D]`, occurring once, is recreated by the placeholder |
| `FalService.EmptyKeyPrefixesPlaceholder` | services/falService.ts:61-62 | an empty key makes redaction put `[REDACTED]` in front of the message |
| `FalService.ThrownMessageKeepsStatusIff` | services/falService.ts:45-62 | the thrown error of a failed request keeps the status prefix if and only if no occurrence of the key starts inside it |
| `FalService.SuccessOutcome` | services/falService.ts:65-72 | a successful response yields the first image's non-empty URL exactly when `images` is non-empty and that URL is truthy; otherwise it fails with the no-image message, or with the JSON-parse exception exactly when the body is not JSON; nothing else is possible |
| `FalService.CallOutcome` | services/falService.ts:44-72 | a URL is returned exactly when the response is ok and its first image has a truthy URL, and it is that URL; a response that is not ok always throws an adapter error, whose message is the unredacted failure message whenever the key does not occur in it; the JSON-parse exception escapes exactly for an ok response whose body is not JSON; every other ok failure is the no-image message |
| `FalService.CallFalApi` | services/falService.ts:14-73 | the body sent is the shaped request body; the result is the call outcome; the line-61 `console.error` message is logged exactly when the response is not ok, and it is the thrown message |
| `FalService.ExtractFill` | services/falService.ts:102 | extracting the user text from a filled prompt template gives that text back |
| `FalService.FillExtract` | services/falService.ts:112 | a prompt of a template's shape is the filling of the text extracted from it |
| `FalService.PromptFor` | services/falService.ts:92-113 | the prompt of every operation contains the user text verbatim and the text can be extracted back; an edit sends the text unchanged |
| `FalService.PromptForInjective` | services/falService.ts:102-112 | different requests of one operation give different prompts |
| `FalService.GenerateEditedImageWithFal` | services/falService.ts:87-94 | sends the user prompt unchanged with context `edit` (`ContextOf(Edit)`) |
| `FalService.GenerateFilteredImageWithFal` | services/falService.ts:96-104 | sends the filter template around the user text with context `filter` |
| `FalService.GenerateAdjustedImageWithFal` | services/falService.ts:106-114 | sends the adjustment template around the user text with context `adjustment` |

## Left out

- The `fetch` call, with its headers, method and endpoint URL (services/falService.ts:35-42), is network I/O. Its result is the `Response` parameter.
- `Response.ok` is derived from the status: the Fetch standard defines it as a status from 200 to 299.
- `imageFileToBase64` (services/falService.ts:75-85) is browser file I/O through FileReader callbacks. Its result is the `imageBase64` parameter of the three operations. That result is always a data URI, so in practice those operations send `image_url`. The model keeps the image string arbitrary.
- A `FileReader` error (services/falService.ts:82) is part of that I/O and is not modelled.
- The `console.log` of line 20 and the `console.error` of line 70 are observability only. The `console.error` of line 61 is modelled as `errorLog`, because it carries the redacted message.
- JSON values other than strings are not modelled: an `error` or `detail` that is a number, array or object, and therefore its `${...}` rendering. Nor is a `json()` result of `null`, whose field access throws inside the `try` and falls to the text branch.
- An `images[0]` that is `null`, where reading `.url` throws, is not modelled.
- Under the Fetch standard, `text()` after a failed `json()` rejects, because the body has already been read. The model keeps the text outcome as a given `Option`, so both branches of lines 54-59 stay visible.
- The `$` substitution patterns of `replace` are not modelled: the replacement `[REDACTED]` contains none.
- JavaScript strings are sequences of UTF-16 code units; the model uses `seq<char>`, where a Dafny `char` is a Unicode scalar value. A lone surrogate (a string or key holding half of a surrogate pair) cannot be represented at all. A character outside the Basic Multilingual Plane is one `char` but two JavaScript code units, so the lengths and indices in `RedactAt` and `ReplaceFirstSplits` count scalar values, not JavaScript `.length`.
- The asynchronous control flow (`async`/`await`, promise rejection) is modelled as a `Result` value.
- components/ToolOptions.tsx, components/ApiKeyModal.tsx and components/CropPanel.tsx are React UI. They are not part of this model.
- Some features are not in this adapter's code, so they are not modelled: image re-encoding and size budgets, output-size presets, array- or object-shaped `detail`, an upload strategy, and prompt-length checks.
