# Professor-review chat endpoint: a Dafny model of its request shaping

The endpoint answers a student's question about professors. It takes the
conversation posted by the caller and embeds the text of its last turn. It
asks a vector index for the three nearest professor-review records, then
asks a chat-completion service for a streamed answer to an augmented
conversation, and relays that stream to the caller.

This project models the deterministic part of that handler
(`app/api/chat/route.js`), with the remote services' answers taken as
inputs:

- **Retrieval context** (`Retrieval`). The matches are folded into
  `resultString`. It starts with a fixed header and adds one fixed-template
  block per match, in match order. Each metadata value is interpolated the
  way JavaScript's template literals do it (`JsValues`). Strings are used
  as-is; integral numbers are written in shortest decimal; booleans become
  `true`/`false`; lists of strings are joined with `,`; an absent key reads
  as `undefined`. A match with no metadata at all makes `forEach` throw.
- **Prompt assembly** (`Prompt`). The query is the last turn's content; an
  empty conversation throws. The outgoing list is the system prompt, then
  every earlier turn unchanged, then a `user` turn whose content is the
  query followed by `resultString`.
- **Stream relay** (`StreamRelay`). Provider chunks are read as
  `chunk.choices[0]?.delta?.content`. Only truthy (present, non-empty) texts
  are enqueued, in receipt order. A chunk without `choices`, or an error
  raised by the provider, stops the loop and errors the response stream.
  The `finally` block then calls `close`. The response-stream controller
  follows the WHATWG Streams standard: `close` on an errored stream throws
  a TypeError and changes nothing, so on the error path `close` runs but
  leaves the stream errored. `Start` is the loop, written as a method.
  `Relay` is its functional description. Both are proved to agree.
- **The handler** (`Handler`). It composes the pieces. It records the
  requests sent (embedding, similarity search with `topK` 3 and metadata,
  streamed completion), in order. It also records whether the request fails
  before streaming begins or returns the relayed stream.

Output chunks are modelled as strings, so the UTF-8 encoding of each chunk is
not part of the model. The system prompt is a parameter.

## Edge behaviour

- An empty conversation fails because `data[-1].content` throws a TypeError.
  The body is not validated.
- An empty query is embedded like any other text.
- A record whose metadata lacks a key shows `undefined`. A match with no
  metadata object raises a TypeError, so the request fails before the
  completion request is sent.
- The stream is closed in `finally` on both paths. On the error path that
  `close` throws and has no effect, and the stream ends errored.

## Model

| member | source | states |
|---|---|---|
| JsValues.Stringify | app/api/chat/route.js:77-80 | interpolating a metadata value gives the string itself, a number's text that reads back as that number, `true`/`false`, a comma join that splits back into a non-empty comma-free list, or `undefined` for an absent key |
| JsValues.NatToDecimal | app/api/chat/route.js:80 | a star count is written as a non-empty string of decimal digits, with a leading zero only for zero |
| JsValues.IntegerRoundTrip | app/api/chat/route.js:80 | the text interpolated for an integral star rating reads back as that same number, so different ratings always render differently |
| JsValues.JoinRoundTrip | app/api/chat/route.js:78-80 | a list-valued metadata field is rendered as its items joined by `,`; for a non-empty list (the empty list and `[""]` both render as the empty string) whose items contain no comma, splitting at `,` gives back every item in order |
| Retrieval.Block | app/api/chat/route.js:76-82 | one match's block is as long as the template's fixed labels plus the four interpolated texts, and opens with the professor label, the match id and the review label |
| Retrieval.FirstMissing | app/api/chat/route.js:75-78 | locates the first match with no metadata: every earlier match has metadata, and there is no such match exactly when all matches have metadata |
| Retrieval.FormatResults | app/api/chat/route.js:73-83 | the result string exists exactly when every match has metadata; otherwise the error names the first match without metadata; the header is always a prefix, and with no matches the result is exactly the header |
| Retrieval.BuildResultString | app/api/chat/route.js:73-83 | the `forEach` loop that appends one block per match yields the result string described by `FormatResults`, including the error at the first match without metadata |
| Retrieval.BlocksConcat | app/api/chat/route.js:75-83 | the blocks of two consecutive runs of matches are the blocks of the first run followed by those of the second |
| Retrieval.BlockAt | app/api/chat/route.js:75-83 | the block of match i sits between the blocks of the matches before it and those after it |
| Retrieval.ResultStringLength | app/api/chat/route.js:73-83 | the result string's length is the header's length plus the sum of the block lengths |
| Retrieval.ResultStringRoundTrip | app/api/chat/route.js:76-82 | reading the result string back yields exactly one entry per match, in match order, each holding that match's id, review, subject and stars text |
| Prompt.QueryText | app/api/chat/route.js:60 | the embedded text is the last turn's content; an empty conversation raises the TypeError instead |
| Prompt.Assemble | app/api/chat/route.js:85-93 | the outgoing list is one longer than the conversation, starts with the system message, keeps turns 0..n-2 unchanged and in order, and ends with a `user` turn whose content is the last content followed by the result string; an empty conversation fails |
| Prompt.AssembleRoundTrip | app/api/chat/route.js:85-93 | removing the system message and the result-string suffix from the outgoing list recovers the conversation, with only the last turn's role changed to `user` |
| Prompt.AssembleSameExactly | app/api/chat/route.js:87-93 | two conversations produce the same outgoing list if and only if they agree on all turns but the last and on the last turn's content |
| Prompt.QueryLeadsFinalMessage | app/api/chat/route.js:85-86 | the query text is a prefix of the final content and the result string follows it with nothing in between |
| StreamRelay.Enqueue | app/api/chat/route.js:106 | enqueue appends the chunk to the stream exactly when it is still readable |
| StreamRelay.Error | app/api/chat/route.js:110 | error moves a readable stream to the errored state and keeps the record of every chunk handed to enqueue; on a stream that is no longer readable it does nothing |
| StreamRelay.Close | app/api/chat/route.js:112 | close succeeds exactly on a readable stream and then closes it without touching its contents |
| StreamRelay.Content | app/api/chat/route.js:103 | the delta text of the first choice is read, or absent; reading fails exactly when the chunk has no `choices` |
| StreamRelay.Fragments | app/api/chat/route.js:102-107 | at most one output chunk per provider chunk, and every output chunk is non-empty |
| StreamRelay.FirstBroken | app/api/chat/route.js:102-103 | locates the first chunk without `choices`, where the loop throws; every chunk before it has `choices` |
| StreamRelay.Relay | app/api/chat/route.js:98-115 | the stream never stays readable; it ends closed exactly when no chunk is malformed and the provider finishes normally, with all fragments emitted; a chunk without `choices` at position i leaves exactly the fragments of chunks 0..i-1 and errors the stream with that position; a provider error after well-formed chunks leaves all their fragments and errors the stream with the provider's detail |
| StreamRelay.Start | app/api/chat/route.js:98-115 | the try/catch/finally loop leaves the stream with exactly the chunks and end state of `Relay`, and the final `close` throws exactly when the stream ended errored |
| StreamRelay.FragmentsAppend | app/api/chat/route.js:102-108 | relaying two consecutive runs of chunks emits the first run's fragments followed by the second's |
| StreamRelay.FragmentsSpellTranscript | app/api/chat/route.js:102-107 | the emitted chunks, concatenated, equal the concatenation of all provider texts, with absent and empty deltas adding nothing |
| StreamRelay.Kept | app/api/chat/route.js:102-107 | the positions of the chunks that carry text, increasing, and containing every such position |
| StreamRelay.FragmentsSelectKept | app/api/chat/route.js:102-107 | the emitted chunks are the texts of exactly the chunks that carry text, one per such chunk, in receipt order |
| StreamRelay.ErrorKeepsEnqueued | app/api/chat/route.js:101-113 | a provider error after k chunks leaves exactly what those k chunks had enqueued, which is a prefix of the full stream's output, and the stream errored |
| Handler.Post | app/api/chat/route.js:51-117 | the requests go out in order: one embedding of the last turn's content, then, only if the embedding succeeded, a search for 3 matches with metadata, then the streamed completion with the assembled messages; the completion is requested exactly when the conversation is non-empty, embedding and search succeed and every match has metadata; each failure reports its own fault (the embedding's, the search's, the first match without metadata, the completion's); a response is returned exactly when the completion request also succeeds, and it is the relayed stream |
| StreamRelay.NothingAfterEnd | app/api/chat/route.js:106-113 | once the relay has finished, closed or errored, the stream refuses any further chunk |
| Handler.TwoMatchExample | app/api/chat/route.js:73-93 | one question with two matches (five and three stars) yields a two-message completion request whose final content is the question, the header and the two blocks in retrieval order |
| Handler.EmbeddedQueryOpensFinalMessage | app/api/chat/route.js:60-92 | the text sent for embedding opens the final message of the completion request, and the formatted matches follow it directly |

## Left out

- Client construction, credentials and the index/namespace handle (route.js:53-58). These are SDK set-up; only the request parameters they carry are modelled.
- Embedding vectors (route.js:64, 70). They are floating-point data passed through opaquely, so an embedding answer is modelled only as success or failure.
- The remote services' behaviour. The matches, the provider's chunks and every service failure are inputs to the model.
- `ReadableStream` scheduling, backpressure and cancellation. The async runtime is concurrency and is not modelled. In particular, the WHATWG stream drops chunks still queued but unread when it is errored. What the caller has read at that moment depends on timing, so the model records what was enqueued.
- `TextEncoder` (route.js:100, 105). Output chunks are strings.
- Request body parsing and `NextResponse` (route.js:52, 117). A body that is not an array of role/content objects, extra properties on messages and non-string contents are not modelled.
- The text of the system prompt (route.js:5-49). It is a parameter.
- Star ratings that are not integers, or whose magnitude reaches 10^21, are not modelled. JavaScript writes those with a fraction or an exponent, and the model's number field holds integers only.
- Retrieval.ResultStringRoundTrip: holds only when no interpolated value contains a line break. A review with a newline makes the blocks ambiguous to read back, although the string is still built as described.
