# Document relay upload handler, modelled in Dafny

The system is a single upload endpoint. A caller posts a `.pdf` or `.txt`
file and, optionally, a conversation id. The handler reads the file into one
text, cuts that text into chunks of at most 2000 characters, and sends each
chunk in turn to a remote chat service (Chatbase). Every request carries the
instruction "Analise o seguinte documento (parte):" followed by a blank line
and the chunk, and the same conversation id. The replies are joined, each
followed by a newline, and the stripped result is returned. The first failed
request ends the whole upload with an error and no partial reply.

The model lifts this pipeline out of the web framework and the libraries:

- `text.dfy` (module `Text`): the Python string operations the handler
  relies on: `str.endswith`, `str.isspace` and `str.strip()`. Characters are
  Unicode scalar values, which is how Python's `len` counts them.
- `chunker.dfy` (module `Chunker`): `split_text`, with its round trip,
  chunk sizes, chunk count and slice-by-slice form proved.
- `extraction.dfy` (module `Extraction`): choosing a reader by file-name
  suffix, and folding PDF pages into one text with a method whose loop
  mirrors the handler's `+=` loop. The PDF parser and the UTF-8 decoder are
  function parameters that either give a result or fail with a message.
- `relay.dfy` (module `Relay`): the chunk relay, as a method with a loop
  that records every request it hands to the service. The remote service is
  a function from (request position, request) to a reply or a failure
  message. The promise `RelayOutcome` says which requests are sent, in what
  order, and how the relay ends. Lemmas derive from it: stop at the first
  failure, send everything when nothing fails, determinism, and the exact
  newline and strip policy.
- `upload.dfy` (module `Upload`): the handler as a whole. It checks for a
  missing file and an empty file name, then extracts, chunks and relays.
- `wrappers.dfy` (module `Wrappers`): `Option` and `Result`.

A few facts about the handler that the model keeps:

- Every PDF page, including the last, is followed by one newline; there is
  no separator between pages beyond that.
- The placeholder for a page without text is the Portuguese
  "[Página sem texto legível]".
- A failed request reports only the transport error's description, not the
  payload that was sent.
- An empty document sends no request and answers the empty message.

## Model

| member | source | states |
|---|---|---|
| Text.EndsWithIff | app.py:40 | `EndsWith(s, suffix)`, the model of `str.endswith`, holds exactly when `s` is some string followed by `suffix` |
| Text.SuffixesExclusive | app.py:40-50 | two different suffixes of equal length (such as `.pdf` and `.txt`) never both end one name, so the order of the two tests cannot matter |
| Text.IsSpaceAscii | app.py:81 | among ASCII characters, the whitespace `strip()` removes is exactly TAB, LF, VT, FF, CR, FS, GS, RS, US and space, as Python's `str.isspace` |
| Text.Strip | app.py:81 | the result of `strip()` is no longer than its input, neither starts nor ends with whitespace, and is empty exactly when the input is all whitespace (that only outer whitespace is removed is `Text.StripUnique`) |
| Text.StripUnique | app.py:81 | every split of a string into whitespace, a piece with non-space ends, and whitespace gives that piece as the strip result |
| Text.StripIdempotent | app.py:81 | stripping a stripped string changes nothing |
| Chunker.SplitText | app.py:26-27 | every chunk is non-empty and at most `max_length` long; every chunk but the last is exactly `max_length` long |
| Chunker.SplitTextConcat | app.py:26-27 | concatenating the chunks gives back the text exactly |
| Chunker.SplitTextCount | app.py:27 | no chunks exactly for the empty text; otherwise (count - 1) * L < len(text) <= count * L |
| Chunker.SplitTextCeil | app.py:27 | the chunk count is (len(text) + L - 1) / L, the number of steps of `range(0, len(text), L)` |
| Chunker.SplitTextChunkAt | app.py:27 | chunk k starts inside the text and is `text[k*L : k*L + L]`, clamped at the end as Python slicing does |
| Chunker.SplitTextUnique | app.py:26-27 | any cut of the text into non-empty pieces of at most L, all but the last full, is the chunking, so the chunking is the only such cut and is deterministic |
| Extraction.FormatOf | app.py:40-54 | the PDF branch holds exactly for names ending in `.pdf`; the text branch exactly for names ending in `.txt`; any other name is unsupported |
| Extraction.AssemblePdf | app.py:43-49 | the loop over pages builds exactly the in-order concatenation of the pieces of the pages |
| Extraction.PdfTextPageAt | app.py:43-49 | page i's piece sits in the text right after the pieces of pages 0..i-1; it is the page text plus a newline when the text is non-empty, else the placeholder plus a newline |
| Extraction.PdfTextLength | app.py:43-49 | each page adds at least one character, and the text is empty exactly when there are no pages |
| Extraction.ExtractText | app.py:39-56 | `.pdf` names go to the parser (its failure becomes a processing error); other `.txt` names are decoded (decode failure becomes a processing error, success gives the decoded text unchanged); other names are unsupported |
| Relay.RequestForChunk | app.py:65-71 | a request's message is the preamble followed by exactly its chunk, with the given bot id and conversation id |
| Relay.AccumulatedJoin | app.py:74 | the accumulated message is the replies joined by newlines plus one final newline |
| Relay.RelayChunks | app.py:60-81 | requests go out for chunks 0, 1, … in order, each being the preamble plus the chunk with the same conversation id. All sent requests but the last succeeded. On success all chunks were sent and the message is the stripped accumulation of the replies. On failure the last request sent is the failed one, and the error is that failure's message, with no partial reply |
| Relay.RelayEmpty | app.py:60-81 | with no chunks, nothing is sent and the message is empty |
| Relay.FirstFailure | app.py:63-79 | the index it finds is the first chunk, from the starting index on, whose request fails; every earlier chunk succeeds; if it finds none, every chunk succeeds |
| Relay.RelayStopsAtFirstFailure | app.py:63-79 | if chunk i's request fails and all earlier ones succeed, exactly i + 1 requests were sent and the relay fails with chunk i's failure |
| Relay.RelayAllSucceed | app.py:63-81 | if every chunk's request succeeds, all chunks are sent and the message is `strip` of the replies joined by newlines plus a newline |
| Relay.RelayEndsAtFirstFailure | app.py:63-79 | the relay ends after exactly the first failing chunk, or after all chunks with success when none fails |
| Relay.RelayDeterministic | app.py:63-81 | two runs on the same chunks and service send the same requests and return the same result |
| Relay.StripJoined | app.py:74-81 | when the first reply does not start and the last does not end with whitespace, the message is exactly the replies joined by single newlines |
| Relay.TwoRepliesMessage | app.py:74-81 | replies "ABC" and "DEF" give the message "ABC\nDEF" |
| Upload.HandleUpload | app.py:30-81 | a missing file or an empty name fails with no request sent. A file that is unsupported or unreadable fails with that cause and no request sent. Otherwise the 2000-character chunks of its text are relayed with the relay's full promise |
| Upload.FailureMessage | app.py:30-79 | a failed upload answers "Nenhum arquivo enviado" for a missing file, "Nenhum arquivo selecionado" for an empty name, the unsupported-format text for another suffix, "Erro ao processar o arquivo: " plus the reader's description for an unreadable file, and "Erro ao se comunicar com o Chatbase: " plus the service's description of the last request sent for a refused request |
| Upload.UnsupportedSendsNothing | app.py:50-54 | a named file ending in neither `.pdf` nor `.txt` is refused as unsupported and no request is sent |
| Upload.EmptyTextSendsNothing | app.py:59-81 | a readable file with empty text sends no request and answers the empty message |
| Upload.SuccessSendsWholeText | app.py:59-71 | after a successful upload, every request starts with the preamble and carries the caller's conversation id. The chunks the requests carry are at most 2000 characters each and join back into exactly the file's text |

## Left out

- Flask routing, reading `request.files` and `request.form`, `jsonify`, CORS
  and `app.run` are web plumbing. The missing-file and empty-name checks are
  kept as error values. The conversation id is a parameter.
- HTTP status codes are left out. Errors are instead kept apart by kind:
  missing file, empty name, unreadable or unsupported file, remote failure.
- Loading `.env` and building the global headers read the environment. The
  bot id is a parameter, and the API key and URL are not modelled.
- `requests.post`, `raise_for_status` and `response.json()` are network
  calls. They are one abstract service function returning a reply or a
  failure message.
- Relay.RelayChunks: the failure text is "Erro ao se comunicar com o
  Chatbase: " plus the failure's description; the suffix with the raw
  response body (app.py:77-78) is not modelled. When the very first request
  raises, `response` is unbound, so `if response:` raises an uncaught
  error and the caller gets a generic server error instead of this text.
  When `requests.post` itself raises for a later chunk, `response` still
  holds the previous chunk's reply, so the suffix carries that earlier
  chunk's body.
- A reply body without a `response` key raises an error the handler does not
  catch. The model treats every reply the service function accepts as
  carrying a reply text.
- PyPDF2 parsing and `page.extract_text()` are foreign code. The parser is a
  function from bytes to per-page texts or a failure. A failure partway
  through the pages counts as a failure of the whole parse.
- Real UTF-8 decoding is foreign code. The decoder is a function from bytes
  to a text or a failure.
- Timeouts and retries of the remote call are not modelled, because the code
  has neither.
