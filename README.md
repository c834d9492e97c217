# YouTube transcript summariser — verified model of its text logic

`YT_AI_Sum.py` fetches the transcript of a YouTube video and prints a ChatGPT
summary of it. Most of the script is glue around three foreign clients: the
transcript API, a TOML loader and the OpenAI client. This project models the
deterministic logic between those calls and proves what it does:

- **Argument lookup** (`get_arg`), module `Args`. The argument vector is an
  explicit `seq<string>`. The lookup ends in one of two ways: `Help`, where the
  script prints usage and exits, or `Value(v)`, where `v` is a string or None.
- **Transcript flattening** (`getTextFromYoutubeTranscript`), module `Transcript`.
  An accumulator loop appends `"-"` and then each segment's text. The fetch is
  not modelled: the method receives the segment texts.
- **Chunking** (the list comprehension in `showTextSummary`), module `Chunking`.
  The text is cut into consecutive, non-overlapping 1000-character slices. The
  slicing follows Python's rules: a slice is clipped at the end of the text.
- **The summary loop** (`showTextSummary`), module `Summary`. Each chunk gets the
  `"\n tl;dr:"` tag and is wrapped in a fixed instruction plus the answer
  language. It is then sent as one chat-completion request with the fixed model
  name and system message, and the answer is emitted. Any exception ends the
  loop: answers already emitted stay emitted, and later chunks are not sent.
  - The OpenAI service is a caller-supplied sequence of outcomes
    (`Ok(content) | Fail`); the j-th outcome answers the j-th request.
  - The `openai.Model.list()` call inside the same `try` is a caller-supplied
    success flag.
  - A run is described by a `Trace`: the requests issued, the answers emitted,
    and whether the exception handler stopped it.

Each imperative loop in the source is a Dafny method with loop invariants. It is
proved equal to a specification function (`Transcript.Dashed`, `Summary.Feed`).
Lemmas about those functions state the properties: order, coverage, lengths,
chunk count, one request per chunk, and the emitted prefix on failure.

What the script does, as modelled:
- The flattened transcript starts with a dash: three segments `Hello`, `world`
  and `today` give `"-Hello-world-today"`.
- Chunks are a fixed 1000 characters and do not overlap. The text is chunked
  exactly as given, with no whitespace or punctuation normalisation.
- Each chunk's answer is printed as soon as it arrives. There is no merge of the
  answers and no final reduction request.
- When a request fails, the answers already printed stay printed, and no later
  chunk is sent.

## Model

| member | source | states |
|---|---|---|
| `Args.IndexOf` | YT_AI_Sum.py:26 | `list.index`: None exactly when the name is absent; otherwise the position holds the name and no earlier position does |
| `Args.GetArg` | YT_AI_Sum.py:10-29 | Help exactly when `--help` is anywhere in argv. Otherwise: the word after the first occurrence of the name; or `default` when the name is absent or its first occurrence is the last word |
| `Transcript.Dashed` | YT_AI_Sum.py:42-47 | the flattened text: `""` exactly when there are no segments; otherwise it starts with a dash; it holds at least one character per segment |
| `Transcript.TextFromTranscript` | YT_AI_Sum.py:42-47 | the accumulator loop returns exactly `Dashed(segments)`, which is `"-" + t1 + ... + "-" + tn` |
| `Transcript.DashedLength` | YT_AI_Sum.py:42-47 | the flattened length is the segment count plus the total segment length; the result is `""` exactly when there are no segments |
| `Transcript.DashedAppend` | YT_AI_Sum.py:43-45 | flattening a concatenation of segment lists gives the two flattened texts in order |
| `Transcript.DashedIsConcat` | YT_AI_Sum.py:42-47 | the flattened text equals the concatenation of the dash-prefixed segments, in source order |
| `Transcript.SegmentAt` | YT_AI_Sum.py:43-45 | segment k appears unmodified, right after a dash, at offset k + (total length of segments 0..k-1); nothing is dropped or reordered |
| `Transcript.ThreeSegments` | YT_AI_Sum.py:42-47 | `["Hello","world","today"]` flattens to `"-Hello-world-today"` |
| `Chunking.Slice` | YT_AI_Sum.py:59 | Python slice `t[i:j]`: its length is the clipped bounds' difference (0 when empty), and character k is `t[i+k]` |
| `Chunking.Starts` | YT_AI_Sum.py:59 | `range(0, n, 1000)`: element j is 1000·j, and the members are exactly the multiples of 1000 below n |
| `Chunking.Chunks` | YT_AI_Sum.py:59 | every chunk is non-empty and at most 1000 characters long |
| `Chunking.ChunkAt` | YT_AI_Sum.py:59 | chunk k starts inside the text and equals text[1000k .. min(1000(k+1), \|text\|)]; every chunk but the last has exactly 1000 characters |
| `Chunking.ChunkCount` | YT_AI_Sum.py:59 | the chunk count n satisfies \|text\| ≤ 1000·n < \|text\| + 1000, i.e. n = ceil(\|text\|/1000); there are no chunks exactly when the text is empty |
| `Chunking.PrefixCover` | YT_AI_Sum.py:59 | the first j chunks, joined, are the first min(1000j, \|text\|) characters of the text |
| `Chunking.ChunksCover` | YT_AI_Sum.py:59 | joining the chunks in order gives back the text exactly: no gap, no overlap, nothing altered |
| `Summary.UserPrompt` | YT_AI_Sum.py:55-64 | the prompt's length is the instruction's, plus the language's, plus 2 for `": "`, plus the chunk's, plus the tl;dr tag's |
| `Summary.PromptShape` | YT_AI_Sum.py:55-64 | the prompt is the instruction, then the language, then `": "`, then the chunk unmodified, then `"\n tl;dr:"`, and its length is the sum of those parts |
| `Summary.PromptInjective` | YT_AI_Sum.py:63-64 | for one language, equal prompts come from equal chunks |
| `Summary.ChunkRequest` | YT_AI_Sum.py:63-75 | the request for one chunk names the model `gpt-3.5-turbo`, and its user message is as long as the prompt for that chunk |
| `Summary.Feed` | YT_AI_Sum.py:62-83 | the loop over the per-chunk requests (`Requests`: one `ChunkRequest` per chunk, in chunk order). What is sent is a prefix of those requests, and at least as long as what is emitted. An aborted run sent exactly one request more than it emitted. A run that was not aborted sent every request and emitted one answer per request |
| `Summary.Summarize` | YT_AI_Sum.py:50-83 | a None text sends nothing, emits nothing and is not aborted. The run is aborted exactly when the text is present and either the model listing failed or some chunk's request failed. Never more answers than requests |
| `Summary.FirstFailure` | YT_AI_Sum.py:62-83 | the position of the first failed outcome among the first n: every earlier outcome succeeded, and the one at that position failed (or it is n) |
| `Summary.FeedShape` | YT_AI_Sum.py:62-83 | the loop issues one request per chunk, in chunk order, up to and including the first failure. It emits the answers before that failure, in order. It is aborted exactly when some chunk's request failed |
| `Summary.FeedUpTo` | YT_AI_Sum.py:62-83 | proof step for the loop: if every reply before position i succeeded and the loop stops at i (a failure there, or no request left), the requests up to i were sent and the first i answers emitted |
| `Summary.NothingToSummarize` | YT_AI_Sum.py:51-59 | a None text issues no request, emits nothing and is not aborted; so does an empty text once the model list succeeded |
| `Summary.ListingFails` | YT_AI_Sum.py:53-56 | a failed model listing stops the run before any completion request is issued |
| `Summary.AllSucceed` | YT_AI_Sum.py:62-78 | with no failure, exactly one request per chunk is issued, in chunk order; every answer is emitted in chunk order; the run is not aborted |
| `Summary.FailureStops` | YT_AI_Sum.py:62-83 | if chunk k's request is the first to fail, the answers for chunks 0..k-1 were emitted, no chunk after k was requested, and the run is aborted |
| `Summary.RequestChunks` | YT_AI_Sum.py:62-83 | the `for chunk in string_chunks` loop, with its early return from the exception handler, produces exactly the trace `Feed` gives for the chunks' requests |
| `Summary.ShowTextSummary` | YT_AI_Sum.py:50-83 | the whole function (None check, model listing, chunking, request loop) produces exactly the trace `Summarize` specifies |

## Left out

- The transcript fetch (`YouTubeTranscriptApi.get_transcript`), its error message and `sys.exit(1)`: foreign network call. The flattening receives the segment texts.
- `openai.Model.list()` and `openai.ChatCompletion.create`: foreign network calls. They are replaced by a success flag and a sequence of outcomes. An exception raised while reading `response['choices'][0]['message']['content']` counts as a `Fail` outcome.
- Printing: the usage text, the error messages and the exception text. Emitted answers appear in the trace; the exception text does not.
- `sys.exit` in `get_arg`: modelled as the `Help` outcome.
- Reading `openai.toml` and setting the API key and organisation: file I/O and global library state.
- The module-level wiring: reading `--lang` (default "English") and `--videoid`, exiting when the id is missing, and calling the two functions. The answer language is a parameter of the summary model.
- `Summary.Summarize`, `Summary.ShowTextSummary`, `Summary.Feed` and `Summary.RequestChunks` require at least one outcome per chunk. The real service always answers or raises, so this only sizes the stand-in for the network.
