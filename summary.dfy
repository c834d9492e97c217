/**
 * The per-chunk summary loop (`showTextSummary`): each chunk of the text gets the
 * tl;dr tag, is wrapped in a fixed instruction and the answer language, and is sent
 * as one chat-completion request; each answer is emitted as it arrives. The first
 * failure ends the loop: what was emitted stays emitted, later chunks are not sent.
 *
 * The completion service is a caller-supplied sequence of outcomes, the j-th being
 * the outcome of the j-th request; the model-list call that precedes the loop is a
 * single caller-supplied success flag.
 */
module Summary {
  import opened Common
  import Chunking

  const TlDrTag := "\n tl;dr:"
  const Instruction := "Analyse and Summarize following YouTube Transscript. Keep the answer short and concise. As the transcript texts normally are longer as allowed by ChatGPT it's splittet in chunks of 1000 characters and the prompt is send for each iteration. Respond \"Unsure about answer\" if not sure about the answer. Reply in "
  const ModelName := "gpt-3.5-turbo"
  const SystemMessage := "You are an AI research assistant. You use a tone that is technical and scientific and the respone grammatically correct in bulletpoint sentances"

  /** The outcome of one completion request: the answer's content, or an exception. */
  datatype Completion = Ok(content: string) | Fail

  /** One chat-completion request: the model, the system message and the user prompt. */
  datatype Request = Request(model: string, system: string, user: string)

  /** What a run did: the requests it issued, the answers it emitted, and whether the handler stopped it. */
  datatype Trace = Trace(requests: seq<Request>, emitted: seq<string>, aborted: bool)

  /** The user prompt for one chunk (the tl;dr tag is appended to the chunk first). */
  function UserPrompt(lang: string, chunk: string): (p: string)
    ensures |p| == |Instruction| + |lang| + 2 + |chunk| + |TlDrTag|
  {
    Instruction + lang + ": " + (chunk + TlDrTag)
  }

  /**
   * The prompt is the instruction, the language, ": ", the chunk unmodified,
   * then the tl;dr tag.
   */
  lemma PromptShape(lang: string, chunk: string)
    ensures var p := UserPrompt(lang, chunk);
      && |p| == |Instruction| + |lang| + 2 + |chunk| + |TlDrTag|
      && p[..|Instruction|] == Instruction
      && p[|Instruction|..|Instruction| + |lang|] == lang
      && p[|Instruction| + |lang|..|Instruction| + |lang| + 2] == ": "
      && p[|Instruction| + |lang| + 2..|p| - |TlDrTag|] == chunk
      && p[|p| - |TlDrTag|..] == TlDrTag
  {
  }

  /** For a fixed language, different chunks give different prompts: the chunk is recoverable from its prompt. */
  lemma PromptInjective(lang: string, c1: string, c2: string)
    requires UserPrompt(lang, c1) == UserPrompt(lang, c2)
    ensures c1 == c2
  {
    PromptShape(lang, c1);
    PromptShape(lang, c2);
    var p := UserPrompt(lang, c1);
    assert c1 == p[|Instruction| + |lang| + 2..|p| - |TlDrTag|];
  }

  /** The chat-completion request for one chunk. */
  function ChunkRequest(lang: string, chunk: string): (r: Request)
    ensures r.model == "gpt-3.5-turbo"
    ensures |r.user| == |Instruction| + |lang| + 2 + |chunk| + |TlDrTag|
  {
    Request(ModelName, SystemMessage, UserPrompt(lang, chunk))
  }

  /** The request for every chunk, in chunk order. */
  function Requests(lang: string, chunks: seq<string>): seq<Request>
  {
    seq(|chunks|, j requires 0 <= j < |chunks| => ChunkRequest(lang, chunks[j]))
  }

  /**
   * The loop, front to back: `requests` are sent one at a time and answered by
   * `replies`; a failed answer ends the loop. What is sent is a prefix of
   * `requests`, one longer than what is emitted when the loop was cut short.
   */
  function Feed(requests: seq<Request>, replies: seq<Completion>): (run: Trace)
    requires |requests| <= |replies|
    ensures run.requests <= requests
    ensures |run.emitted| <= |run.requests|
    ensures run.aborted ==> |run.requests| == |run.emitted| + 1
    ensures !run.aborted ==> |run.requests| == |run.emitted| == |requests|
  {
    if requests == [] then Trace([], [], false)
    else
      match replies[0]
      case Fail => Trace([requests[0]], [], true)
      case Ok(content) =>
        var rest := Feed(requests[1..], replies[1..]);
        Trace([requests[0]] + rest.requests, [content] + rest.emitted, rest.aborted)
  }

  /** `showTextSummary(text)` with the model-list outcome and the completion outcomes given. */
  function Summarize(text: Option<string>, lang: string, listed: bool, replies: seq<Completion>): (run: Trace)
    requires text.Some? ==> |Chunking.Chunks(text.value)| <= |replies|
    ensures text.None? ==> run.requests == [] && run.emitted == [] && !run.aborted
    ensures run.aborted <==>
      text.Some? && (!listed || exists j :: 0 <= j < |Chunking.Chunks(text.value)| && replies[j].Fail?)
    ensures |run.emitted| <= |run.requests|
  {
    match text
    case None => Trace([], [], false)
    case Some(t) =>
      if !listed then Trace([], [], true)
      else
        var requests := Requests(lang, Chunking.Chunks(t));
        FeedShape(requests, replies);
        assert FirstFailure(replies, |requests|) < |requests| ==> replies[FirstFailure(replies, |requests|)].Fail?;
        Feed(requests, replies)
  }

  /** The position of the first failed outcome among the first n, or n when all n succeed. */
  function FirstFailure(replies: seq<Completion>, n: nat): (f: nat)
    requires n <= |replies|
    ensures f <= n
    ensures forall j :: 0 <= j < f ==> replies[j].Ok?
    ensures f < n ==> replies[f].Fail?
  {
    if n == 0 || replies[0].Fail? then 0
    else 1 + FirstFailure(replies[1..], n - 1)
  }

  /**
   * The loop's effect: the requests up to and including the first failure are
   * sent, in order; the contents of the answers before it are emitted, in order;
   * the run is aborted exactly when some request failed.
   */
  lemma {:induction false} FeedShape(requests: seq<Request>, replies: seq<Completion>)
    requires |requests| <= |replies|
    ensures var f := FirstFailure(replies, |requests|);
      Feed(requests, replies).requests == requests[..if f < |requests| then f + 1 else |requests|]
    ensures |Feed(requests, replies).emitted| == FirstFailure(replies, |requests|)
    ensures forall j :: 0 <= j < |Feed(requests, replies).emitted| ==>
      Feed(requests, replies).emitted[j] == replies[j].content
    ensures Feed(requests, replies).aborted <==> FirstFailure(replies, |requests|) < |requests|
  {
    if requests != [] && replies[0].Ok? {
      var requests', replies' := requests[1..], replies[1..];
      FeedShape(requests', replies');
      var run, rest := Feed(requests, replies), Feed(requests', replies');
      var f' := FirstFailure(replies', |requests'|);
      assert FirstFailure(replies, |requests|) == 1 + f';
      var m := if f' < |requests'| then f' + 1 else |requests'|;
      assert run.requests == [requests[0]] + requests'[..m];
      assert [requests[0]] + requests'[..m] == requests[..m + 1];
      assert run.emitted == [replies[0].content] + rest.emitted;
      forall j | 0 < j < |run.emitted| ensures run.emitted[j] == replies[j].content {
        assert run.emitted[j] == rest.emitted[j - 1] && replies'[j - 1] == replies[j];
      }
    }
  }

  /** A None text issues no request and emits nothing; an empty text issues no request either. */
  lemma NothingToSummarize(lang: string, listed: bool, replies: seq<Completion>)
    ensures Summarize(None, lang, listed, replies) == Trace([], [], false)
    ensures listed ==> Summarize(Some(""), lang, listed, replies) == Trace([], [], false)
  {
  }

  /**
   * When every request succeeds, exactly one request is made per chunk, in chunk
   * order, and the answers are emitted in chunk order.
   */
  lemma AllSucceed(text: string, lang: string, replies: seq<Completion>)
    requires |Chunking.Chunks(text)| <= |replies|
    requires forall j :: 0 <= j < |Chunking.Chunks(text)| ==> replies[j].Ok?
    ensures var chunks, run := Chunking.Chunks(text), Summarize(Some(text), lang, true, replies);
      && run.requests == seq(|chunks|, j requires 0 <= j < |chunks| => ChunkRequest(lang, chunks[j]))
      && run.emitted == seq(|chunks|, j requires 0 <= j < |chunks| => replies[j].content)
      && !run.aborted
  {
    var requests := Requests(lang, Chunking.Chunks(text));
    FeedShape(requests, replies);
    assert requests[..|requests|] == requests;
  }

  /**
   * When the request for chunk k is the first to fail, the answers for chunks
   * 0..k-1 have been emitted, the request for chunk k was the last one made, and
   * the run is aborted.
   */
  lemma FailureStops(text: string, lang: string, replies: seq<Completion>, k: nat)
    requires |Chunking.Chunks(text)| <= |replies|
    requires k < |Chunking.Chunks(text)| && replies[k].Fail?
    requires forall j :: 0 <= j < k ==> replies[j].Ok?
    ensures var chunks, run := Chunking.Chunks(text), Summarize(Some(text), lang, true, replies);
      && run.requests == seq(k + 1, j requires 0 <= j <= k => ChunkRequest(lang, chunks[j]))
      && run.emitted == seq(k, j requires 0 <= j < k => replies[j].content)
      && run.aborted
  {
    var requests := Requests(lang, Chunking.Chunks(text));
    FeedShape(requests, replies);
  }

  /** A failed model listing stops the run before any completion request. */
  lemma ListingFails(text: string, lang: string, replies: seq<Completion>)
    requires |Chunking.Chunks(text)| <= |replies|
    ensures Summarize(Some(text), lang, false, replies) == Trace([], [], true)
  {
  }

  /**
   * Proof step for the loop: if the replies before position i all succeeded and
   * the loop ends at i (a failure there, or no request left), `Feed` sent the
   * requests up to i and emitted the first i answers.
   */
  lemma FeedUpTo(requests: seq<Request>, replies: seq<Completion>, i: nat)
    requires i <= |requests| <= |replies|
    requires forall j :: 0 <= j < i ==> replies[j].Ok?
    requires i == |requests| || replies[i].Fail?
    ensures Feed(requests, replies).requests == requests[..if i < |requests| then i + 1 else i]
    ensures |Feed(requests, replies).emitted| == i
    ensures forall j :: 0 <= j < i ==> Feed(requests, replies).emitted[j] == replies[j].content
    ensures Feed(requests, replies).aborted <==> i < |requests|
  {
    FeedShape(requests, replies);
  }

  /**
   * The `for chunk in string_chunks` loop of `showTextSummary`: one request per
   * chunk, each answer emitted as it arrives, cut short by the exception handler.
   */
  method RequestChunks(lang: string, chunks: seq<string>, replies: seq<Completion>) returns (run: Trace)
    requires |chunks| <= |replies|
    ensures run == Feed(Requests(lang, chunks), replies)
  {
    ghost var all := Requests(lang, chunks);
    var requests: seq<Request> := [];
    var emitted: seq<string> := [];
    var i := 0;
    while i < |chunks|
      invariant 0 <= i <= |chunks|
      invariant forall j :: 0 <= j < i ==> replies[j].Ok?
      invariant requests == all[..i]
      invariant |emitted| == i && forall j :: 0 <= j < i ==> emitted[j] == replies[j].content
    {
      var request := ChunkRequest(lang, chunks[i]);
      assert all[..i + 1] == all[..i] + [request];
      requests := requests + [request];
      if replies[i].Fail? {
        FeedUpTo(all, replies, i);
        assert emitted == Feed(all, replies).emitted;
        return Trace(requests, emitted, true);
      }
      emitted := emitted + [replies[i].content];
      i := i + 1;
    }
    FeedUpTo(all, replies, i);
    assert emitted == Feed(all, replies).emitted;
    run := Trace(requests, emitted, false);
  }

  /** `showTextSummary`: nothing for a None text, then the model listing, the chunking and the request loop. */
  method ShowTextSummary(text: Option<string>, lang: string, listed: bool, replies: seq<Completion>)
    returns (run: Trace)
    requires text.Some? ==> |Chunking.Chunks(text.value)| <= |replies|
    ensures run == Summarize(text, lang, listed, replies)
  {
    if text.None? {
      return Trace([], [], false);
    }
    if !listed {
      return Trace([], [], true);
    }
    var chunks := Chunking.Chunks(text.value);
    run := RequestChunks(lang, chunks, replies);
  }
}
