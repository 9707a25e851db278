/**
 * The chunked summarisation pipeline `summarize_large_text` (app.py:41-58)
 * and the question adapter `answer_question_with_context` (app.py:60-81).
 *
 * The remote model is a `Remote`: the response it gives to each attempt of
 * each call, and the reading of the generated text out of an ok body
 * (`response_json["candidates"][0]["content"]["parts"][0]["text"]`). The
 * pipeline itself is stated over an `Api`, the outcome of each whole call,
 * and `GeminiApi` plugs the retry loop of `call_gemini_api` into it.
 */
module Summarizer {
  import opened Common
  import opened Chunker
  import opened ApiClient
  import opened Prompts

  /**
   * The remote model. `respond(call, payload, attempt)` is the response to
   * attempt `attempt` of the `call`-th API call of the current action, whose
   * request body is `payload`; `textOf` reads the generated text out of an
   * ok body.
   */
  datatype Remote = Remote(respond: (nat, Payload, nat) -> Response, textOf: string -> string)

  /** The transport seen by the `call`-th API call, which posts `payload`. */
  function PostFor(remote: Remote, call: nat, payload: Payload): Transport {
    (attempt: nat) => remote.respond(call, payload, attempt)
  }

  /**
   * The API as the pipeline sees it: `call(n, payload)` is how the `n`-th
   * call of the action, posting `payload`, ends; `textOf` reads the
   * generated text out of a returned body.
   */
  datatype Api = Api(call: (nat, Payload) -> CallOutcome, textOf: string -> string)

  /** Every call goes through `call_gemini_api` with its default retries (app.py:55). */
  function GeminiApi(remote: Remote): Api {
    Api((n: nat, payload: Payload) => CallGeminiApi(PostFor(remote, n, payload), DefaultRetries), remote.textOf)
  }

  /**
   * Through `call_gemini_api`, the `n`-th call of an action returns exactly
   * when one of its first five attempts gets an ok response, and then with
   * the body of the first such response.
   */
  lemma GeminiCall(remote: Remote, n: nat, payload: Payload)
    ensures var c := GeminiApi(remote).call(n, payload);
      && (c.Returned? <==> exists k | 0 <= k < DefaultRetries :: IsOk(remote.respond(n, payload, k)))
      && (c.Returned? ==> exists k | 0 <= k < DefaultRetries ::
            FirstOkAt(PostFor(remote, n, payload), k) && c.body == remote.respond(n, payload, k).body)
  {
    var post := PostFor(remote, n, payload);
    var c := CallGeminiApi(post, DefaultRetries);
    assert GeminiApi(remote).call(n, payload) == c;
    if c.Returned? {
      assert FirstOkAt(post, c.attempts - 1);
    }
  }

  /** The call for chunk `j` is the `j`-th call of the action, posting that chunk's request. */
  lemma GeminiChunkCall(remote: Remote, build: string -> Payload, chunks: seq<string>, j: nat)
    requires j < |chunks|
    ensures var c := ChunkCall(GeminiApi(remote), build, chunks, j);
      && (c.Returned? <==> exists k | 0 <= k < DefaultRetries :: IsOk(remote.respond(j, build(chunks[j]), k)))
      && (c.Returned? ==> exists k | 0 <= k < DefaultRetries ::
            FirstOkAt(PostFor(remote, j, build(chunks[j])), k)
            && c.body == remote.respond(j, build(chunks[j]), k).body)
  {
    GeminiCall(remote, j, build(chunks[j]));
  }

  /** The blank line between chunk summaries (app.py:58). */
  const FragmentSeparator: string := "\n\n"

  /** The API call made for chunk `i`, posting the payload `build` makes of it. */
  function ChunkCall(api: Api, build: string -> Payload, chunks: seq<string>, i: nat): CallOutcome
    requires i < |chunks|
  {
    api.call(i, build(chunks[i]))
  }

  /** The chunk loop: either every call returned, or a call failed terminally and the loop stopped there. */
  datatype ChunkRun =
    | AllReturned(fragments: seq<string>, calls: seq<Payload>)
    | StoppedAt(lastBody: string, calls: seq<Payload>)

  /**
   * The loop of app.py:44-57 from chunk `i` on. It completes exactly when
   * every call returns, and then holds one call and one fragment per chunk,
   * the fragment of chunk `i + j` at position `j`.
   */
  function SummarizeFrom(api: Api, build: string -> Payload, chunks: seq<string>, i: nat): (r: ChunkRun)
    requires i <= |chunks|
    ensures |r.calls| <= |chunks| - i
    ensures r.AllReturned? <==> forall j | i <= j < |chunks| :: ChunkCall(api, build, chunks, j).Returned?
    ensures r.AllReturned? ==>
      && |r.calls| == |chunks| - i
      && |r.fragments| == |chunks| - i
      && forall j | 0 <= j < |r.fragments| :: r.fragments[j] == api.textOf(ChunkCall(api, build, chunks, i + j).body)
    decreases |chunks| - i
  {
    if i == |chunks| then AllReturned([], [])
    else
      var payload := build(chunks[i]);
      match ChunkCall(api, build, chunks, i)
      case Exhausted(last, _, _) => StoppedAt(last, [payload])
      case Returned(body, _, _) =>
        match SummarizeFrom(api, build, chunks, i + 1)
        case AllReturned(fragments, calls) => AllReturned([api.textOf(body)] + fragments, [payload] + calls)
        case StoppedAt(last, calls) => StoppedAt(last, [payload] + calls)
  }

  /** The `j`-th call of the loop from chunk `i` posts the prompt of chunk `i + j`. */
  lemma {:induction false} CallsFollowChunkOrder(api: Api, build: string -> Payload, chunks: seq<string>, i: nat)
    requires i <= |chunks|
    ensures forall j | 0 <= j < |SummarizeFrom(api, build, chunks, i).calls| ::
      SummarizeFrom(api, build, chunks, i).calls[j] == build(chunks[i + j])
    decreases |chunks| - i
  {
    if i < |chunks| && ChunkCall(api, build, chunks, i).Returned? {
      CallsFollowChunkOrder(api, build, chunks, i + 1);
      var rest := SummarizeFrom(api, build, chunks, i + 1);
      var r := SummarizeFrom(api, build, chunks, i);
      assert r.calls == [build(chunks[i])] + rest.calls;
      forall j | 1 <= j < |r.calls|
        ensures r.calls[j] == build(chunks[i + j])
      {
        assert r.calls[j] == rest.calls[j - 1];
        assert rest.calls[j - 1] == build(chunks[i + 1 + (j - 1)]);
        assert i + 1 + (j - 1) == i + j;
      }
    }
  }

  /**
   * A loop that stops, stops at its last call: that call failed terminally
   * and reported the body the loop stops with, and every earlier call returned.
   */
  lemma {:induction false} StopsAtFirstFailure(api: Api, build: string -> Payload, chunks: seq<string>, i: nat)
    requires i <= |chunks|
    ensures var r := SummarizeFrom(api, build, chunks, i);
      r.StoppedAt? ==>
        && 0 < |r.calls|
        && ChunkCall(api, build, chunks, i + |r.calls| - 1).Exhausted?
        && r.lastBody == ChunkCall(api, build, chunks, i + |r.calls| - 1).lastBody
        && forall j | i <= j < i + |r.calls| - 1 :: ChunkCall(api, build, chunks, j).Returned?
    decreases |chunks| - i
  {
    if i < |chunks| && ChunkCall(api, build, chunks, i).Returned? {
      StopsAtFirstFailure(api, build, chunks, i + 1);
    }
  }

  /** How a summarisation ended. `Halted` is the `st.stop()` after a terminal API failure. */
  datatype SummaryOutcome =
    | Summarized(summary: string, calls: seq<Payload>)
    | Halted(lastBody: string, calls: seq<Payload>)
    | BadChunkSize

  /** The chunks `summarize_large_text` works on, for a chunk size it accepts. */
  function ChunksFor(text: string, chunkSize: int): seq<string>
    requires chunkSize != 0
  {
    SplitTextByTokens(text, chunkSize).value
  }

  /** The per-chunk request of the chosen language (app.py:45-54). */
  function ChunkRequest(langChoice: string): string -> Payload {
    (chunk: string) => ChunkPayload(LanguageOf(langChoice), chunk)
  }

  /** The generated text of each chunk's call, in chunk order, when every call returned. */
  function Fragments(api: Api, build: string -> Payload, chunks: seq<string>): (r: seq<string>)
    requires forall j | 0 <= j < |chunks| :: ChunkCall(api, build, chunks, j).Returned?
    ensures |r| == |chunks|
    ensures forall j | 0 <= j < |chunks| :: r[j] == api.textOf(ChunkCall(api, build, chunks, j).body)
  {
    seq(|chunks|, j requires 0 <= j < |chunks| => api.textOf(ChunkCall(api, build, chunks, j).body))
  }

  /**
   * The loop of app.py:43-58 over given chunks: one call per chunk, in
   * order; a summary exactly when every call returns, made of their
   * fragments joined by a blank line; otherwise a halt at the first call
   * that fails terminally, with that call's last body.
   */
  function SummarizeChunks(api: Api, build: string -> Payload, chunks: seq<string>): (r: SummaryOutcome)
    ensures !r.BadChunkSize?
    ensures |r.calls| <= |chunks|
    ensures forall j | 0 <= j < |r.calls| :: r.calls[j] == build(chunks[j])
    ensures r.Summarized? <==> forall j | 0 <= j < |chunks| :: ChunkCall(api, build, chunks, j).Returned?
    ensures r.Summarized? ==>
      |r.calls| == |chunks| && r.summary == Join(Fragments(api, build, chunks), FragmentSeparator)
    ensures r.Halted? ==>
      && 0 < |r.calls|
      && ChunkCall(api, build, chunks, |r.calls| - 1).Exhausted?
      && r.lastBody == ChunkCall(api, build, chunks, |r.calls| - 1).lastBody
      && forall j | 0 <= j < |r.calls| - 1 :: ChunkCall(api, build, chunks, j).Returned?
  {
    CallsFollowChunkOrder(api, build, chunks, 0);
    StopsAtFirstFailure(api, build, chunks, 0);
    match SummarizeFrom(api, build, chunks, 0)
    case AllReturned(fragments, calls) =>
      assert fragments == Fragments(api, build, chunks);
      Summarized(Join(fragments, FragmentSeparator), calls)
    case StoppedAt(last, calls) => Halted(last, calls)
  }

  /**
   * `summarize_large_text(text, lang, chunk_size)`. A zero chunk size raises
   * in the chunker, and a negative one gives no chunks and so "". Otherwise
   * one call is made per chunk, in order, each posting the language's
   * instruction followed by the chunk; the result is a summary exactly when
   * every call returns, and then it is their fragments in chunk order joined
   * by a blank line; otherwise the first call that fails terminally ends the
   * run, no summary is produced and that call's last body is reported.
   */
  function SummarizeLargeText(text: string, langChoice: string, chunkSize: int, api: Api): (r: SummaryOutcome)
    ensures r.BadChunkSize? <==> chunkSize == 0
    ensures chunkSize < 0 ==> r == Summarized("", [])
    ensures chunkSize != 0 ==>
      var chunks := ChunksFor(text, chunkSize);
      var build := ChunkRequest(langChoice);
      && |r.calls| <= |chunks|
      && (forall j | 0 <= j < |r.calls| :: r.calls[j] == build(chunks[j]))
      && (r.Summarized? <==> forall j | 0 <= j < |chunks| :: ChunkCall(api, build, chunks, j).Returned?)
      && (r.Summarized? ==>
            |r.calls| == |chunks| && r.summary == Join(Fragments(api, build, chunks), FragmentSeparator))
      && (r.Halted? ==>
            && 0 < |r.calls|
            && ChunkCall(api, build, chunks, |r.calls| - 1).Exhausted?
            && r.lastBody == ChunkCall(api, build, chunks, |r.calls| - 1).lastBody
            && forall j | 0 <= j < |r.calls| - 1 :: ChunkCall(api, build, chunks, j).Returned?)
  {
    match SplitTextByTokens(text, chunkSize)
    case Failure(_) => BadChunkSize
    case Success(chunks) => SummarizeChunks(api, ChunkRequest(langChoice), chunks)
  }

  /** Empty text is summarised to "" with no API call at all. */
  lemma EmptyTextNeedsNoCalls(langChoice: string, chunkSize: int, api: Api)
    requires chunkSize != 0
    ensures SummarizeLargeText("", langChoice, chunkSize, api) == Summarized("", [])
  {
    EmptyTextHasNoChunks(chunkSize);
  }

  /**
   * Each prompt of a summarisation is the language's instruction followed
   * by its chunk verbatim, and the prompts of a completed summarisation
   * carry the whole text: reading the chunks back out of them and writing
   * them one after another gives the input text.
   */
  lemma PromptsCoverText(text: string, langChoice: string, chunkSize: int, api: Api)
    requires chunkSize > 0
    requires SummarizeLargeText(text, langChoice, chunkSize, api).Summarized?
    ensures var calls := SummarizeLargeText(text, langChoice, chunkSize, api).calls;
      var lang := LanguageOf(langChoice);
      && (forall j | 0 <= j < |calls| :: ChunkOfPrompt(lang, calls[j].prompt).Some?)
      && Concat(seq(|calls|, j requires 0 <= j < |calls| => ChunkOfPrompt(lang, calls[j].prompt).value)) == text
  {
    var calls := SummarizeLargeText(text, langChoice, chunkSize, api).calls;
    var lang := LanguageOf(langChoice);
    var chunks := ChunksFor(text, chunkSize);
    forall j | 0 <= j < |calls|
      ensures ChunkOfPrompt(lang, calls[j].prompt) == Some(chunks[j])
    {
      assert calls[j] == ChunkRequest(langChoice)(chunks[j]);
      ChunkPromptRoundTrip(lang, chunks[j]);
    }
    assert seq(|calls|, j requires 0 <= j < |calls| => ChunkOfPrompt(lang, calls[j].prompt).value) == chunks;
  }

  /**
   * A 1000-character text at a budget of 100 tokens is summarised with
   * three calls, and a completed summary is the three fragments, in chunk
   * order, separated by blank lines.
   */
  lemma ThreeChunksGiveThreeSegments(text: string, langChoice: string, api: Api)
    requires |text| == 1000
    requires SummarizeLargeText(text, langChoice, 100, api).Summarized?
    ensures var r := SummarizeLargeText(text, langChoice, 100, api);
      var chunks := ChunksFor(text, 100);
      var build := ChunkRequest(langChoice);
      && |r.calls| == 3
      && r.summary == api.textOf(ChunkCall(api, build, chunks, 0).body) + FragmentSeparator
                    + api.textOf(ChunkCall(api, build, chunks, 1).body) + FragmentSeparator
                    + api.textOf(ChunkCall(api, build, chunks, 2).body)
  {
    ThousandCharactersMakeThreeChunks(text);
    var chunks := ChunksFor(text, 100);
    var build := ChunkRequest(langChoice);
    var fragments := Fragments(api, build, chunks);
    var sep := FragmentSeparator;
    assert |fragments| == 3;
    assert fragments[1..][1..] == [fragments[2]];
    assert Join(fragments[1..], sep) == fragments[1] + sep + fragments[2];
    assert Join(fragments, sep) == fragments[0] + sep + (fragments[1] + sep + fragments[2]);
  }

  /** How a question ended: the answer text, or the halt after a terminal API failure. */
  datatype AnswerOutcome =
    | Answered(answer: string, request: Payload)
    | AnswerHalted(lastBody: string, request: Payload)

  /**
   * `answer_question_with_context(summary_text, question, lang)`: one call
   * whose request holds `summary_text[:2000]` and the question verbatim and
   * asks for at most 300 output tokens; it answers exactly when some attempt
   * is ok, with the text of the first ok response.
   */
  function AnswerQuestionWithContext(summary: string, question: string, langChoice: string, remote: Remote): (r: AnswerOutcome)
    ensures r.request.generation == Some(GenerationConfig(AnswerMaxOutputTokens))
    ensures EmbedsContextAndQuestion(r.request.prompt, LanguageOf(langChoice), summary, question)
    ensures r.Answered? <==> exists k | 0 <= k < DefaultRetries :: IsOk(remote.respond(0, r.request, k))
    ensures r.Answered? ==> exists k | 0 <= k < DefaultRetries ::
      && FirstOkAt(PostFor(remote, 0, r.request), k)
      && r.answer == remote.textOf(remote.respond(0, r.request, k).body)
  {
    var request := QuestionPayload(LanguageOf(langChoice), summary, question);
    GeminiCall(remote, 0, request);
    match GeminiApi(remote).call(0, request)
    case Returned(body, _, _) => Answered(remote.textOf(body), request)
    case Exhausted(last, _, _) => AnswerHalted(last, request)
  }
}
