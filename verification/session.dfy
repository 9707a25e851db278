/**
 * The session state kept across reruns of the page (app.py:114-123, 131,
 * 149, 167) and one run of the page script over it.
 *
 * The state maps three keys; a key may be absent until the initialisation
 * block sets it. One run is driven by an `Interaction`: whether the
 * "Clear Chat" button was pressed, the text extracted from an uploaded PDF
 * if one is present, the chat input if one was sent, and the sidebar
 * settings.
 */
module Session {
  import opened Common
  import opened Sections
  import opened Prompts
  import opened Summarizer

  /** A key of the session state: absent, or present with a value (which may be `None`). */
  datatype Slot<T> = Absent | Present(value: T)

  datatype Role = User | Assistant

  /** One chat history entry, the tuple `(role, message)`. */
  datatype ChatEntry = ChatEntry(role: Role, message: string)

  datatype SessionState = SessionState(
    paperText: Slot<Option<string>>,
    summary: Slot<Option<string>>,
    chatHistory: Slot<seq<ChatEntry>>)

  /** Every key is set. */
  predicate Initialized(s: SessionState) {
    s.paperText.Present? && s.summary.Present? && s.chatHistory.Present?
  }

  /** "Clear Chat" empties the history and leaves the paper and its summary alone (app.py:114-115). */
  function ClearChat(s: SessionState): (r: SessionState)
    ensures r.chatHistory == Present([])
    ensures r.paperText == s.paperText && r.summary == s.summary
  {
    s.(chatHistory := Present([]))
  }

  /**
   * The initialisation block (app.py:118-123): each absent key gets its
   * default (`None`, `None`, `[]`); a key already set keeps its value.
   */
  function InitDefaults(s: SessionState): (r: SessionState)
    ensures Initialized(r)
    ensures s.paperText.Present? ==> r.paperText == s.paperText
    ensures s.summary.Present? ==> r.summary == s.summary
    ensures s.chatHistory.Present? ==> r.chatHistory == s.chatHistory
    ensures s.paperText.Absent? ==> r.paperText == Present(None)
    ensures s.summary.Absent? ==> r.summary == Present(None)
    ensures s.chatHistory.Absent? ==> r.chatHistory == Present([])
  {
    var paper := if s.paperText.Absent? then Present(None) else s.paperText;
    var summary := if s.summary.Absent? then Present(None) else s.summary;
    var history := if s.chatHistory.Absent? then Present([]) else s.chatHistory;
    SessionState(paper, summary, history)
  }

  /** Initialising twice is initialising once, and an initialised state is left as it is. */
  lemma InitIsIdempotent(s: SessionState)
    ensures InitDefaults(InitDefaults(s)) == InitDefaults(s)
    ensures Initialized(s) ==> InitDefaults(s) == s
  {
  }

  /** Storing the extracted text of a new upload (app.py:131). */
  function RecordPaper(s: SessionState, text: string): (r: SessionState)
    ensures r.paperText == Present(Some(text))
    ensures r.summary == s.summary && r.chatHistory == s.chatHistory
  {
    s.(paperText := Present(Some(text)))
  }

  /** Storing a fresh summary (app.py:149). */
  function RecordSummary(s: SessionState, summary: string): (r: SessionState)
    ensures r.summary == Present(Some(summary))
    ensures r.paperText == s.paperText && r.chatHistory == s.chatHistory
  {
    s.(summary := Present(Some(summary)))
  }

  /**
   * Sending a message appends `("User", prompt)` after the existing entries
   * (app.py:167); the earlier entries, the paper and the summary are kept.
   */
  function AppendUserMessage(s: SessionState, prompt: string): (r: SessionState)
    requires s.chatHistory.Present?
    ensures r.chatHistory.Present?
    ensures |r.chatHistory.value| == |s.chatHistory.value| + 1
    ensures r.chatHistory.value[..|s.chatHistory.value|] == s.chatHistory.value
    ensures r.chatHistory.value[|s.chatHistory.value|] == ChatEntry(User, prompt)
    ensures r.paperText == s.paperText && r.summary == s.summary
  {
    var history := s.chatHistory.value + [ChatEntry(User, prompt)];
    assert history[..|s.chatHistory.value|] == s.chatHistory.value;
    s.(chatHistory := Present(history))
  }

  /** What happened in one run of the page. */
  datatype Interaction = Interaction(
    clearChat: bool,
    upload: Option<string>,
    chatInput: Option<string>,
    langChoice: string,
    chunkSize: int)

  /**
   * A run either reaches its end or is stopped (`st.stop()`, or the error a
   * zero chunk size raises) with the state it had then.
   */
  datatype RunResult = Completed(state: SessionState) | Stopped(state: SessionState)

  /**
   * The state-changing steps of one run: the "Clear Chat" button, the
   * initialisation block, the upload branch (store the paper, summarise
   * the selected section, store the summary) and the chat input.
   */
  function RunPage(s: SessionState, ev: Interaction, api: Api): (r: RunResult)
    ensures Initialized(r.state)
    ensures r.Stopped? <==>
      ev.upload.Some? && !SummarizeLargeText(SelectSection(ev.upload.value), ev.langChoice, ev.chunkSize, api).Summarized?
  {
    var cleared := if ev.clearChat then ClearChat(s) else s;
    var ready := InitDefaults(cleared);
    var uploaded :=
      match ev.upload
      case None => Completed(ready)
      case Some(text) =>
        var withPaper := RecordPaper(ready, text);
        match SummarizeLargeText(SelectSection(text), ev.langChoice, ev.chunkSize, api)
        case Summarized(summary, _) => Completed(RecordSummary(withPaper, summary))
        case Halted(_, _) => Stopped(withPaper)
        case BadChunkSize => Stopped(withPaper);
    match uploaded
    case Stopped(_) => uploaded
    case Completed(state) =>
      match ev.chatInput
      case Some(prompt) =>
        if prompt != "" then Completed(AppendUserMessage(state, prompt)) else uploaded
      case None => uploaded
  }

  /** The history a run starts from, once the button and the initialisation block have acted. */
  function HistoryBefore(s: SessionState, ev: Interaction): seq<ChatEntry> {
    InitDefaults(if ev.clearChat then ClearChat(s) else s).chatHistory.value
  }

  /**
   * One run leaves every key set. The history is the earlier one (emptied
   * if the button was pressed), with `("User", prompt)` appended when a
   * non-empty message was sent and the run was not stopped. Without an
   * upload the paper and summary are untouched; with one, the paper is
   * replaced by the new text, and the summary is replaced by the summary of
   * the selected section exactly when that summarisation completes.
   */
  lemma RunPageEffect(s: SessionState, ev: Interaction, api: Api)
    ensures var r := RunPage(s, ev, api);
      var ready := InitDefaults(if ev.clearChat then ClearChat(s) else s);
      && Initialized(r.state)
      && (r.Completed? && ev.chatInput.Some? && ev.chatInput.value != "" ==>
            r.state.chatHistory.value == HistoryBefore(s, ev) + [ChatEntry(User, ev.chatInput.value)])
      && (!(r.Completed? && ev.chatInput.Some? && ev.chatInput.value != "") ==>
            r.state.chatHistory.value == HistoryBefore(s, ev))
      && (ev.upload.None? ==>
            r.Completed? && r.state.paperText == ready.paperText && r.state.summary == ready.summary)
      && (ev.upload.Some? ==>
            var outcome := SummarizeLargeText(SelectSection(ev.upload.value), ev.langChoice, ev.chunkSize, api);
            && r.state.paperText == Present(Some(ev.upload.value))
            && (r.Completed? <==> outcome.Summarized?)
            && (outcome.Summarized? ==> r.state.summary == Present(Some(outcome.summary)))
            && (!outcome.Summarized? ==> r.state.summary == ready.summary))
  {
  }

  /** Pressing "Clear Chat" and sending nothing leaves an empty history and keeps the paper and summary. */
  lemma ClearChatRunEmptiesHistory(s: SessionState, ev: Interaction, api: Api)
    requires ev.clearChat && ev.upload.None? && ev.chatInput.None?
    ensures RunPage(s, ev, api) == Completed(InitDefaults(s).(chatHistory := Present([])))
    ensures Initialized(s) ==>
      RunPage(s, ev, api).state == SessionState(s.paperText, s.summary, Present([]))
  {
  }

  /**
   * A sequence of runs, the `k`-th of which sees the network as `apis[k]`;
   * a stopped run's state is where the next run starts.
   */
  function RunAll(s: SessionState, evs: seq<Interaction>, apis: seq<Api>): SessionState
    requires |apis| == |evs|
    decreases |evs|
  {
    if |evs| == 0 then s else RunAll(RunPage(s, evs[0], apis[0]).state, evs[1..], apis[1..])
  }

  /**
   * The chat history only grows while "Clear Chat" is not pressed: the
   * entries present before a sequence of runs are, in order, the first
   * entries afterwards, whatever the network answers in each run.
   */
  lemma {:induction false} HistoryIsAppendOnly(s: SessionState, evs: seq<Interaction>, apis: seq<Api>)
    requires |apis| == |evs|
    requires s.chatHistory.Present?
    requires forall k | 0 <= k < |evs| :: !evs[k].clearChat
    ensures RunAll(s, evs, apis).chatHistory.Present?
    ensures s.chatHistory.value <= RunAll(s, evs, apis).chatHistory.value
    decreases |evs|
  {
    if |evs| > 0 {
      var next := RunPage(s, evs[0], apis[0]).state;
      RunPageEffect(s, evs[0], apis[0]);
      assert s.chatHistory.value <= next.chatHistory.value;
      HistoryIsAppendOnly(next, evs[1..], apis[1..]);
    }
  }

  /**
   * When every API call fails terminally, an upload records the new paper,
   * and then either halts and keeps the summary of the previous paper (so
   * the session holds a summary that was not made from its paper), or, when
   * the selected section is empty, completes with an empty summary.
   */
  lemma HaltedUploadKeepsOldSummary(s: SessionState, ev: Interaction, api: Api, oldSummary: string)
    requires Initialized(s) && s.summary == Present(Some(oldSummary))
    requires ev.upload.Some? && ev.chunkSize > 0
    requires forall n: nat, p: Payload :: api.call(n, p).Exhausted?
    ensures RunPage(s, ev, api).state.paperText == Present(Some(ev.upload.value))
    ensures SelectSection(ev.upload.value) != "" ==>
      RunPage(s, ev, api).Stopped? && RunPage(s, ev, api).state.summary == Present(Some(oldSummary))
    ensures SelectSection(ev.upload.value) == "" ==>
      RunPage(s, ev, api).Completed? && RunPage(s, ev, api).state.summary == Present(Some(""))
  {
    var text := SelectSection(ev.upload.value);
    RunPageEffect(s, ev, api);
    if text == "" {
      EmptyTextNeedsNoCalls(ev.langChoice, ev.chunkSize, api);
    } else {
      var chunks := ChunksFor(text, ev.chunkSize);
      assert |chunks| > 0;
      assert ChunkCall(api, ChunkRequest(ev.langChoice), chunks, 0).Exhausted?;
    }
  }
}
