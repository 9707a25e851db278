# Research Paper Chatbot — a Dafny model of its core

The Research Paper Chatbot is a Streamlit page. It stores the text extracted
from an uploaded research paper and summarises a section of it: the part from
the first "abstract" up to the first "conclusion" (in any case), or the first
3000 characters when a marker is missing. It splits that section into
fixed-width chunks and has a remote Gemini model
summarise each chunk, retrying when the endpoint refuses. It then joins the
chunk summaries into one summary. The page keeps the paper, the summary and a
chat history in its session state across reruns; a chat message is appended
to the history. The helper `answer_question_with_context` would answer a
question from the first 2000 characters of a summary, but the page never
calls it.

The Dafny project models that core:

- `common.dfy` (`Common`): `Option`, `Result`, Python slicing (`PySlice`,
  `Take`), `"".join` (`Concat`), `sep.join` (`Join`) and ceiling division.
- `chunker.dfy` (`Chunker`): `split_text_by_tokens`. The chunker is checked
  against a recursive reference definition, `Chunks`.
- `api_client.dfy` (`ApiClient`): the retry loop of `call_gemini_api`. The
  network is a function from an attempt number to a response.
- `prompts.dfy` (`Prompts`): the per-chunk summary request and the question
  request, in English and Hindi.
- `sections.dfy` (`Sections`): `str.find`, ASCII `lower()` and the choice of
  the section to summarise.
- `summarizer.dfy` (`Summarizer`): `summarize_large_text` and
  `answer_question_with_context`. The remote model is a `Remote`, which gives
  the response to each attempt of each call and reads the generated text out
  of an ok body. The pipeline is stated over an `Api` (the outcome of each
  whole call). `GeminiApi` plugs the retry loop into an `Api`.
- `session.dfy` (`Session`): the session state and one run of the page.
  A run consists of the "Clear Chat" button, the initialisation block, the
  upload branch and the chat input. A key of the session state may be absent
  (`Slot`). `st.stop()` ends a run, and the state it had then is kept
  (`Stopped`).

The code stores the new paper text before it summarises (app.py:131, 148-149).
An upload whose summarisation halts therefore leaves the new paper next to
the previous paper's summary. `Session.HaltedUploadKeepsOldSummary` states
this. A chunk size of zero has the same effect: `range(0, n, 0)` raises at
app.py:39 after app.py:131 has stored the paper, and `Session.RunPage` stops
with the new paper and the old summary. The model follows the code in both
cases, although the summary is otherwise always derived from the current
paper.

## Model

| member | source | states |
|---|---|---|
| Common.PySlice | app.py:39 | A Python slice clamps both bounds to the length and is empty when the end lies before the start; element k of the slice is element lo+k of the sequence |
| Common.Take | app.py:145 | `s[:n]` is the prefix of `s` of length min(len, n) |
| Common.Join | app.py:58 | Joining no part gives ""; otherwise the result starts with the first part and its length is the parts' total length plus one separator per neighbouring pair |
| Common.JoinAppend | app.py:43-58 | Appending a fragment to a non-empty list adds the separator and then the fragment at the end of the join; with `Join`'s own clauses this fixes the join as the parts in order with one separator between neighbours |
| Chunker.Range | app.py:39 | `range(start, stop, step)` for a positive step: element k is start+k*step and below stop; the range is empty exactly when start >= stop, and one step from its last element reaches stop, so no value is left out |
| Chunker.SplitBySize | app.py:39 | The comprehension over `range(0, len(text), width)` equals the reference chunking `Chunks` |
| Chunker.SplitTextByTokens | app.py:36-39 | A width of max_tokens*4 equal to zero raises; a negative width gives no chunks; a positive width gives chunks that concatenate back to the text, are non-empty, are at most the width, are all exactly the width except the last, and number ceil(len/width) |
| Chunker.Chunks | app.py:39 | The reference chunking (peel off one full-width piece at a time) satisfies the chunking shape: covers the text exactly, the piece widths, the piece count |
| Chunker.SplitMatchesChunks | app.py:39 | The list comprehension over `range(0, len(text), width)` equals the reference chunking on every text |
| Chunker.SlicesFromMatchChunks | app.py:39 | The comprehension over the starts from any offset yields the reference chunks of the remaining text |
| Chunker.LastSliceIsRest | app.py:39 | The last start of the range slices off the whole rest of the text, which is the last reference chunk |
| Chunker.SliceStep | app.py:39 | An earlier start slices off one full-width chunk, and both the comprehension and the reference continue one width on |
| Chunker.ChunkingIsUnique | app.py:36-39 | Any list of pieces with the chunker's shape that concatenates to the text is exactly the chunker's output |
| Chunker.EmptyTextHasNoChunks | app.py:39 | Empty text gives an empty chunk list for every non-zero budget |
| Chunker.ThousandCharactersMakeThreeChunks | app.py:36-39 | 1000 characters at 100 tokens give chunks [0,400), [400,800), [800,1000) |
| ApiClient.RetryFrom | app.py:15-25 | From any iteration on, the loop either returns the first ok response's body after one wait per earlier failed attempt, or makes every remaining attempt and fails with the last body seen |
| ApiClient.CallGeminiApi | app.py:13-27 | The call returns exactly when one of the first `retries` attempts is ok. It then returns the body of the first ok response after that many attempts and one wait per failure. Otherwise it makes every attempt, waits after each, and stops with the last body ("" when no attempt is made) |
| ApiClient.RetrySucceedsAtFirstOk | app.py:15-25 | A first ok response at attempt k (k < retries) is returned after k+1 attempts and k waits |
| ApiClient.RetryExhaustsWithoutOk | app.py:14-27 | With no ok response among the first `retries`, there are exactly `retries` attempts and waits, and the failure carries the last body |
| ApiClient.RetryDependsOnlyOnOkAndBody | app.py:17-23 | A 429 and any other failing status take the same path; two endpoints that agree on okness and body over the allowed attempts give the same outcome |
| ApiClient.FourQuotaErrorsThenSuccess | app.py:13-25 | Four 429 answers and then a 200 are returned on the fifth attempt after four waits |
| ApiClient.FiveQuotaErrorsExhaust | app.py:13-27 | Five 429 answers exhaust the default call: five attempts, five waits, no sixth attempt |
| ApiClient.ZeroRetriesFailAtOnce | app.py:14-15 | With zero retries nothing is posted and the call fails with an empty body |
| Prompts.LanguageOf | app.py:45 | Hindi is chosen exactly when the selector value is "Hindi"; any other value means English |
| Prompts.ChunkPayload | app.py:50-54 | The per-chunk request carries no generation options |
| Prompts.ChunkPromptRoundTrip | app.py:45-48 | The chunk is embedded verbatim after the language's instruction and can be read back from the prompt |
| Prompts.QuestionPayload | app.py:60-79 | The question request asks for at most 300 output tokens. Its prompt starts with the language's intro, then holds the first min(len, 2000) characters of the summary, and ends with the question verbatim followed by a newline |
| Prompts.QuestionPromptIgnoresSummaryTail | app.py:60-72 | Summaries that agree on their first 2000 characters give the same question prompt |
| Prompts.QuestionPromptSeparatesQuestions | app.py:60-72 | Different questions about one summary give different prompts |
| Prompts.LongSummaryIsTruncated | app.py:60-72 | A 5000-character summary contributes exactly its first 2000 characters, followed directly by the bridge text and the question |
| Sections.Lower | app.py:138 | Lower-casing keeps the length and maps each character by itself |
| Sections.FindFrom | app.py:139-140 | The search from an index returns the first occurrence at or after it, or -1 when there is none |
| Sections.Find | app.py:139-140 | `find` returns -1 exactly when the marker occurs nowhere; otherwise it returns the index of the first occurrence |
| Sections.SelectSection | app.py:138-145 | The selected section is always a contiguous piece of the extracted text, no longer than it, and at most 3000 characters when a marker is missing |
| Sections.MarkersDoNotOverlap | app.py:139-143 | An occurrence of "conclusion" after an occurrence of "abstract" starts after its end |
| Sections.SectionRunsFromAbstractToConclusion | app.py:138-143 | With both markers found and "abstract" first, the section is the text between the first occurrences. It starts with "abstract" in any case and holds no "conclusion" in any case |
| Sections.SectionEmptyWhenConclusionFirst | app.py:142-143 | When the first "conclusion" precedes the first "abstract", the section is empty |
| Sections.SectionFallsBackToPrefix | app.py:142-145 | When either marker is missing, the section is the first min(len, 3000) characters |
| Summarizer.GeminiCall | app.py:55 | Every call of an action through `call_gemini_api` returns exactly when one of its first five attempts is ok, and then with the first ok body |
| Summarizer.GeminiChunkCall | app.py:55 | A chunk's call through `call_gemini_api` returns exactly when one of its first five attempts is ok, and then with the first ok body |
| Summarizer.SummarizeFrom | app.py:44-57 | The chunk loop completes exactly when every call returns, and then holds one request and one fragment per chunk, in chunk order |
| Summarizer.CallsFollowChunkOrder | app.py:44-55 | The j-th request of the loop is the request for chunk j |
| Summarizer.StopsAtFirstFailure | app.py:55 | A stopped loop stops at its last call, which failed terminally and reported the stopping body; every earlier call returned |
| Summarizer.SummarizeChunks | app.py:43-58 | Over given chunks: one request per chunk, in order; a summary exactly when every call returns, equal to the fragments joined by blank lines; otherwise a halt at the first call that fails terminally, with its last body, after every earlier call returned |
| Summarizer.SummarizeLargeText | app.py:41-58 | A zero chunk size raises and a negative one gives "". Otherwise there is one request per chunk, in order; the result is a summary exactly when every call returns, and that summary is the fragments joined by blank lines. Otherwise the first call that fails terminally halts the run with its last body, and every earlier call returned |
| Summarizer.EmptyTextNeedsNoCalls | app.py:41-58 | Empty text is summarised to "" without any API call |
| Summarizer.PromptsCoverText | app.py:42-48 | Reading the chunks back out of a completed summarisation's prompts and concatenating them gives the input text |
| Summarizer.ThreeChunksGiveThreeSegments | app.py:41-58 | 1000 characters at 100 tokens make three calls, and the summary is the three fragments separated by blank lines |
| Summarizer.AnswerQuestionWithContext | app.py:60-81 | One request that embeds the truncated summary and the question and asks for 300 tokens; it answers exactly when some of the five attempts is ok, with the text of the first ok response |
| Session.ClearChat | app.py:114-115 | "Clear Chat" empties the history and keeps the paper and the summary |
| Session.InitDefaults | app.py:117-123 | Every key is set afterwards; a key already set keeps its value; an absent key gets None, None or [] |
| Session.InitIsIdempotent | app.py:117-123 | Initialising twice equals initialising once, and an initialised state is unchanged |
| Session.AppendUserMessage | app.py:166-167 | Sending a message keeps the earlier entries as a prefix and puts ("User", prompt) last; the paper and the summary are kept |
| Session.RecordPaper | app.py:131 | Storing the extracted text sets the paper and leaves the summary and history alone |
| Session.RecordSummary | app.py:149 | Storing a summary sets it and leaves the paper and history alone |
| Session.RunPage | app.py:114-167 | A run leaves every key set, and it stops exactly when a paper was uploaded and the summarisation of its selected section did not complete |
| Session.RunPageEffect | app.py:114-167 | After one run every key is set. The history is the earlier one (emptied by the button), plus the sent message when non-empty and the run was not stopped. Without an upload the paper and summary are kept. An upload replaces the paper, and replaces the summary with the selected section's summary exactly when that summarisation completes |
| Session.ClearChatRunEmptiesHistory | app.py:114-123 | A run with only the button pressed leaves an empty history and the paper and summary as they were |
| Session.HistoryIsAppendOnly | app.py:114-167 | Across any sequence of runs without "Clear Chat", each with its own network answers, the earlier history stays a prefix of the later one |
| Session.HaltedUploadKeepsOldSummary | app.py:128-149 | When every API call fails terminally, an upload records the new paper; with a non-empty section it stops the run and keeps the previous summary, with an empty section it completes with an empty summary |

## Left out

- The Streamlit user interface is left out: layout, warnings, spinners, previews, the download button and the rendering of the history (app.py:99-111, 133-135, 150-162). It does not change the state.
- `extract_text_from_pdf` (app.py:29-34) is left out because it is PDF parsing by PyMuPDF. The extracted text is an input of the model.
- HTTP and JSON are left out. `Remote.respond` gives the response to each attempt of each call. `Remote.textOf` stands for `response_json["candidates"][0]["content"]["parts"][0]["text"]`. A malformed or non-JSON ok body, and the exception it would raise, is not modelled. Neither is an exception raised by `requests.post` itself (a connection error or a timeout, app.py:16): the code does not retry it, and it ends the run.
- `time.sleep(delay)` is left out because it is timing. Waits are counted (`sleeps`) instead of timed, so the 10-second `delay` does not appear.
- The default arguments `max_tokens=300` and `chunk_size=300` (app.py:36, 41) are left out: the page always passes the slider value, and the model takes the chunk size as an input.
- The request URL and the API key (app.py:7-9) are configuration, not behaviour, and are left out.
- The `temperature` field of the generation options (app.py:76) is left out because it is a floating-point tuning value that no logic reads.
- Sections.Lower: lower-cases ASCII letters only, because Python's full Unicode `lower()` can change the length of a string. The model keeps indices valid across the lowered and original text, as the code assumes.
- The "summarize quickly" branch (app.py:168-188) and `general_chat_response` (app.py:83-97) are left out. A run of the model ends after the user message is appended. The quick branch is taken only on a run without an upload, because an upload sets `summary` (app.py:149). On such a run `text_to_summarize` is unbound, so the branch raises `NameError` (app.py:171, 173) after the message has been appended. `Session.RunPage` reports that run as `Completed` with the same state, so its "stops exactly when" is meant within the modelled steps.
- Nothing in the source calls `answer_question_with_context` from the page. `Summarizer.AnswerQuestionWithContext` models the function on its own, as the first call of an action.
- ApiClient.IsOk: follows the HTTP library's definition of `response.ok` (no error for statuses outside 400-599). The library itself is not part of this model.
- Summarizer.SummarizeLargeText: a repeated request is told apart by its position in the action (the call number), not by its content, because the remote may answer identical requests differently.
- Prompts.ChunkPayload: states only the absence of generation options. The embedding of the chunk is stated by `Prompts.ChunkPromptRoundTrip` instead, so that proofs about the pipeline need not unfold the long instruction texts.
- The slider bounds of the chunk size (100-600, app.py:113) are left out. The model accepts any integer, including the zero and negative sizes that the chunker itself handles.
