/**
 * The request payloads the assistant sends: the per-chunk summarisation
 * prompt of `summarize_large_text` (app.py:45-54) and the question prompt of
 * `answer_question_with_context` (app.py:61-79), in English or Hindi.
 */
module Prompts {
  import opened Common

  /** The two answer languages offered by the language selector. */
  datatype Language = English | Hindi

  /** The selector value that chooses Hindi; every other value means English. */
  const HindiChoice: string := "Hindi"

  /** `lang == "Hindi"` decides the language (app.py:45, 61). */
  function LanguageOf(choice: string): (lang: Language)
    ensures lang == Hindi <==> choice == HindiChoice
  {
    if choice == HindiChoice then Hindi else English
  }

  /** The `generationConfig` of a request; the temperature is not modelled. */
  datatype GenerationConfig = GenerationConfig(maxOutputTokens: nat)

  /** A request body: one prompt text and optional generation options. */
  datatype Payload = Payload(prompt: string, generation: Option<GenerationConfig>)

  const HindiSummaryInstruction: string := "निम्नलिखित शोध पत्र के इस भाग को सरल हिंदी में संक्षेपित करें:\n\n"
  const EnglishSummaryInstruction: string := "Please summarize this part of the research paper in simple English:\n\n"

  /** The instruction put in front of every chunk (app.py:46, 48). */
  function SummaryInstruction(lang: Language): string {
    match lang
    case Hindi => HindiSummaryInstruction
    case English => EnglishSummaryInstruction
  }

  /** The summarisation prompt for one chunk: the instruction, then the chunk verbatim. */
  function ChunkPrompt(lang: Language, chunk: string): string {
    SummaryInstruction(lang) + chunk
  }

  /** The per-chunk request carries no generation options (app.py:50-54). */
  function ChunkPayload(lang: Language, chunk: string): (p: Payload)
    ensures p.generation == None
  {
    Payload(ChunkPrompt(lang, chunk), None)
  }

  /** Reads the chunk back out of a summarisation prompt, if it is one. */
  function ChunkOfPrompt(lang: Language, prompt: string): Option<string> {
    var instruction := SummaryInstruction(lang);
    if instruction <= prompt then Some(prompt[|instruction|..]) else None
  }

  /** The chunk is embedded verbatim: it can be read back from the prompt. */
  lemma ChunkPromptRoundTrip(lang: Language, chunk: string)
    ensures ChunkOfPrompt(lang, ChunkPrompt(lang, chunk)) == Some(chunk)
  {
    var instruction := SummaryInstruction(lang);
    assert (instruction + chunk)[|instruction|..] == chunk;
  }

  /** At most this many characters of the summary are given as context (app.py:63, 69). */
  const ContextLimit: nat := 2000

  /** The output budget of an answer (app.py:77). */
  const AnswerMaxOutputTokens: nat := 300

  /** The text before the summary in the question prompt (app.py:62-63, 68-69). */
  function QuestionIntro(lang: Language): string {
    match lang
    case Hindi => "\nनीचे शोध पत्र का सारांश दिया गया है:\n\n"
    case English => "\nBelow is the summary of a research paper:\n\n"
  }

  /** The text between the summary and the question (app.py:63-65, 69-71). */
  function QuestionBridge(lang: Language): string {
    match lang
    case Hindi => "\n\nअब निम्नलिखित प्रश्न का उत्तर दो:\n\n"
    case English => "\n\nNow answer this question:\n\n"
  }

  /** The question prompt: intro, `summary[:2000]`, bridge, the question, a final newline. */
  function QuestionPrompt(lang: Language, summary: string, question: string): string {
    QuestionIntro(lang) + Take(summary, ContextLimit) + QuestionBridge(lang) + question + "\n"
  }

  /** The question request of `answer_question_with_context` (app.py:73-79). */
  function QuestionPayload(lang: Language, summary: string, question: string): (p: Payload)
    ensures p.generation == Some(GenerationConfig(AnswerMaxOutputTokens))
    ensures EmbedsContextAndQuestion(p.prompt, lang, summary, question)
  {
    QuestionPromptLayout(lang, summary, question);
    Payload(QuestionPrompt(lang, summary, question), Some(GenerationConfig(AnswerMaxOutputTokens)))
  }

  /**
   * `prompt` starts with the intro, then holds the first
   * `min(|summary|, 2000)` characters of the summary, and ends with the
   * question verbatim followed by one newline.
   */
  ghost predicate EmbedsContextAndQuestion(prompt: string, lang: Language, summary: string, question: string) {
    var start := |QuestionIntro(lang)|;
    var width := Min(|summary|, ContextLimit);
    && |prompt| == start + width + |QuestionBridge(lang)| + |question| + 1
    && prompt[..start] == QuestionIntro(lang)
    && prompt[start..start + width] == summary[..width]
    && prompt[|prompt| - 1 - |question|..|prompt| - 1] == question
    && prompt[|prompt| - 1] == '\n'
  }

  lemma QuestionPromptLayout(lang: Language, summary: string, question: string)
    ensures EmbedsContextAndQuestion(QuestionPrompt(lang, summary, question), lang, summary, question)
  {
    var intro, context, bridge := QuestionIntro(lang), Take(summary, ContextLimit), QuestionBridge(lang);
    var prompt := QuestionPrompt(lang, summary, question);
    assert prompt == intro + context + bridge + question + "\n";
    var start := |intro|;
    assert prompt[start..start + |context|] == context;
    assert prompt[|prompt| - 1 - |question|..|prompt| - 1] == question;
  }

  /**
   * Only the first 2000 characters of the summary reach the model: two
   * summaries that agree on those give the same question prompt.
   */
  lemma QuestionPromptIgnoresSummaryTail(lang: Language, s1: string, s2: string, question: string)
    requires Take(s1, ContextLimit) == Take(s2, ContextLimit)
    ensures QuestionPrompt(lang, s1, question) == QuestionPrompt(lang, s2, question)
  {
  }

  /** Different questions about the same summary give different prompts. */
  lemma QuestionPromptSeparatesQuestions(lang: Language, summary: string, q1: string, q2: string)
    requires q1 != q2
    ensures QuestionPrompt(lang, summary, q1) != QuestionPrompt(lang, summary, q2)
  {
    QuestionPromptLayout(lang, summary, q1);
    QuestionPromptLayout(lang, summary, q2);
  }

  /** A 5000-character summary contributes exactly its first 2000 characters. */
  lemma LongSummaryIsTruncated(lang: Language, summary: string, question: string)
    requires |summary| == 5000
    ensures var prompt := QuestionPrompt(lang, summary, question);
      var start := |QuestionIntro(lang)|;
      prompt[start..start + 2000] == summary[..2000]
      && prompt[start + 2000..] == QuestionBridge(lang) + question + "\n"
  {
    var intro := QuestionIntro(lang);
    var prompt := QuestionPrompt(lang, summary, question);
    assert prompt == intro + summary[..2000] + (QuestionBridge(lang) + question + "\n");
  }
}
