/**
 * Prompt templates and the mode lookup (backend/app/rag/prompts.py).
 *
 * Each static method of `PromptTemplates` returns a constant; here the six templates
 * are the constructors of `Template` and their texts are `TemplateText`. The lookup
 * lower-cases the mode name and falls back to the base chat prompt.
 */
module Prompts {
  import opened Text

  datatype Template = Base | Summary | ImportantPoints | Flashcards | Teacher | ExamQuestions

  /**
   * The text each `PromptTemplates.get_..._prompt()` returns. The texts are written as
   * concatenations of short pieces, which keeps reasoning about them cheap; the value
   * is the text of the source.
   */
  function TemplateText(t: Template): string {
    match t
    case Base =>
      "You are a helpful " + "AI assistant. " + "Answer questions " + "based on the "
      + "provided context " + "from documents. " + "Be concise and " + "accurate."
    case Summary =>
      "You are a " + "summarization " + "assistant. Your " + "task is to create " + "clear, concise "
      + "summaries of the " + "provided content.\n" + "\n" + "Instructions:\n" + "- Focus on main "
      + "ideas and key " + "concepts\n" + "- Keep it brief " + "but comprehensive\n" + "- Use bullet "
      + "points for " + "clarity\n" + "- Highlight the " + "most important " + "information\n"
      + "- Based ONLY on " + "the context " + "provided below"
    case ImportantPoints =>
      "You are an " + "educational " + "assistant " + "specialized in " + "identifying key "
      + "information.\n" + "\n" + "Your task is to " + "extract and list " + "the most "
      + "important points " + "from the provided " + "content.\n" + "\n" + "Format your "
      + "response as:\n" + "\U{1F4CC} Key Point 1: " + "[explanation]\n" + "\U{1F4CC} Key Point 2: "
      + "[explanation]\n" + "\U{1F4CC} Key Point 3: " + "[explanation]\n" + "\n" + "Focus on:\n"
      + "- Core concepts " + "and definitions\n" + "- Critical facts " + "and figures\n"
      + "- Main takeaways\n" + "- Essential " + "information for " + "understanding the " + "topic\n"
      + "\n" + "Base your " + "response ONLY on " + "the context " + "provided below."
    case Flashcards =>
      "You are a " + "flashcard " + "generation " + "assistant. Create " + "study flashcards "
      + "from the provided " + "content.\n" + "\n" + "Format each " + "flashcard as:\n"
      + "\U{1F0CF} Card N:\n" + "Q: [Question]\n" + "A: [Answer]\n" + "\n" + "Guidelines:\n"
      + "- Create 5-10 " + "flashcards\n" + "- Questions " + "should test " + "understanding, "
      + "not just " + "memorization\n" + "- Answers should " + "be clear and " + "concise\n"
      + "- Cover different " + "aspects of the " + "content\n" + "- Include both " + "factual and "
      + "conceptual " + "questions\n" + "\n" + "Generate " + "flashcards based " + "ONLY on the "
      + "context provided " + "below."
    case Teacher =>
      "You are an " + "experienced " + "teacher providing " + "detailed, " + "pedagogical "
      + "explanations.\n" + "\n" + "Your teaching " + "approach:\n" + "- Start with "
      + "simple concepts " + "and build up to " + "complex ones\n" + "- Use analogies "
      + "and examples to " + "clarify difficult " + "concepts\n" + "- Break down " + "information into "
      + "digestible parts\n" + "- Anticipate " + "common questions " + "and address them\n"
      + "- Use a friendly, " + "encouraging tone\n" + "- Connect " + "concepts to " + "real-world "
      + "applications\n" + "\n" + "Explain the topic " + "thoroughly based " + "on the context "
      + "provided below, " + "as if teaching a " + "student who is " + "encountering this "
      + "material for the " + "first time."
    case ExamQuestions =>
      "You are an exam " + "question " + "generator. Create " + "comprehensive " + "exam questions "
      + "from the provided " + "content.\n" + "\n" + "Generate " + "questions in "
      + "these categories:\n" + "\n" + "\U{1F4DD} Multiple Choice " + "(3-5 questions)\n"
      + "Format: Question, " + "Options (A-D), " + "Correct Answer\n" + "\n" + "\U{1F4DD} Short Answer "
      + "(3-5 questions)\n" + "Format: Question " + "requiring 2-3 " + "sentence answers\n" + "\n"
      + "\U{1F4DD} " + "Essay/Discussion " + "(1-2 questions)\n" + "Format: " + "Open-ended "
      + "questions " + "requiring " + "detailed " + "responses\n" + "\n" + "Guidelines:\n"
      + "- Questions " + "should test " + "different levels " + "of understanding " + "(recall, "
      + "comprehension, " + "application, " + "analysis)\n" + "- Include a mix " + "of difficulty "
      + "levels\n" + "- Questions " + "should be clear " + "and unambiguous\n" + "- Provide correct "
      + "answers/key " + "points for each " + "question\n" + "\n" + "Base all " + "questions ONLY on "
      + "the context " + "provided below."
  }

  /** The `mode_map` dictionary: seven lower-case names for six templates. */
  const ModeMap: map<string, Template> := map[
    "chat" := Base,
    "summary" := Summary,
    "important" := ImportantPoints,
    "points" := ImportantPoints,
    "flashcards" := Flashcards,
    "teacher" := Teacher,
    "exam" := ExamQuestions
  ]

  /** `mode_map.get(mode.lower(), get_base_prompt)`. */
  function ResolveMode(mode: string): Template {
    var key := Lower(mode);
    if key in ModeMap then ModeMap[key] else Base
  }

  /** `get_prompt_by_mode(mode)`. */
  function PromptByMode(mode: string): string {
    TemplateText(ResolveMode(mode))
  }

  /**
   * The lookup ignores case: a mode and its lower-cased form, and more generally any
   * two modes that agree after lower-casing, select the same prompt.
   */
  lemma CaseInsensitive(a: string, b: string)
    ensures PromptByMode(a) == PromptByMode(Lower(a))
    ensures Lower(a) == Lower(b) ==> PromptByMode(a) == PromptByMode(b)
  {
    LowerIdempotent(a);
  }

  /** Each of the seven names selects its own template, whatever its case. */
  lemma KnownModes()
    ensures ResolveMode("chat") == Base
    ensures ResolveMode("summary") == Summary
    ensures ResolveMode("important") == ImportantPoints
    ensures ResolveMode("points") == ImportantPoints
    ensures ResolveMode("flashcards") == Flashcards
    ensures ResolveMode("teacher") == Teacher
    ensures ResolveMode("exam") == ExamQuestions
    ensures ResolveMode("Summary") == ResolveMode("SUMMARY") == Summary
  {
    assert Lower("chat") == "chat";
    assert Lower("summary") == "summary";
    assert Lower("important") == "important";
    assert Lower("points") == "points";
    assert Lower("flashcards") == "flashcards";
    assert Lower("teacher") == "teacher";
    assert Lower("exam") == "exam";
    assert Lower("Summary") == "summary";
    assert Lower("SUMMARY") == "summary";
  }

  /** "important" and "points" are two names for one template. */
  lemma ImportantIsPoints(mode: string)
    ensures ResolveMode(mode) == ImportantPoints <==> Lower(mode) == "important" || Lower(mode) == "points"
  {
  }

  /**
   * The lookup never fails: it selects the base chat template exactly for "chat" (in
   * any case) and for every name outside the map.
   */
  lemma FallbackToBase(mode: string)
    ensures ResolveMode(mode) == Base <==> Lower(mode) == "chat" || Lower(mode) !in ModeMap
    ensures Lower(mode) !in ModeMap ==> PromptByMode(mode) == PromptByMode("chat")
  {
    KnownModes();
  }
}
