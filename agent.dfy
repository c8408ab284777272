/**
 * The voice tutor's per-turn logic (backend/agent.py): the gate that decides whether
 * a user turn triggers retrieval, the handling of the summariser's answer (the
 * "no relevant information" sentinel, the framing of a summary, the fallback excerpt
 * when summarising fails), the initial conversation context, and the turn hook that
 * injects the enhancement into the conversation.
 *
 * The summarising model is an opaque function from the prompt text to an outcome;
 * the voice pipeline, logging and `async` are not modelled (everything is sequential).
 */
module Agent {
  import opened Wrappers
  import opened PyStrings
  import opened Environment
  import opened Chat
  import opened Rag

  // ---------------------------------------------------------------------------
  // The retrieval gate: should_use_rag
  // ---------------------------------------------------------------------------

  /** Greetings and thanks that, in a short utterance, skip retrieval. */
  const SkipKeywords: seq<string> := ["hello", "hi", "thanks", "thank you", "bye", "goodbye"]

  /** An utterance with at least this many words always triggers retrieval. */
  const WordLimit: nat := 5

  /** `any(keyword in text for keyword in keywords)`, tried in order. */
  predicate AnyIn(keywords: seq<string>, text: string) {
    keywords != [] && (Contains(text, keywords[0]) || AnyIn(keywords[1..], text))
  }

  lemma {:induction false} AnyInIff(keywords: seq<string>, text: string)
    ensures AnyIn(keywords, text) <==> exists k :: k in keywords && Contains(text, k)
  {
    if keywords != [] {
      AnyInIff(keywords[1..], text);
      if Contains(text, keywords[0]) {
        assert keywords[0] in keywords;
      }
      if AnyIn(keywords[1..], text) {
        var k :| k in keywords[1..] && Contains(text, k);
        assert k in keywords;
      }
      if exists k :: k in keywords && Contains(text, k) {
        var k :| k in keywords && Contains(text, k);
        if k != keywords[0] {
          HeadTail(keywords);
          assert k in keywords[1..];
        }
      }
    }
  }

  /**
   * `should_use_rag(question)`: false when some skip keyword occurs anywhere in the
   * lower-cased question (a substring test) and the question has fewer than five
   * whitespace-separated words; true otherwise.
   */
  predicate ShouldUseRag(question: string): (r: bool)
    ensures |Split(question)| >= WordLimit ==> r
  {
    !(AnyIn(SkipKeywords, Lower(question)) && |Split(question)| < WordLimit)
  }

  /**
   * The gate skips retrieval exactly when a keyword occurs in the lower-cased question
   * and the question has fewer than five word starts.
   */
  lemma GateSpec(question: string)
    ensures !ShouldUseRag(question)
      <==> (exists k :: k in SkipKeywords && Contains(Lower(question), k)) && WordCount(question) < WordLimit
  {
    AnyInIff(SkipKeywords, Lower(question));
    SplitCountsWords(question);
  }

  /** Five or more words always trigger retrieval, greeting or not. */
  lemma LongUtterancesRetrieve(question: string)
    requires WordCount(question) >= WordLimit
    ensures ShouldUseRag(question)
  {
    SplitCountsWords(question);
  }

  /** An utterance with no skip keyword in it always triggers retrieval. */
  lemma NoKeywordRetrieves(question: string)
    requires forall k :: k in SkipKeywords ==> !Contains(Lower(question), k)
    ensures ShouldUseRag(question)
  {
    AnyInIff(SkipKeywords, Lower(question));
  }

  /** The gate does not depend on letter case. */
  lemma GateIgnoresCase(question: string)
    ensures ShouldUseRag(Lower(question)) == ShouldUseRag(question)
  {
    LowerIdempotent(question);
    SplitIgnoresCase(question);
  }

  /** Every skip keyword is already lower case. */
  lemma SkipKeywordsLower()
    ensures forall k :: k in SkipKeywords ==> LowerCased(k)
  {
  }

  /** A short question whose lower-cased text contains a skip keyword is skipped. */
  lemma ShortWithKeywordSkips(question: string, keyword: string)
    requires keyword in SkipKeywords && Contains(Lower(question), keyword)
    requires |Split(question)| < WordLimit
    ensures !ShouldUseRag(question)
  {
    AnyInIff(SkipKeywords, Lower(question));
  }

  /**
   * The keyword test is a substring test, not a word test: fewer than five words, one
   * of which merely contains a skip keyword ("this", "history" and "which" contain
   * "hi"), skip retrieval.
   */
  lemma KeywordInsideWordSkips(words: seq<string>, n: nat, before: string, keyword: string, after: string)
    requires forall w :: w in words ==> IsWord(w)
    requires |words| < WordLimit && n < |words|
    requires keyword in SkipKeywords && words[n] == before + keyword + after
    ensures !ShouldUseRag(Join(" ", words))
  {
    SplitJoin(words);
    var j := OccursInJoinedWord(words, n, before, keyword, after);
    KeywordFound(Join(" ", words), keyword, j);
    ShortWithKeywordSkips(Join(" ", words), keyword);
  }

  /** "What is this?" greets nobody, yet it is skipped: "hi" occurs inside "this". */
  lemma WhatIsThisSkipped()
    ensures !ShouldUseRag("What is this?")
  {
    var words := ["What", "is", "this?"];
    assert IsWord(words[0]) && IsWord(words[1]) && IsWord(words[2]);
    assert words[2] == "t" + "hi" + "s?";
    assert Join(" ", words) == "What is this?";
    KeywordInsideWordSkips(words, 2, "t", "hi", "s?");
  }

  lemma OccursInJoinedWord(words: seq<string>, n: nat, before: string, keyword: string, after: string)
    returns (j: int)
    requires n < |words| && words[n] == before + keyword + after
    ensures OccursAt(Join(" ", words), keyword, j)
  {
    JoinHasPart(" ", words, n);
    var i :| OccursAt(Join(" ", words), words[n], i);
    OccursInConcat(before, keyword, after, keyword, 0);
    OccursTransitive(Join(" ", words), words[n], keyword, i, |before|);
    j := i + |before|;
  }

  lemma KeywordFound(question: string, keyword: string, j: int)
    requires keyword in SkipKeywords && OccursAt(question, keyword, j)
    ensures Contains(Lower(question), keyword)
  {
    SkipKeywordsLower();
    LowerOccurs(question, keyword, j);
    ContainsIff(Lower(question), keyword);
  }

  /** Five or more words, joined by blanks, always trigger retrieval, whatever they say. */
  lemma LongGreetingRetrieves(words: seq<string>)
    requires forall w :: w in words ==> IsWord(w)
    requires |words| >= WordLimit
    ensures ShouldUseRag(Join(" ", words))
  {
    SplitJoin(words);
  }

  /** "hello what is a hadith" opens with a greeting but has five words: it is answered from the book. */
  lemma LongGreetingExample()
    ensures ShouldUseRag("hello what is a hadith")
  {
    var words := ["hello", "what", "is", "a", "hadith"];
    GreetingWords(words);
    GreetingJoined(words);
    LongGreetingRetrieves(words);
  }

  lemma GreetingJoined(words: seq<string>)
    requires words == ["hello", "what", "is", "a", "hadith"]
    ensures Join(" ", words) == "hello what is a hadith"
  {
    assert Join(" ", words[3..]) == "a hadith";
    assert Join(" ", words[1..]) == "what is a hadith";
  }

  lemma GreetingWords(words: seq<string>)
    requires words == ["hello", "what", "is", "a", "hadith"]
    ensures forall w :: w in words ==> IsWord(w)
  {
    assert IsWord(words[0]) && IsWord(words[1]) && IsWord(words[2]);
    assert IsWord(words[3]) && IsWord(words[4]);
  }

  // ---------------------------------------------------------------------------
  // The summariser's answer: the post-call branch of enhance_with_rag
  // ---------------------------------------------------------------------------

  /**
   * What the summarising call produced: `Failed` when it raised (including an answer
   * without choices or without content, whose access raises inside the same `try`),
   * otherwise the content it returned, before stripping.
   */
  datatype SummaryOutcome = Failed | Returned(raw: string)

  /** The summariser's marker for "the context does not answer the question". */
  const Sentinel: string := "NO_RELEVANT_INFO"

  const BookReferencePrefix: string := "[Book Reference]: "
  const AnswerInstruction: string :=
    "Now answer the student's question using this information. "
    + "If this doesn't fully answer the question, supplement with your own knowledge."
  const FallbackHeader: string := "[Retrieved from Usool al-Hadith book]\n\n"
  const FallbackQuestionLead: string := "Based on the above content, please answer briefly: "

  /** How many characters of the raw context the fallback keeps before the ellipsis. */
  const ExcerptLimit: nat := 500

  /** The summary prompt's opening, up to the retrieved context. */
  const PromptIntro: string :=
    "You are helping a voice agent answer questions about Usool al-Hadith.\n\n"
    + "Retrieved context from the book:\n"

  /** Between the context and the question. */
  const PromptQuestionLead: string := "\n\nUser question: "

  /** The summary prompt's instructions, after the question. */
  const PromptTask: string :=
    "\n\nYour task:\n"
    + "1. If the context contains relevant information, extract and summarize it concisely (2-3 sentences max)\n"
    + "2. If the context is NOT relevant or doesn't answer the question, respond with: \"NO_RELEVANT_INFO\"\n"
    + "3. Include key Arabic terms if relevant\n"
    + "4. Cite page numbers if mentioned in the context\n\n"
    + "This will be spoken aloud, so keep it brief and natural.\n\n"
    + "Response:"

  /** The prompt sent to the summariser: the retrieved context, the question, the instructions. */
  function SummaryPrompt(context: string, question: string): (r: string)
    ensures PromptIntro <= r && |PromptIntro| + |context| <= |r|
    ensures r[|PromptIntro|..|PromptIntro| + |context|] == context
  {
    Framed(PromptIntro, context, PromptQuestionLead + question + PromptTask);
    PromptIntro + context + PromptQuestionLead + question + PromptTask
  }

  /** The context as the fallback quotes it: at most 500 characters, then `...` if cut. */
  function Excerpt(context: string): (e: string)
    ensures |e| <= ExcerptLimit + 3
    ensures context[..if |context| < ExcerptLimit then |context| else ExcerptLimit] <= e
  {
    if |context| > ExcerptLimit then context[..ExcerptLimit] + "..." else context
  }

  /**
   * What `enhance_with_rag` returns once the context is known and the summariser has
   * answered: `None` when the stripped summary mentions the sentinel, the framed
   * summary otherwise, and the framed excerpt and question when summarising failed.
   */
  function SummaryResult(question: string, context: string, outcome: SummaryOutcome): (r: Option<string>)
    ensures r != Some("")
    ensures r.None? ==> outcome.Returned?
  {
    match outcome
    case Returned(raw) =>
      var summary := Strip(raw);
      if Contains(summary, Sentinel) then None
      else Some(BookReferencePrefix + summary + "\n\n" + AnswerInstruction)
    case Failed =>
      Some(FallbackHeader + Excerpt(context) + "\n\n" + FallbackQuestionLead + question)
  }

  /**
   * The excerpt keeps a short context whole; a longer one becomes its first 500
   * characters and `...`, so it is never longer than 503 characters.
   */
  lemma ExcerptSpec(context: string)
    ensures |Excerpt(context)| <= ExcerptLimit + 3
    ensures |context| <= ExcerptLimit ==> Excerpt(context) == context
    ensures |context| > ExcerptLimit ==>
      |Excerpt(context)| == ExcerptLimit + 3
      && Excerpt(context)[..ExcerptLimit] == context[..ExcerptLimit]
      && Excerpt(context)[ExcerptLimit..] == "..."
    ensures context[..if |context| < ExcerptLimit then |context| else ExcerptLimit] <= Excerpt(context)
  {
  }

  /**
   * The result is `None` exactly when the summariser answered and its answer contains
   * the sentinel; the whitespace `strip()` removes can never hide or create it.
   */
  lemma SentinelDecides(question: string, context: string, outcome: SummaryOutcome)
    ensures SummaryResult(question, context, outcome).None?
      <==> outcome.Returned? && Contains(outcome.raw, Sentinel)
  {
    if outcome.Returned? {
      ContainsStripped(outcome.raw, Sentinel);
    }
  }

  /** The sentinel wins wherever it appears, whatever text surrounds it. */
  lemma SentinelPrecedence(question: string, context: string, before: string, after: string)
    ensures SummaryResult(question, context, Returned(before + Sentinel + after)) == None
  {
    var raw := before + Sentinel + after;
    assert OccursAt(raw, Sentinel, |before|) by {
      assert raw[|before|..|before| + |Sentinel|] == Sentinel;
    }
    ContainsIff(raw, Sentinel);
    SentinelDecides(question, context, Returned(raw));
  }

  /**
   * A summary without the sentinel is framed: the book-reference prefix, the stripped
   * summary verbatim, a blank line and the answering instruction.
   */
  lemma SummaryFramed(question: string, context: string, raw: string)
    requires !Contains(raw, Sentinel)
    ensures SummaryResult(question, context, Returned(raw)).Some?
    ensures var r := SummaryResult(question, context, Returned(raw)).value;
      BookReferencePrefix <= r
      && r[|BookReferencePrefix|..|BookReferencePrefix| + |Strip(raw)|] == Strip(raw)
      && r[|BookReferencePrefix| + |Strip(raw)|..] == "\n\n" + AnswerInstruction
  {
    SentinelDecides(question, context, Returned(raw));
    var summary := Strip(raw);
    Framed(BookReferencePrefix, summary, "\n\n" + AnswerInstruction);
    Assoc(BookReferencePrefix + summary, "\n\n", AnswerInstruction);
  }

  /**
   * A failed summariser never yields `None`: the result is the fallback header, the
   * excerpt of the context, a blank line and the question as its final text.
   */
  lemma FailureFallsBack(question: string, context: string)
    ensures SummaryResult(question, context, Failed).Some?
    ensures var r := SummaryResult(question, context, Failed).value;
      var e := Excerpt(context);
      FallbackHeader <= r
      && r[|FallbackHeader|..|FallbackHeader| + |e|] == e
      && r[|r| - |question|..] == question
      && |r| <= |FallbackHeader| + ExcerptLimit + 3 + 2 + |FallbackQuestionLead| + |question|
  {
    ExcerptSpec(context);
  }

  /** The prompt quotes the retrieved context and the question verbatim. */
  lemma PromptQuotes(context: string, question: string)
    ensures Contains(SummaryPrompt(context, question), context)
    ensures Contains(SummaryPrompt(context, question), question)
  {
    var lead := PromptIntro;
    var mid := PromptQuestionLead;
    var prompt := SummaryPrompt(context, question);
    assert prompt[|lead|..|lead| + |context|] == context;
    assert OccursAt(prompt, context, |lead|);
    ContainsIff(prompt, context);
    var j := |lead| + |context| + |mid|;
    assert prompt[j..j + |question|] == question;
    assert OccursAt(prompt, question, j);
    ContainsIff(prompt, question);
  }

  // ---------------------------------------------------------------------------
  // The agent's configuration and its instructions
  // ---------------------------------------------------------------------------

  const DefaultAgentName: string := "Sheikh Abdullah"
  const DefaultAgentPersonality: string :=
    "You are a knowledgeable Islamic scholar specializing in Hadith sciences."

  /** The system instructions after the opening line that names the agent. */
  const InstructionsBody: string :=
    "\n\nYour expertise is in Usool al-Hadith (Foundations of Hadith), which includes:\n"
    + "- The science of hadith authentication (Ilm al-Rijal)\n"
    + "- Chain of narration analysis (Isnad)\n"
    + "- Hadith classifications (Sahih, Hasan, Da'if, etc.)\n"
    + "- Narrator criticism and reliability\n"
    + "- Hadith terminology in both Arabic and English\n\n"
    + "You have access to a comprehensive book on Usool al-Hadith. When students ask you questions:\n\n"
    + "1. **Use your knowledge** for general explanations and teaching\n"
    + "2. **Search the book** when asked about specific chapters, detailed methodologies, or precise definitions\n"
    + "3. **Use tools** when asked about specific narrators or classification terms\n\n"
    + "Guidelines:\n"
    + "- Be warm, patient, and encouraging with students\n"
    + "- Explain complex concepts clearly, using analogies when helpful\n"
    + "- Include relevant Arabic terms with English translations\n"
    + "- Reference specific chapters or scholars when citing from the book\n"
    + "- If you're unsure, say so honestly and guide the student to learn together\n\n"
    + "Remember: Your goal is to make the intricate science of Hadith methodology accessible and engaging for students of all levels.\n"

  /**
   * The system instructions, built from the agent's name and personality; they open by
   * naming the agent and stating its personality.
   */
  function SystemMessage(name: string, personality: string): (r: string)
    ensures "You are " + name + ", " + personality <= r
  {
    "You are " + name + ", " + personality + InstructionsBody
  }

  /** `HadithVoiceAgent`: the retrieval service and the persona, fixed when it is built. */
  class HadithVoiceAgent {
    const ragService: RAGService
    const agentName: string
    const agentPersonality: string

    constructor (ragService: RAGService, agentName: string, agentPersonality: string)
      ensures this.ragService == ragService
      ensures this.agentName == agentName && this.agentPersonality == agentPersonality
    {
      this.ragService := ragService;
      this.agentName := agentName;
      this.agentPersonality := agentPersonality;
    }

    /**
     * `HadithVoiceAgent()`: builds the retrieval service, then reads the persona from
     * the environment with its defaults; `None` when building the service raises.
     */
    static method FromEnvironment(env: Env, search: Search) returns (r: Option<HadithVoiceAgent>)
      ensures r.None? <==> ConfiguredTopK(env).None?
      ensures r.Some? ==> r.value.ragService.topK == ConfiguredTopK(env).value
      ensures r.Some? ==> r.value.ragService.search == search
      ensures r.Some? ==> r.value.ragService.indexName == GetEnv(env, "PINECONE_INDEX_NAME", DefaultIndexName)
      ensures r.Some? ==> r.value.agentName == GetEnv(env, "AGENT_NAME", DefaultAgentName)
      ensures r.Some? ==> r.value.agentPersonality == GetEnv(env, "AGENT_PERSONALITY", DefaultAgentPersonality)
    {
      var service := RAGService.FromEnvironment(env, search);
      if service.None? {
        return None;
      }
      var agent := new HadithVoiceAgent(
        service.value,
        GetEnv(env, "AGENT_NAME", DefaultAgentName),
        GetEnv(env, "AGENT_PERSONALITY", DefaultAgentPersonality));
      r := Some(agent);
    }

    /** `create_initial_context()`: a new context holding exactly the system instructions. */
    method CreateInitialContext() returns (ctx: ChatContext)
      ensures fresh(ctx)
      ensures ctx.items == [ChatMessage(System, SystemMessage(agentName, agentPersonality))]
    {
      ctx := new ChatContext();
      ctx.AddMessage(System, SystemMessage(agentName, agentPersonality));
    }

    /**
     * What `enhance_with_rag(question)` returns when the summariser answers the prompt
     * with `reply`: the summary result for the context `query(question)` gives.
     */
    function Enhancement(question: string, reply: string -> SummaryOutcome): Option<string> {
      var context := ragService.QueryText(question);
      SummaryResult(question, context, reply(SummaryPrompt(context, question)))
    }

    /** `enhance_with_rag(question)`: retrieve, prompt the summariser, interpret its answer. */
    method EnhanceWithRag(question: string, reply: string -> SummaryOutcome) returns (r: Option<string>)
      ensures r == Enhancement(question, reply)
      ensures r != Some("")
    {
      var context := ragService.Query(question);
      var outcome := reply(SummaryPrompt(context, question));
      r := SummaryResult(question, context, outcome);
    }
  }

  /**
   * The enhancement is `None` exactly when the summariser answered with the sentinel,
   * and it is never the empty string.
   */
  lemma EnhancementSpec(agent: HadithVoiceAgent, question: string, reply: string -> SummaryOutcome)
    ensures var context := agent.ragService.QueryText(question);
      var outcome := reply(SummaryPrompt(context, question));
      agent.Enhancement(question, reply).None? <==> outcome.Returned? && Contains(outcome.raw, Sentinel)
    ensures agent.Enhancement(question, reply) != Some("")
  {
    var context := agent.ragService.QueryText(question);
    SentinelDecides(question, context, reply(SummaryPrompt(context, question)));
  }

  // ---------------------------------------------------------------------------
  // The turn hook: on_user_turn_completed
  // ---------------------------------------------------------------------------

  /** `HadithAssistant`: the voice agent it consults and the instructions it was given. */
  class HadithAssistant {
    const hadithAgent: HadithVoiceAgent
    const instructions: string

    constructor (hadithAgent: HadithVoiceAgent)
      ensures this.hadithAgent == hadithAgent
      ensures instructions == SystemMessage(hadithAgent.agentName, hadithAgent.agentPersonality)
    {
      this.hadithAgent := hadithAgent;
      instructions := SystemMessage(hadithAgent.agentName, hadithAgent.agentPersonality);
    }

    /** The messages the hook adds for `message`: none, or one assistant message. */
    function TurnInjection(message: ChatMessage, reply: string -> SummaryOutcome): (r: seq<ChatMessage>)
      ensures |r| <= 1
      ensures forall m :: m in r ==> m.role == Assistant && m.content != ""
    {
      if message.role != User || !ShouldUseRag(message.content) then []
      else
        match hadithAgent.Enhancement(message.content, reply)
        case Some(enhanced) => if enhanced != "" then [ChatMessage(Assistant, enhanced)] else []
        case None => []
    }

    /**
     * `on_user_turn_completed(turn_ctx, new_message)`: for a user message that passes
     * the gate and gets an enhancement, appends that enhancement as an assistant
     * message; otherwise leaves the context alone.
     */
    method OnUserTurnCompleted(turnCtx: ChatContext, newMessage: ChatMessage, reply: string -> SummaryOutcome)
      modifies turnCtx
      ensures turnCtx.items == old(turnCtx.items) + TurnInjection(newMessage, reply)
    {
      if newMessage.role != User {
        return;
      }
      var question := newMessage.content;
      if ShouldUseRag(question) {
        var enhanced := hadithAgent.EnhanceWithRag(question, reply);
        if enhanced.Some? && enhanced.value != "" {
          turnCtx.AddMessage(Assistant, enhanced.value);
        }
      }
    }
  }

  /**
   * The hook adds a message exactly when the message is the user's, the gate lets it
   * through and the enhancement is not `None`; that message is then the only one
   * added, has the assistant role and carries the enhancement.
   */
  lemma InjectionSpec(assistant: HadithAssistant, message: ChatMessage, reply: string -> SummaryOutcome)
    ensures |assistant.TurnInjection(message, reply)| <= 1
    ensures assistant.TurnInjection(message, reply) != [] <==>
      message.role == User && ShouldUseRag(message.content)
        && assistant.hadithAgent.Enhancement(message.content, reply).Some?
    ensures assistant.TurnInjection(message, reply) != [] ==>
      assistant.TurnInjection(message, reply)
        == [ChatMessage(Assistant, assistant.hadithAgent.Enhancement(message.content, reply).value)]
  {
    EnhancementSpec(assistant.hadithAgent, message.content, reply);
  }

  /**
   * When summarising fails for a user question that passes the gate, the hook still
   * injects one message, and it ends with the question.
   */
  lemma FailedSummaryStillInjects(assistant: HadithAssistant, question: string, reply: string -> SummaryOutcome)
    requires ShouldUseRag(question)
    requires reply(SummaryPrompt(assistant.hadithAgent.ragService.QueryText(question), question)) == Failed
    ensures |assistant.TurnInjection(ChatMessage(User, question), reply)| == 1
    ensures var content := assistant.TurnInjection(ChatMessage(User, question), reply)[0].content;
      content[|content| - |question|..] == question
  {
    FailureFallsBack(question, assistant.hadithAgent.ragService.QueryText(question));
  }
}
