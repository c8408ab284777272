# Usool al-Hadith voice tutor — a verified model of its turn pipeline

The voice tutor answers spoken questions about the foundations of hadith
science. It can consult a book that is indexed in a vector store. This project
models the logic that runs on each user turn, plus the two lookup tools the
tutor can call. Each model states and proves what that code promises.

- **The retrieval gate** (`should_use_rag`). A short utterance that contains a
  greeting, thanks or farewell keyword (`hello`, `hi`, `thanks`, `thank you`,
  `bye`, `goodbye`) *anywhere*, even inside another word, skips the book. Every
  other utterance consults it.
- **The retrieval service** (`RAGService`):
  - Its settings come from the environment. `top_k` defaults to 5, and an
    omitted `k` falls back to `top_k`.
  - Retrieved passages are formatted into numbered `[Source i - Page p]:`
    blocks, joined by a blank line.
  - When nothing is retrieved, the result is a fixed sentence.
- **The enhancement** (`enhance_with_rag`). The summariser's answer is
  stripped and checked for the `NO_RELEVANT_INFO` sentinel. Without the
  sentinel, the answer is framed as a book reference. When the summariser
  fails, the result is a fallback excerpt of at most 500 characters plus
  `...`, followed by the question.
- **The conversation**:
  - `create_initial_context` builds a context that holds only the system
    instructions.
  - `on_user_turn_completed` adds at most one assistant message, and only for
    a user turn that passes the gate and gets an enhancement.
- **The lookup tools** (`get_narrator_info`, `get_hadith_classification`).
  Each normalises its argument with `lower().strip()` and looks it up in a
  fixed table. It then formats either the entry or a fallback that quotes the
  argument as given.

The Python built-ins the code relies on are modelled in `PyStrings`:

- whitespace is the full `str.isspace` set;
- `strip()`, `split()`, `sep.join()`, the `in` substring test and `str(int)`;
- `int(str)`, covering sign, underscores and surrounding whitespace. `int()`
  skips a narrower set than `isspace`: the separators U+001C..U+001F are
  errors in front of or after a number;
- `lower()` and `upper()`, on ASCII letters.

The vector store's similarity search is a function given to the service. The
summarising model is a function from the prompt to an outcome, either
`Failed` or `Returned(raw)`. `Failed` stands for a raised exception, including
a response with no choices or no content. The process environment is a map.

Files:

| file | module | contents |
|---|---|---|
| wrappers.dfy | `Wrappers` | `Option` |
| environment.dfy | `Environment` | `os.getenv` with a default |
| chat.dfy | `Chat` | chat roles, messages, and the append-only `ChatContext` class |
| pystrings.dfy | `PyStrings` | the Python string built-ins listed above |
| rag.dfy | `Rag` | backend/rag_service.py |
| agent.dfy | `Agent` | backend/agent.py |
| tools.dfy | `Tools` | backend/tools.py |

## Model

| member | source | states |
|---|---|---|
| PyStrings.Lower | backend/agent.py:97 | `lower()` keeps the length and leaves no ASCII capital |
| PyStrings.Upper | backend/tools.py:157 | `upper()` keeps the length and leaves no ASCII small letter |
| PyStrings.LowerIdempotent | backend/agent.py:97 | lower-casing twice is lower-casing once |
| PyStrings.Strip | backend/rag_service.py:72 | `strip()` returns a string no longer than its input, with no whitespace at either end |
| PyStrings.StripSpec | backend/rag_service.py:72 | the input is what `strip()` returns framed by whitespace only |
| PyStrings.StripUnique | backend/agent.py:156 | any string with no whitespace at its ends, framed by whitespace, strips back to itself |
| PyStrings.StripPadded | backend/tools.py:73 | whitespace added around a string is removed again by `strip()` |
| PyStrings.Contains | backend/agent.py:166 | the `in` test can only succeed for a pattern no longer than the text |
| PyStrings.ContainsIff | backend/agent.py:166 | the `in` test succeeds exactly when some index starts an occurrence of the pattern |
| PyStrings.ContainsStripped | backend/agent.py:156-166 | a whitespace-free pattern occurs in `s.strip()` exactly when it occurs in `s` |
| PyStrings.Split | backend/agent.py:97 | every piece `split()` returns is a non-empty word without whitespace |
| PyStrings.Join | backend/rag_service.py:77 | a joined string starts with its first part |
| PyStrings.SplitJoin | backend/agent.py:97 | `" ".join(words).split() == words` for non-empty words without whitespace |
| PyStrings.SplitCountsWords | backend/agent.py:97 | `len(s.split())` equals the number of word starts: non-whitespace characters at the start or after whitespace |
| PyStrings.SplitIgnoresCase | backend/agent.py:97 | lower-casing never changes the number of words |
| PyStrings.IntToString | backend/rag_service.py:74 | `str(n)` is decimal digits, with a leading `-` exactly for a negative number |
| PyStrings.ParseInt | backend/rag_service.py:27 | `int(s)` reads a number only from a string that holds a digit |
| PyStrings.ParsePrinted | backend/rag_service.py:27 | `int(str(n)) == n` for every integer |
| PyStrings.SeparatorIsNotSkipped | backend/rag_service.py:27 | `int()` skips a no-break space and a line feed around a number, but rejects a file separator (U+001C) in front of it |
| Rag.SourceBlock | backend/rag_service.py:70-74 | a block starts with `[Source ` and the passage's number, and ends with the passage's text, stripped |
| Rag.Blocks | backend/rag_service.py:69-75 | there is one source block per retrieved document |
| Rag.BlocksAt | backend/rag_service.py:70-75 | block k is document k's block, numbered k+1, with its page label or `Unknown` and its stripped content |
| Rag.FormattedContext | backend/rag_service.py:56-77 | the formatted context is never the empty string, for no documents as for some |
| Rag.FormattedStartsWithFirst | backend/rag_service.py:69-77 | with documents, the context starts with the block of the first document, numbered 1 |
| Rag.FormattedSnoc | backend/rag_service.py:69-77 | one more document adds a blank line and its block, numbered after the others, so blocks follow input order |
| Rag.FormattedHasEveryPassage | backend/rag_service.py:70-77 | every document's block, and so its stripped content, occurs in the context |
| Rag.ConfiguredTopK | backend/rag_service.py:27 | without `TOP_K_RESULTS` in the environment, `top_k` is 5 |
| Rag.RAGService.FromEnvironment | backend/rag_service.py:16-33 | the service gets the configured index name and `top_k`; of the modelled failures, it fails exactly when `TOP_K_RESULTS` is not an integer |
| Rag.RAGService.RetrieveContext | backend/rag_service.py:35-54 | an omitted `k` searches with `top_k`; a given `k` is passed through |
| Rag.RAGService.FormatContext | backend/rag_service.py:56-77 | the loop builds the blocks in order and returns them joined by a blank line, or the fixed sentence for no documents; the result is never empty |
| Rag.RAGService.QueryText | backend/rag_service.py:79-90 | what `query(q)` returns is never empty |
| Rag.RAGService.Query | backend/rag_service.py:79-90 | `query(q)` formats what retrieval with `top_k` returns, and is never empty |
| Chat.ChatContext.constructor | backend/agent.py:77 | a new chat context holds no messages |
| Chat.ChatContext.AddMessage | backend/agent.py:261-264 | `add_message` appends exactly one message at the end and leaves earlier messages alone |
| Agent.ShouldUseRag | backend/agent.py:84-102 | a question of 5 or more words always triggers retrieval |
| Agent.AnyInIff | backend/agent.py:97 | `any(keyword in text ...)` holds exactly when some keyword occurs in the text |
| Agent.GateSpec | backend/agent.py:96-102 | the gate skips exactly when a skip keyword occurs in the lower-cased question and the question has fewer than 5 word starts |
| Agent.LongUtterancesRetrieve | backend/agent.py:97-102 | 5 or more word starts always trigger retrieval |
| Agent.NoKeywordRetrieves | backend/agent.py:96-102 | a question containing no skip keyword always triggers retrieval |
| Agent.GateIgnoresCase | backend/agent.py:97 | the gate's answer does not depend on letter case |
| Agent.ShortWithKeywordSkips | backend/agent.py:97-98 | a question of fewer than 5 words with a keyword in its lower-cased text is skipped |
| Agent.KeywordInsideWordSkips | backend/agent.py:97-98 | the keyword test is a substring test: a keyword inside a longer word of a short question skips retrieval |
| Agent.WhatIsThisSkipped | backend/agent.py:97-98 | "What is this?" is skipped because "hi" occurs inside "this" |
| Agent.LongGreetingRetrieves | backend/agent.py:97-102 | 5 or more blank-separated words trigger retrieval whatever they contain |
| Agent.LongGreetingExample | backend/agent.py:97-102 | "hello what is a hadith" triggers retrieval despite the greeting |
| Agent.SummaryPrompt | backend/agent.py:131-146 | the prompt opens with the fixed introduction, directly followed by the retrieved context verbatim |
| Agent.PromptQuotes | backend/agent.py:131-146 | the summary prompt contains the retrieved context and the question verbatim |
| Agent.Excerpt | backend/agent.py:179 | the excerpt is at most 503 characters and starts with the context's first 500 characters (or all of it) |
| Agent.ExcerptSpec | backend/agent.py:179 | the excerpt is the context when it is at most 500 characters long; otherwise it is the first 500 characters plus `...` |
| Agent.SummaryResult | backend/agent.py:156-183 | the result is never the empty string, so the truthiness test at line 258 only filters `None`; `None` only ever comes from an answer |
| Agent.SentinelDecides | backend/agent.py:156-168 | the result is `None` exactly when the summariser answered with text containing `NO_RELEVANT_INFO`; stripping cannot hide or create the sentinel |
| Agent.SentinelPrecedence | backend/agent.py:166-168 | the sentinel anywhere in the answer, whatever surrounds it, yields `None` |
| Agent.SummaryFramed | backend/agent.py:170-174 | an answer without the sentinel becomes the book-reference prefix, the stripped answer verbatim, a blank line and the answering instruction |
| Agent.FailureFallsBack | backend/agent.py:176-183 | a failed summariser never yields `None`: the result is the fallback header, then the excerpt, and it ends with the question |
| Agent.SystemMessage | backend/agent.py:51-74 | the instructions open with "You are", the agent's name, a comma and its personality |
| Agent.HadithVoiceAgent.FromEnvironment | backend/agent.py:33-42 | the agent gets a retrieval service with the configured index name and `top_k`, and reads its name and personality from the environment, with their defaults; of the modelled failures, it fails exactly when `TOP_K_RESULTS` is not an integer |
| Agent.HadithVoiceAgent.CreateInitialContext | backend/agent.py:44-82 | a new context holding exactly one message: the system instructions |
| Agent.HadithVoiceAgent.EnhanceWithRag | backend/agent.py:104-183 | it retrieves with `query`, prompts the summariser with that context and interprets the answer; the result is never the empty string |
| Agent.EnhancementSpec | backend/agent.py:118-183 | the enhancement is `None` exactly when the summariser's answer for the retrieved context carries the sentinel |
| Agent.HadithAssistant.constructor | backend/agent.py:189-221 | the assistant's instructions are the same system text the initial context holds |
| Agent.HadithAssistant.TurnInjection | backend/agent.py:238-264 | a turn injects at most one message, and what it injects has the assistant role and non-empty content |
| Agent.HadithAssistant.OnUserTurnCompleted | backend/agent.py:223-268 | the new context is the old one followed by the turn's injection; nothing earlier changes |
| Agent.InjectionSpec | backend/agent.py:238-264 | a turn adds a message exactly when it is a user turn that passes the gate and gets an enhancement; then it adds one assistant message carrying that enhancement |
| Agent.FailedSummaryStillInjects | backend/agent.py:252-264 | when summarising fails for a user question that passes the gate, one message is still injected, and it ends with the question |
| Tools.LookupKey | backend/tools.py:73 | the lookup key has no whitespace at its ends and no capitals |
| Tools.LookupKeyNormalises | backend/tools.py:73 | whitespace around a name, and its letter case, never change the lookup key |
| Tools.Connection | backend/tools.py:82 | the connection line shows a recorded teacher, a recorded companion, or `N/A` |
| Tools.ConnectionSpec | backend/tools.py:82 | the connection is `student_of` if present, else `companion_of`, else `N/A` |
| Tools.NarratorCard | backend/tools.py:77-83 | a card opens with the bold full name on its own line and closes with the connection line |
| Tools.GetNarratorInfo | backend/tools.py:16-89 | a known name gets a card headed by its entry's full name; any other name gets an answer quoting the name as given |
| Tools.NarratorHit | backend/tools.py:75-83 | a name whose key is in the table gets that entry's card |
| Tools.NarratorMiss | backend/tools.py:84-89 | an unknown name gets the fallback, which quotes the name as given, not normalised |
| Tools.AbuHurairahConnection | backend/tools.py:49-55 | Abu Hurairah's connection is his `companion_of` value |
| Tools.PaddedCapitalsHit | backend/tools.py:73-83 | " BUKHARI " finds the `bukhari` entry |
| Tools.ClassificationCard | backend/tools.py:156-162 | the heading is the term as given (not its key) in capitals, then the Arabic term in parentheses; the card closes with the example |
| Tools.GetHadithClassification | backend/tools.py:96-169 | a known term gets a card headed by the term as given, in capitals; any other term gets an answer quoting it as given |
| Tools.ClassificationHit | backend/tools.py:152-162 | a term whose key is in the table gets that entry's card |
| Tools.PaddedTermKeepsPadding | backend/tools.py:152-157 | a known term padded with whitespace is still found, and its heading shows the padding around the capitalised term |
| Tools.ClassificationMiss | backend/tools.py:163-169 | an unknown term gets the fixed fallback listing the five classes, which quotes the term as given |
| Tools.DaifWithApostropheMisses | backend/tools.py:129 | "Da'if" is not found, because the table's key is `daif` |

## Left out

- backend/token_server.py and backend/ingest_pdf.py are not part of this model:
  - they are HTTP handlers, token minting, PDF loading and chunking;
  - they also cover embedding and index creation, all calls into libraries.
- Embeddings and `similarity_search` (backend/rag_service.py:20-33, 49-52) are a search function given to the service. The model claims nothing about ranking or order.
- The exceptions that search can raise are not modelled. In backend/agent.py:118 the retrieval call sits outside the `try`, so a retrieval failure propagates to the caller; the code has no path that turns it into an empty result.
- Agent.HadithVoiceAgent.EnhanceWithRag: always returns. The import of the OpenAI client and its construction (backend/agent.py:128-129) sit outside the `try`; if either raises, the exception propagates out of `enhance_with_rag` and `on_user_turn_completed` and never reaches the fallback. The model covers only runs where both succeed.
- The summarising call and the reading of its answer (backend/agent.py:149-156), including model name, token limit and temperature, appear only as their outcome: `Failed` or `Returned(raw)`.
- LiveKit plumbing is not modelled:
  - `entrypoint`, the session, speech-to-text, text-to-speech and voice-activity detection;
  - the greeting, the tool registration decorators and `HADITH_TOOLS`;
  - all logging.
  - `async`/`await` is treated as sequential.
- The `str(new_message.content)` coercion of non-string content (backend/agent.py:243-247) is out of scope: the content is a string.
- `lower()` and `upper()` map ASCII letters only. Unicode case mapping, such as `'İ'.lower()`, is not modelled.
- PyStrings.ParseInt: accepts ASCII digits only; Python also accepts other Unicode decimal digits. It does not model the limit of 4300 digits that Python 3.11 and later put on `int()` and `str()`.
- Rag.RAGService.FromEnvironment: never fails while building the embedding model and the vector store. `HuggingFaceEmbeddings(...)` and `PineconeVectorStore(...)` (backend/rag_service.py:20-24, 30-33) can raise, for example for a missing Pinecone API key or index, and that exception propagates out of `RAGService()` and `HadithVoiceAgent()` (backend/agent.py:35). In the model `None` stands only for the `int()` failure. The same holds for `Agent.HadithVoiceAgent.FromEnvironment`.
- Rag.RAGService.FromEnvironment: builds a service for a `TOP_K_RESULTS` of more than 4300 digits, where `int()` at backend/rag_service.py:27 raises under Python 3.11 and later; the same holds for `Agent.HadithVoiceAgent.FromEnvironment`.
- Page metadata is modelled as its rendered text, or absent. Its Python type is decided by the vector store.
- The system text is written twice in backend/agent.py (lines 51-74 and 191-214). The two copies are character-identical, so it is modelled once, as `SystemMessage`.
- Tools.NarratorCard: states the card's opening and closing lines, and `NarratorHit` gives the whole card. That the card has exactly five lines for every table entry is not proved separately.
- That equal tool inputs give equal outputs needs no lemma: both tools are Dafny functions.
