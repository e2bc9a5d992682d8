/** The pure parts of backend/llm.js: the documentation block and system prompt, the
    request assembled around the history, and the post-processing of the completion.
    The completion endpoint itself is a function parameter (`provider`). */
module Llm {
  import opened Wrappers
  import opened JsStrings
  import Seqs

  /** One entry of the static documentation list (`docs.json`). */
  datatype Doc = Doc(title: string, content: string)

  /** A `{role, content}` entry of the message list sent to the endpoint. */
  datatype WireMessage = WireMessage(role: string, content: string)

  datatype ChatRequest = ChatRequest(model: string, messages: seq<WireMessage>)

  /** What an awaited call can throw: its `message`, and the optional `status` and `code`
      properties the handlers inspect. */
  datatype ApiError = ApiError(message: string, status: Option<int>, code: Option<string>)

  /** The endpoint's answer: the first choice's message content and `usage.total_tokens`,
      either of which may be absent, or a thrown error. */
  datatype Completion =
    | Completed(content: Option<string>, totalTokens: Option<int>)
    | Thrown(error: ApiError)

  datatype Reply = Reply(reply: string, tokensUsed: int)

  const Model: string := "llama-3.1-8b-instant"

  const Fallback: string := "Sorry, I don't have information about that."

  /** How many history entries are forwarded (`slice(-10)`). */
  const HistoryLimit: nat := 10

  const Preamble: string :=
    "You are a helpful customer support assistant. You MUST answer questions ONLY using the provided documentation below. \n"
    + "\n"
    + "STRICT RULES:\n"
    + "1. Only answer based on the documentation provided. Do not use any external knowledge.\n"
    + "2. If the user's question cannot be answered from the documentation, respond EXACTLY with: \"Sorry, I don't have information about that.\"\n"
    + "3. Do not guess, hallucinate, or extrapolate beyond what is written in the docs.\n"
    + "4. Be concise, friendly, and helpful.\n"
    + "5. If partially relevant info exists, share what you know and note limitations.\n"
    + "\n"
    + "=== PRODUCT DOCUMENTATION ===\n"
    + "\n"

  /** The closing reminder up to the quoted fallback sentence it ends with. */
  const ClosingHead: string :=
    "\n"
    + "\n"
    + "=== END OF DOCUMENTATION ===\n"
    + "\n"
    + "Remember: Only answer from the documentation above. If unsure, say \""

  const Closing: string := ClosingHead + Fallback + "\""

  /** Document `i` (counting from 0) as `[i+1] title:` followed by its content. */
  function RenderDoc(i: nat, d: Doc): string {
    "[" + DecimalString(i + 1) + "] " + d.title + ":\n" + d.content
  }

  function RenderedDocs(docs: seq<Doc>): seq<string> {
    seq(|docs|, i requires 0 <= i < |docs| => RenderDoc(i, docs[i]))
  }

  /** `buildDocsContext`: the rendered documents joined by blank lines. */
  function DocsContext(docs: seq<Doc>): string {
    Join(RenderedDocs(docs), "\n\n")
  }

  /** The documentation block is built in document order: no documents give the empty
      string, and one more document adds a blank line and that document, numbered by its
      position, at the end. */
  lemma DocsContextGrows(docs: seq<Doc>, d: Doc)
    ensures DocsContext([]) == ""
    ensures DocsContext(docs + [d]) ==
      (if docs == [] then "" else DocsContext(docs) + "\n\n") + RenderDoc(|docs|, d)
  {
    assert RenderedDocs(docs + [d]) == RenderedDocs(docs) + [RenderDoc(|docs|, d)];
    JoinSnoc(RenderedDocs(docs), RenderDoc(|docs|, d), "\n\n");
  }

  /** `buildSystemPrompt`. */
  function SystemPrompt(docs: seq<Doc>): string {
    Preamble + DocsContext(docs) + Closing
  }

  /** The prompt is the fixed preamble, then exactly the documentation block, then the fixed
      closing reminder. */
  lemma SystemPromptLayout(docs: seq<Doc>)
    ensures StartsWith(SystemPrompt(docs), Preamble)
    ensures SystemPrompt(docs)[|Preamble|..|SystemPrompt(docs)| - |Closing|] == DocsContext(docs)
    ensures SystemPrompt(docs)[|SystemPrompt(docs)| - |Closing|..] == Closing
  {
    var p := SystemPrompt(docs);
    assert p[..|Preamble|] == Preamble;
  }

  /** The prompt tells the model to answer with the same fallback sentence that `ReplyText`
      substitutes for an empty answer. */
  lemma SystemPromptNamesFallback(docs: seq<Doc>)
    ensures Includes(SystemPrompt(docs), Fallback)
  {
    var p := SystemPrompt(docs);
    var front := Preamble + DocsContext(docs) + ClosingHead;
    assert p == front + Fallback + "\"";
    assert p[|front|..|front| + |Fallback|] == Fallback;
    assert OccursAt(p, Fallback, |front|);
    IncludesIff(p, Fallback);
  }

  /** `messages.slice(-10).map(m => ({role: m.role, content: m.content}))`. */
  function Window(history: seq<WireMessage>): (r: seq<WireMessage>)
    ensures |r| == Seqs.Min(|history|, HistoryLimit)
    ensures r == history[|history| - |r|..]
  {
    Seqs.TakeLast(history, HistoryLimit)
  }

  /** The request `chat` sends: the system prompt, the windowed history, the user turn. */
  function BuildRequest(docs: seq<Doc>, history: seq<WireMessage>, userMessage: string): (r: ChatRequest)
    ensures r.model == Model
    ensures |r.messages| == Seqs.Min(|history|, HistoryLimit) + 2
    ensures r.messages[0] == WireMessage("system", SystemPrompt(docs))
    ensures r.messages[|r.messages| - 1] == WireMessage("user", userMessage)
    ensures r.messages[1..|r.messages| - 1] == history[|history| - Seqs.Min(|history|, HistoryLimit)..]
  {
    var msgs := [WireMessage("system", SystemPrompt(docs))] + Window(history) + [WireMessage("user", userMessage)];
    assert msgs[1..|msgs| - 1] == Window(history);
    ChatRequest(Model, msgs)
  }

  /** `completion.choices?.[0]?.message?.content || Fallback`: never empty. */
  function ReplyText(content: Option<string>): (r: string)
    ensures r != ""
    ensures r == (if content.Some? && content.value != "" then content.value else Fallback)
  {
    match content
    case Some(s) => if s != "" then s else Fallback
    case None => Fallback
  }

  /** `completion.usage?.total_tokens || 0`. */
  function TokensUsed(total: Option<int>): (r: int)
    ensures total.None? ==> r == 0
    ensures total.Some? ==> r == total.value
  {
    match total
    case Some(n) => if n != 0 then n else 0
    case None => 0
  }

  /** `chat(messages, userMessage)`: one call of the endpoint on the assembled request.
      It fails exactly when the endpoint throws, with the thrown error; otherwise the reply
      is the answer's text, or the fallback sentence when that is missing or empty, and the
      token count is the reported total, or 0 when none is reported. */
  function Chat(docs: seq<Doc>, history: seq<WireMessage>, userMessage: string,
                provider: ChatRequest -> Completion): (r: Result<Reply, ApiError>)
    ensures provider(BuildRequest(docs, history, userMessage)).Thrown? <==> r.Failure?
    ensures r.Failure? ==> r.error == provider(BuildRequest(docs, history, userMessage)).error
    ensures r.Success? ==>
      var c := provider(BuildRequest(docs, history, userMessage));
      && r.value.reply != ""
      && r.value.reply == (if c.content.Some? && c.content.value != "" then c.content.value else Fallback)
      && r.value.tokensUsed == c.totalTokens.GetOr(0)
  {
    match provider(BuildRequest(docs, history, userMessage))
    case Thrown(e) => Failure(e)
    case Completed(content, total) => Success(Reply(ReplyText(content), TokensUsed(total)))
  }
}
