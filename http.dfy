/** What the Express handlers see and answer: JSON field values, the chat request body,
    the JSON responses with their status codes, and the `{role, content}` shape that a
    `SELECT role, content` history query yields. */
module Http {
  import Db
  import Llm
  import opened JsStrings

  /** A field of `req.body`: missing, a string, or some other JSON value (`null`, a number,
      a boolean, an object), which is either truthy or falsy. */
  datatype JsValue = Absent | Str(s: string) | NonString(truthy: bool)

  /** `!v`. */
  predicate Falsy(v: JsValue) {
    match v
    case Absent => true
    case Str(s) => s == []
    case NonString(truthy) => !truthy
  }

  /** `!(!v || typeof v !== 'string')`: a string that is not empty. */
  predicate TruthyString(v: JsValue) {
    !(Falsy(v) || !v.Str?)
  }

  /** `!(!v || typeof v !== 'string' || v.trim() === '')`: a string with a non-space
      character (`trim()` is empty exactly when every character is white space; see
      `FieldChecks`). */
  predicate NonBlankString(v: JsValue) {
    !(Falsy(v) || !v.Str? || AllSpace(v.s))
  }

  /** The blank check is the `trim() === ''` test: a string passes it exactly when trimming
      leaves something. It implies the plain check, which also lets a string of spaces
      through. */
  lemma FieldChecks(v: JsValue)
    ensures NonBlankString(v) <==> !(Falsy(v) || !v.Str? || Trim(v.s) == [])
    ensures NonBlankString(v) ==> TruthyString(v)
    ensures v.Str? ==> (TruthyString(v) <==> v.s != [])
  {
    if v.Str? && v.s == [] {
      assert AllSpace(v.s);
    }
  }

  datatype ChatBody = ChatBody(sessionId: JsValue, message: JsValue)

  datatype Response =
    | ChatOk(reply: string, tokensUsed: int)
    | ConversationOk(sessionId: string, messages: seq<Db.MessageRow>)
    | SessionsOk(sessions: seq<Db.SessionSummary>)
    | Failed(status: nat, error: string)

  /** The `{role, content}` objects a `SELECT role, content FROM messages` query returns. */
  function RoleContent(rows: seq<Db.MessageRow>): (r: seq<Llm.WireMessage>)
    ensures |r| == |rows|
  {
    seq(|rows|, k requires 0 <= k < |rows| => Llm.WireMessage(rows[k].role.Name(), rows[k].content))
  }
}
