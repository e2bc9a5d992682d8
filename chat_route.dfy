/** backend/routes/chat.js, a second `POST /api/chat` handler that the server never mounts.
    It checks its fields differently from the server (the session id is not trimmed), stores
    the user's message before calling the LLM, and reads the newest ten messages as context.
    It calls `getLLMReply`, a name the LLM module does not export: `ChatTurn` takes the reply
    function as a parameter, and `MissingExport` is what that name actually evaluates to. */
module ChatRoute {
  import opened Wrappers
  import opened JsStrings
  import opened Db
  import Seqs
  import Llm
  import opened Http
  import Server

  /** The reply function the router awaits: the context in, a reply or a thrown error out. */
  type ReplyFunction = seq<Llm.WireMessage> -> Result<Llm.Reply, Llm.ApiError>

  const SessionIdError := "sessionId is required and must be a string."
  const MessageError := "message is required and must be a non-empty string."

  /** The catch block: a bad-request error from the LLM client is passed on as 400,
      anything else is 500. */
  function ErrorResponse(e: Llm.ApiError): Response {
    if e.code == Some("ERR_BAD_REQUEST") || e.status == Some(400) then Failed(400, "Bad request to LLM service.")
    else Failed(500, "Internal server error. Please try again.")
  }

  /** The context query: `WHERE session_id = ? ORDER BY id DESC LIMIT 10`, then reversed. */
  function RecentRows(ms: seq<MessageRow>, sid: string): seq<MessageRow> {
    Seqs.Reverse(Seqs.Limit(Seqs.Reverse(Seqs.SortBy(MessagesOf(ms, sid), MessageId)), Llm.HistoryLimit))
  }

  /** The tables after the two writes that precede the LLM call: the session upserted and
      the trimmed user message inserted, both at `now`. */
  function Stored(t: Tables, sid: string, text: string, now: Time): Tables {
    Append(t.(sessions := Upsert(t.sessions, sid, now)), sid, User, text, 0, now)
  }

  /** The context handed to the reply function, read after the user row is stored. */
  function Context(t: Tables, sid: string, text: string, now: Time): seq<Llm.WireMessage> {
    RoleContent(RecentRows(Stored(t, sid, text, now).messages, sid))
  }

  /** The whole router turn on table values. */
  function ChatTurn(t: Tables, body: ChatBody, now: Time, later: Time, getReply: ReplyFunction): (Response, Tables) {
    if !TruthyString(body.sessionId) then (Failed(400, SessionIdError), t)
    else if !NonBlankString(body.message) then (Failed(400, MessageError), t)
    else
      var sid, text := body.sessionId.s, Trim(body.message.s);
      AcceptedTurn(t, sid, text, now, later, getReply(Context(t, sid, text, now)))
  }

  /** An accepted turn, given what the reply function ended with: the session and the user
      row are stored at `now` either way; an error leaves them as they are; a reply is
      inserted as the assistant row and the session touched, both at `later`. */
  function AcceptedTurn(t: Tables, sid: string, text: string, now: Time, later: Time,
                        outcome: Result<Llm.Reply, Llm.ApiError>): (Response, Tables)
  {
    var t2 := Stored(t, sid, text, now);
    match outcome
    case Failure(e) => (ErrorResponse(e), t2)
    case Success(r) =>
      var t3 := Append(t2, sid, Assistant, r.reply, r.tokensUsed, later);
      (ChatOk(r.reply, r.tokensUsed), t3.(sessions := Touch(t3.sessions, sid, later)))
  }

  /** The router's handler, step by step on the store. */
  method HandleChat(db: Database, body: ChatBody, now: Time, later: Time, getReply: ReplyFunction)
    returns (res: Response)
    requires db.Valid() && db.clock <= now <= later
    modifies db
    ensures db.Valid()
    ensures (res, db.State()) == ChatTurn(old(db.State()), body, now, later, getReply)
  {
    if !TruthyString(body.sessionId) {
      return Failed(400, SessionIdError);
    }
    if !NonBlankString(body.message) {
      return Failed(400, MessageError);
    }
    var sid := body.sessionId.s;
    var text := Trim(body.message.s);
    ghost var t0 := db.State();
    ChatTurnAccepted(t0, body, now, later, getReply);
    UpsertSpec(db.sessions, sid, now);
    db.UpsertSession(sid, now);
    var userSaved, _ := db.InsertMessage(sid, User, text, None, now);
    assert userSaved;
    assert db.State() == Stored(t0, sid, text, now);
    var rows := db.SelectBySession(sid);
    var newestFirst := Seqs.Reverse(Seqs.SortBy(rows, MessageId));
    var context := RoleContent(Seqs.Reverse(Seqs.Limit(newestFirst, Llm.HistoryLimit)));
    assert context == Context(t0, sid, text, now);
    var outcome := getReply(context);
    if outcome.Failure? {
      return ErrorResponse(outcome.error);
    }
    var reply := outcome.value;
    var replySaved, _ := db.InsertMessage(sid, Assistant, reply.reply, Some(reply.tokensUsed), later);
    assert replySaved;
    db.TouchSession(sid, later);
    res := ChatOk(reply.reply, reply.tokensUsed);
  }

  /** What `getLLMReply` evaluates to: the LLM module exports no such name, so the call
      throws a `TypeError` that carries neither a code nor a status. */
  function MissingExport(context: seq<Llm.WireMessage>): (r: Result<Llm.Reply, Llm.ApiError>)
    ensures r.Failure? && r.error.code.None? && r.error.status.None?
  {
    Failure(Llm.ApiError("getLLMReply is not a function", None, None))
  }

  // ---------------------------------------------------------------------------------------
  // What a router turn does
  // ---------------------------------------------------------------------------------------

  /** An accepted request runs the accepted turn on the verbatim id and the trimmed
      message, with what the reply function returns for the context. */
  lemma ChatTurnAccepted(t: Tables, body: ChatBody, now: Time, later: Time, getReply: ReplyFunction)
    requires TruthyString(body.sessionId) && NonBlankString(body.message)
    ensures var sid, text := body.sessionId.s, Trim(body.message.s);
            ChatTurn(t, body, now, later, getReply) ==
            AcceptedTurn(t, sid, text, now, later, getReply(Context(t, sid, text, now)))
  {
  }

  /** Each 400 of the field checks answers exactly its own failed check, and leaves both
      tables alone; the first check does not trim, the second does. */
  lemma RejectsExactlyInvalidInput(t: Tables, body: ChatBody, now: Time, later: Time, getReply: ReplyFunction)
    ensures ChatTurn(t, body, now, later, getReply).0 == Failed(400, SessionIdError)
            <==> !TruthyString(body.sessionId)
    ensures ChatTurn(t, body, now, later, getReply).0 == Failed(400, MessageError)
            <==> TruthyString(body.sessionId) && !NonBlankString(body.message)
    ensures !(TruthyString(body.sessionId) && NonBlankString(body.message)) ==>
              ChatTurn(t, body, now, later, getReply).1 == t
  {
    if TruthyString(body.sessionId) && NonBlankString(body.message) {
      var sid, text := body.sessionId.s, Trim(body.message.s);
      ChatTurnAccepted(t, body, now, later, getReply);
      AcceptedTurnStoresSession(t, sid, text, now, later, getReply(Context(t, sid, text, now)));
    }
  }

  /** An accepted turn never answers with a field-check error, and whatever the reply
      function does, the session row for the id exists afterwards. */
  lemma AcceptedTurnStoresSession(t: Tables, sid: string, text: string, now: Time, later: Time,
                                  outcome: Result<Llm.Reply, Llm.ApiError>)
    ensures AcceptedTurn(t, sid, text, now, later, outcome).0 != Failed(400, SessionIdError)
    ensures AcceptedTurn(t, sid, text, now, later, outcome).0 != Failed(400, MessageError)
    ensures sid in SessionIds(AcceptedTurn(t, sid, text, now, later, outcome).1.sessions)
  {
    UpsertHasId(t.sessions, sid, now);
    var t2 := Stored(t, sid, text, now);
    assert sid in SessionIds(t2.sessions);
    if outcome.Success? {
      var t3 := Append(t2, sid, Assistant, outcome.value.reply, outcome.value.tokensUsed, later);
      TouchKeepsKeys(t3.sessions, sid, later);
    }
  }

  /** The two handlers disagree on a session id made only of spaces: the mounted server
      answers 400 and writes nothing, the router accepts it and stores it verbatim as a
      session of its own. */
  lemma BlankSessionIdDiverges(t: Tables, s: string, message: JsValue, now: Time, later: Time,
                               docs: seq<Llm.Doc>, provider: Llm.ChatRequest -> Llm.Completion,
                               getReply: ReplyFunction)
    requires s != [] && AllSpace(s) && NonBlankString(message)
    ensures Server.ChatTurn(t, ChatBody(Str(s), message), now, later, docs, provider)
            == (Failed(400, "sessionId is required."), t)
    ensures ChatTurn(t, ChatBody(Str(s), message), now, later, getReply).0 != Failed(400, SessionIdError)
    ensures s in SessionIds(ChatTurn(t, ChatBody(Str(s), message), now, later, getReply).1.sessions)
  {
    Server.ChatRejectsExactlyInvalidInput(t, ChatBody(Str(s), message), now, later, docs, provider);
    AcceptedBodyStoresSession(t, ChatBody(Str(s), message), now, later, getReply);
  }

  /** A body that passes the router's checks is never refused with the id error, and its
      session id, as given, has a session row afterwards. */
  lemma AcceptedBodyStoresSession(t: Tables, body: ChatBody, now: Time, later: Time, getReply: ReplyFunction)
    requires TruthyString(body.sessionId) && NonBlankString(body.message)
    ensures ChatTurn(t, body, now, later, getReply).0 != Failed(400, SessionIdError)
    ensures body.sessionId.s in SessionIds(ChatTurn(t, body, now, later, getReply).1.sessions)
  {
    var sid, text := body.sessionId.s, Trim(body.message.s);
    ChatTurnAccepted(t, body, now, later, getReply);
    AcceptedTurnStoresSession(t, sid, text, now, later, getReply(Context(t, sid, text, now)));
  }

  /** The context query returns the session's newest ten messages, oldest first: exactly
      the last `min(n, 10)` of them, so the newest message is always included. */
  lemma RecentRowsAreLatest(t: Tables, sid: string)
    requires WellFormed(t)
    ensures RecentRows(t.messages, sid) == Seqs.TakeLast(MessagesOf(t.messages, sid), Llm.HistoryLimit)
    ensures |RecentRows(t.messages, sid)| == Seqs.Min(|MessagesOf(t.messages, sid)|, Llm.HistoryLimit)
    ensures MessagesOf(t.messages, sid) != [] ==>
              RecentRows(t.messages, sid)[|RecentRows(t.messages, sid)| - 1] ==
              MessagesOf(t.messages, sid)[|MessagesOf(t.messages, sid)| - 1]
  {
    OrderByIdIsTableOrder(t, sid);
    Seqs.ReverseLimitReverse(MessagesOf(t.messages, sid), Llm.HistoryLimit);
  }

  /** The corrected window against the server's: once a session holds more than ten
      messages, the newest one is in the router's context rows and not in the server's
      history rows. */
  lemma LatestWindowKeepsNewest(t: Tables, sid: string)
    requires WellFormed(t) && |MessagesOf(t.messages, sid)| > Llm.HistoryLimit
    ensures var all := MessagesOf(t.messages, sid);
            && all[|all| - 1] in RecentRows(t.messages, sid)
            && all[|all| - 1] !in Server.EarliestRows(t.messages, sid)
  {
    var all := MessagesOf(t.messages, sid);
    RecentRowsAreLatest(t, sid);
    var r := RecentRows(t.messages, sid);
    assert r[|r| - 1] == all[|all| - 1];
    Server.EarliestHistoryOmitsNewest(t, sid);
  }

  /** Storing the turn's first two writes keeps the invariant; the user row gets the next
      id and becomes the session's newest message. */
  lemma StoredSpec(t: Tables, sid: string, text: string, now: Time)
    requires WellFormed(t) && NotAfter(t, now)
    ensures WellFormed(Stored(t, sid, text, now)) && NotAfter(Stored(t, sid, text, now), now)
    ensures sid in SessionIds(Stored(t, sid, text, now).sessions)
    ensures Stored(t, sid, text, now).messages == t.messages + [MessageRow(t.lastId + 1, sid, User, text, 0, now)]
    ensures MessagesOf(Stored(t, sid, text, now).messages, sid) ==
            MessagesOf(t.messages, sid) + [MessageRow(t.lastId + 1, sid, User, text, 0, now)]
  {
    var t1 := t.(sessions := Upsert(t.sessions, sid, now));
    var row := MessageRow(t.lastId + 1, sid, User, text, 0, now);
    var t2 := Append(t1, sid, User, text, 0, now);
    assert Stored(t, sid, text, now) == t2;
    assert t2.messages == t.messages + [row] && t2.sessions == t1.sessions;
    UpsertKeepsWellFormed(t, sid, now);
    UpsertHasId(t.sessions, sid, now);
    AppendKeepsWellFormed(t1, sid, User, text, 0, now);
    WhereSnoc(t.messages, row, OfSession(sid));
  }

  /** The context is the last ten of the session's messages including the one just stored,
      so it always ends with the user's message and holds at most ten entries. */
  lemma ContextEndsWithMessage(t: Tables, sid: string, text: string, now: Time)
    requires WellFormed(t) && NotAfter(t, now)
    ensures var user := MessageRow(t.lastId + 1, sid, User, text, 0, now);
            Context(t, sid, text, now) == RoleContent(Seqs.TakeLast(MessagesOf(t.messages, sid) + [user], Llm.HistoryLimit))
    ensures 1 <= |Context(t, sid, text, now)| <= Llm.HistoryLimit
    ensures Context(t, sid, text, now)[|Context(t, sid, text, now)| - 1] == Llm.WireMessage("user", text)
  {
    StoredSpec(t, sid, text, now);
    RecentRowsAreLatest(Stored(t, sid, text, now), sid);
  }

  /** When the reply function throws, the session and the user row stay stored with no
      reply after them; the status is 400 only for a bad-request error. */
  lemma FailureKeepsUserRow(t: Tables, sid: string, text: string, now: Time, later: Time, e: Llm.ApiError)
    ensures var (res, after) := AcceptedTurn(t, sid, text, now, later, Failure(e));
            && (res == Failed(400, "Bad request to LLM service.") <==>
                  e.code == Some("ERR_BAD_REQUEST") || e.status == Some(400))
            && (res == Failed(500, "Internal server error. Please try again.") <==>
                  !(e.code == Some("ERR_BAD_REQUEST") || e.status == Some(400)))
            && after.messages == t.messages + [MessageRow(t.lastId + 1, sid, User, text, 0, now)]
            && after.lastId == t.lastId + 1
            && after.sessions == Upsert(t.sessions, sid, now)
  {
  }

  /** When the reply function answers, the turn stores the user row at `now` and the reply
      row at `later`, with consecutive ids, touches the session at `later` and answers with
      the reply and its token count. */
  lemma SuccessAppendsReply(t: Tables, sid: string, text: string, now: Time, later: Time, r: Llm.Reply)
    ensures var (res, after) := AcceptedTurn(t, sid, text, now, later, Success(r));
            && res == ChatOk(r.reply, r.tokensUsed)
            && after.messages == t.messages + [MessageRow(t.lastId + 1, sid, User, text, 0, now),
                                               MessageRow(t.lastId + 2, sid, Assistant, r.reply, r.tokensUsed, later)]
            && after.lastId == t.lastId + 2
            && Lookup(after.sessions, sid).Some?
            && Lookup(after.sessions, sid).value.updatedAt == later
  {
    var t2 := Stored(t, sid, text, now);
    UpsertHasId(t.sessions, sid, now);
    ReplyRowStored(t2, sid, later, r);
    var user := MessageRow(t.lastId + 1, sid, User, text, 0, now);
    var bot := MessageRow(t.lastId + 2, sid, Assistant, r.reply, r.tokensUsed, later);
    assert t.messages + [user] + [bot] == t.messages + [user, bot];
  }

  /** The reply insert and the touch, on their own. */
  lemma ReplyRowStored(t2: Tables, sid: string, later: Time, r: Llm.Reply)
    requires sid in SessionIds(t2.sessions)
    ensures var t3 := Append(t2, sid, Assistant, r.reply, r.tokensUsed, later);
            && t3.messages == t2.messages + [MessageRow(t2.lastId + 1, sid, Assistant, r.reply, r.tokensUsed, later)]
            && t3.lastId == t2.lastId + 1
            && Lookup(Touch(t3.sessions, sid, later), sid).Some?
            && Lookup(Touch(t3.sessions, sid, later), sid).value.updatedAt == later
  {
    var t3 := Append(t2, sid, Assistant, r.reply, r.tokensUsed, later);
    LookupTouch(t3.sessions, sid, later, sid);
  }

  /** As written, with `getLLMReply` undefined, every accepted request answers 500 and
      leaves behind the upserted session and a user row that never gets a reply. */
  lemma AsWrittenEveryTurnFails(t: Tables, body: ChatBody, now: Time, later: Time)
    requires TruthyString(body.sessionId) && NonBlankString(body.message)
    ensures var sid, text := body.sessionId.s, Trim(body.message.s);
            var (res, after) := ChatTurn(t, body, now, later, MissingExport);
            && res == Failed(500, "Internal server error. Please try again.")
            && after.messages == t.messages + [MessageRow(t.lastId + 1, sid, User, text, 0, now)]
            && sid in SessionIds(after.sessions)
  {
    var sid, text := body.sessionId.s, Trim(body.message.s);
    var e := MissingExport(Context(t, sid, text, now)).error;
    ChatTurnAccepted(t, body, now, later, MissingExport);
    FailureKeepsUserRow(t, sid, text, now, later, e);
    AcceptedTurnStoresSession(t, sid, text, now, later, Failure(e));
  }

  /** Every accepted router turn keeps the schema's invariant. */
  lemma AcceptedTurnKeepsWellFormed(t: Tables, sid: string, text: string, now: Time, later: Time,
                                    outcome: Result<Llm.Reply, Llm.ApiError>)
    requires WellFormed(t) && NotAfter(t, now) && now <= later
    ensures WellFormed(AcceptedTurn(t, sid, text, now, later, outcome).1)
    ensures NotAfter(AcceptedTurn(t, sid, text, now, later, outcome).1, later)
  {
    var t2 := Stored(t, sid, text, now);
    StoredSpec(t, sid, text, now);
    if outcome.Success? {
      var r := outcome.value;
      var t3 := Append(t2, sid, Assistant, r.reply, r.tokensUsed, later);
      AppendKeepsWellFormed(t2, sid, Assistant, r.reply, r.tokensUsed, later);
      TouchKeepsWellFormed(t3, sid, later);
    }
  }

  /** Every router turn, accepted or not, keeps the schema's invariant. */
  lemma ChatKeepsWellFormed(t: Tables, body: ChatBody, now: Time, later: Time, getReply: ReplyFunction)
    requires WellFormed(t) && NotAfter(t, now) && now <= later
    ensures WellFormed(ChatTurn(t, body, now, later, getReply).1)
    ensures NotAfter(ChatTurn(t, body, now, later, getReply).1, later)
  {
    if TruthyString(body.sessionId) && NonBlankString(body.message) {
      var sid, text := body.sessionId.s, Trim(body.message.s);
      ChatTurnAccepted(t, body, now, later, getReply);
      AcceptedTurnKeepsWellFormed(t, sid, text, now, later, getReply(Context(t, sid, text, now)));
    }
  }
}
