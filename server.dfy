/** backend/server.js, the mounted application: the `POST /api/chat` turn and the two read
    routes. The chat turn is a method that updates the `Database` step by step; `ChatTurn`
    is the same turn as a function of the tables, and the lemmas below state what a turn
    does to them. */
module Server {
  import opened Wrappers
  import opened JsStrings
  import opened Db
  import Seqs
  import Llm
  import opened Http
  import SessionsRoute

  /** Whether `err.status` is truthy. */
  predicate Truthy(status: Option<int>) {
    status.Some? && status.value != 0
  }

  /** The catch block: an error whose message mentions `API`, or that carries a status,
      is an upstream failure (502); anything else is 500. */
  function ErrorResponse(e: Llm.ApiError): Response {
    if Includes(e.message, "API") || Truthy(e.status) then Failed(502, "LLM service error. Please try again.")
    else Failed(500, "Internal server error.")
  }

  /** The history query as written: `WHERE session_id = ? ORDER BY created_at ASC LIMIT 10`. */
  function EarliestRows(ms: seq<MessageRow>, sid: string): seq<MessageRow> {
    Seqs.Limit(Seqs.SortBy(MessagesOf(ms, sid), CreatedAt), Llm.HistoryLimit)
  }

  /** The whole chat turn on table values: validate both fields, then run the accepted
      turn on the trimmed values with what `chat` returns for them. */
  function ChatTurn(t: Tables, body: ChatBody, now: Time, later: Time, docs: seq<Llm.Doc>,
                    provider: Llm.ChatRequest -> Llm.Completion): (Response, Tables)
  {
    if !NonBlankString(body.sessionId) then (Failed(400, "sessionId is required."), t)
    else if !NonBlankString(body.message) then (Failed(400, "message is required."), t)
    else
      var sid, text := Trim(body.sessionId.s), Trim(body.message.s);
      AcceptedTurn(t, sid, text, now, later, Outcome(t, sid, text, docs, provider))
  }

  /** What `chat` returns for the history read right after the upsert (the upsert does not
      touch the message table, so that history is read from `t`); a reply is never empty. */
  function Outcome(t: Tables, sid: string, text: string, docs: seq<Llm.Doc>,
                   provider: Llm.ChatRequest -> Llm.Completion): (r: Result<Llm.Reply, Llm.ApiError>)
    ensures r.Success? ==> r.value.reply != []
  {
    Llm.Chat(docs, RoleContent(EarliestRows(t.messages, sid)), text, provider)
  }

  /** An accepted turn, given what the LLM call ended with: the session is upserted at
      `now` either way; on an error the catch block answers and nothing else is written; on
      a reply the user row and the assistant row are inserted and the session touched, all
      at `later`. */
  function AcceptedTurn(t: Tables, sid: string, text: string, now: Time, later: Time,
                        outcome: Result<Llm.Reply, Llm.ApiError>): (Response, Tables)
  {
    var t1 := t.(sessions := Upsert(t.sessions, sid, now));
    match outcome
    case Failure(e) => (ErrorResponse(e), t1)
    case Success(r) =>
      var t2 := Append(Append(t1, sid, User, text, 0, later), sid, Assistant, r.reply, r.tokensUsed, later);
      (ChatOk(r.reply, r.tokensUsed), t2.(sessions := Touch(t2.sessions, sid, later)))
  }

  /** `POST /api/chat`. `now` is the time of the upsert and `later` the time after the LLM
      call returns; the clock never goes back. */
  method HandleChat(db: Database, body: ChatBody, now: Time, later: Time, docs: seq<Llm.Doc>,
                    provider: Llm.ChatRequest -> Llm.Completion) returns (res: Response)
    requires db.Valid() && db.clock <= now <= later
    modifies db
    ensures db.Valid()
    ensures (res, db.State()) == ChatTurn(old(db.State()), body, now, later, docs, provider)
  {
    if !NonBlankString(body.sessionId) {
      return Failed(400, "sessionId is required.");
    }
    if !NonBlankString(body.message) {
      return Failed(400, "message is required.");
    }
    var sid := Trim(body.sessionId.s);
    var text := Trim(body.message.s);
    ghost var t0 := db.State();
    ChatTurnAccepted(t0, body, now, later, docs, provider);
    UpsertSpec(db.sessions, sid, now);
    db.UpsertSession(sid, now);
    var rows := db.SelectBySession(sid);
    var history := RoleContent(Seqs.Limit(Seqs.SortBy(rows, CreatedAt), Llm.HistoryLimit));
    var outcome := Llm.Chat(docs, history, text, provider);
    assert outcome == Outcome(t0, sid, text, docs, provider);
    if outcome.Failure? {
      return ErrorResponse(outcome.error);
    }
    var reply := outcome.value;
    var userSaved, _ := db.InsertMessage(sid, User, text, None, later);
    var replySaved, _ := db.InsertMessage(sid, Assistant, reply.reply, Some(reply.tokensUsed), later);
    assert userSaved && replySaved;
    db.TouchSession(sid, later);
    res := ChatOk(reply.reply, reply.tokensUsed);
  }

  /** `GET /api/conversations/:sessionId`: 404 unless a session row has the id, otherwise
      its messages `ORDER BY created_at ASC`. */
  function HandleConversation(t: Tables, sessionId: string): Response {
    if Lookup(t.sessions, sessionId).None? then Failed(404, "Session not found.")
    else ConversationOk(sessionId, Seqs.SortBy(MessagesOf(t.messages, sessionId), CreatedAt))
  }

  /** `GET /api/sessions`: the same query as routes/sessions.js. */
  function HandleSessions(t: Tables): Response {
    SessionsRoute.HandleList(t)
  }

  // ---------------------------------------------------------------------------------------
  // What a chat turn does to the tables
  // ---------------------------------------------------------------------------------------

  /** An accepted request runs the accepted turn on the trimmed id and message. */
  lemma ChatTurnAccepted(t: Tables, body: ChatBody, now: Time, later: Time,
                         docs: seq<Llm.Doc>, provider: Llm.ChatRequest -> Llm.Completion)
    requires NonBlankString(body.sessionId) && NonBlankString(body.message)
    ensures var sid, text := Trim(body.sessionId.s), Trim(body.message.s);
            ChatTurn(t, body, now, later, docs, provider) ==
            AcceptedTurn(t, sid, text, now, later, Outcome(t, sid, text, docs, provider))
  {
  }

  /** A turn answers 400 exactly when a field is missing, not a string, or blank, with the
      message of the first failed check, and then neither table changes; no later step of
      the turn answers 400. */
  lemma ChatRejectsExactlyInvalidInput(t: Tables, body: ChatBody, now: Time, later: Time,
                                       docs: seq<Llm.Doc>, provider: Llm.ChatRequest -> Llm.Completion)
    ensures (ChatTurn(t, body, now, later, docs, provider).0.Failed? &&
             ChatTurn(t, body, now, later, docs, provider).0.status == 400)
            <==> !(NonBlankString(body.sessionId) && NonBlankString(body.message))
    ensures !NonBlankString(body.sessionId) ==>
              ChatTurn(t, body, now, later, docs, provider) == (Failed(400, "sessionId is required."), t)
    ensures NonBlankString(body.sessionId) && !NonBlankString(body.message) ==>
              ChatTurn(t, body, now, later, docs, provider) == (Failed(400, "message is required."), t)
  {
    if NonBlankString(body.sessionId) && NonBlankString(body.message) {
      var sid, text := Trim(body.sessionId.s), Trim(body.message.s);
      var outcome := Outcome(t, sid, text, docs, provider);
      ChatTurnAccepted(t, body, now, later, docs, provider);
      AcceptedTurnAnswers(t, sid, text, now, later, outcome);
    }
  }

  /** The id a turn stores is the trimmed one; sent again, it passes the check and trims to
      itself, so it names the same session row rather than a new one. */
  lemma StoredIdResends(s: string)
    requires NonBlankString(Str(s))
    ensures NonBlankString(Str(Trim(s)))
    ensures Trim(Trim(s)) == Trim(s)
  {
    TrimIdempotent(s);
    assert !IsSpace(Trim(s)[0]);
  }

  /** An accepted turn answers with the reply, or with 502 or 500 as the catch block
      decides; never with 400. */
  lemma AcceptedTurnAnswers(t: Tables, sid: string, text: string, now: Time, later: Time,
                            outcome: Result<Llm.Reply, Llm.ApiError>)
    ensures var res := AcceptedTurn(t, sid, text, now, later, outcome).0;
            && (outcome.Success? ==> res == ChatOk(outcome.value.reply, outcome.value.tokensUsed))
            && (outcome.Failure? ==> res == ErrorResponse(outcome.error))
            && (res.Failed? ==> res.status == 502 || res.status == 500)
  {
  }

  /** Whatever the LLM does, an accepted turn leaves exactly one session row with the id:
      an existing row keeps its `created_at` and the row count, a new id adds exactly one
      row created at `now`; no other session row changes. */
  lemma ChatUpsertsSession(t: Tables, sid: string, text: string, now: Time, later: Time,
                           outcome: Result<Llm.Reply, Llm.ApiError>)
    requires UniqueIds(t.sessions)
    ensures var after := AcceptedTurn(t, sid, text, now, later, outcome).1.sessions;
            && UniqueIds(after)
            && |after| == (if sid in SessionIds(t.sessions) then |t.sessions| else |t.sessions| + 1)
            && SessionIds(after) == SessionIds(t.sessions) + {sid}
            && Lookup(after, sid).Some?
            && Lookup(after, sid).value.createdAt ==
                 (if sid in SessionIds(t.sessions) then Lookup(t.sessions, sid).value.createdAt else now)
            && forall x :: x != sid ==> Lookup(after, x) == Lookup(t.sessions, x)
  {
    var ss := Upsert(t.sessions, sid, now);
    UpsertSpec(t.sessions, sid, now);
    TouchKeepsKeys(ss, sid, later);
    forall x { LookupTouch(ss, sid, later, x); }
  }

  /** The history sent to the LLM is the session's earliest (at most 10) messages, oldest
      first, all of them stored before the turn began: the current message is never in it,
      and `chat` forwards all of it. */
  lemma ChatHistoryIsEarliestWindow(t: Tables, sid: string)
    requires WellFormed(t)
    ensures EarliestRows(t.messages, sid) == Seqs.Limit(MessagesOf(t.messages, sid), Llm.HistoryLimit)
    ensures |EarliestRows(t.messages, sid)| <= Llm.HistoryLimit
    ensures forall m | m in EarliestRows(t.messages, sid) ::
              m in t.messages && m.sessionId == sid && m.id <= t.lastId
    ensures Llm.Window(RoleContent(EarliestRows(t.messages, sid))) == RoleContent(EarliestRows(t.messages, sid))
  {
    OrderByCreatedIsIdOrder(t, sid);
    var rows := EarliestRows(t.messages, sid);
    forall m | m in rows ensures m in MessagesOf(t.messages, sid) {
      var k :| 0 <= k < |rows| && rows[k] == m;
    }
  }

  /** Once a session holds more than 10 messages, its newest message is not in the history
      the server sends: the window stays on the first 10. */
  lemma EarliestHistoryOmitsNewest(t: Tables, sid: string)
    requires WellFormed(t) && |MessagesOf(t.messages, sid)| > Llm.HistoryLimit
    ensures MessagesOf(t.messages, sid)[|MessagesOf(t.messages, sid)| - 1] !in EarliestRows(t.messages, sid)
  {
    ChatHistoryIsEarliestWindow(t, sid);
    OrderByCreatedIsIdOrder(t, sid);
    var all := MessagesOf(t.messages, sid);
    var newest := all[|all| - 1];
    var rows := EarliestRows(t.messages, sid);
    forall k | 0 <= k < |rows| ensures rows[k] != newest {
      assert rows[k] == all[k] && all[k].id < newest.id;
    }
  }

  /** If the LLM call throws, no message row is written and the id counter does not move,
      but the session row upserted before the call stays; the answer is 502 when the error
      mentions `API` or carries a status, 500 otherwise. */
  lemma ChatFailureWritesNoMessage(t: Tables, sid: string, text: string, now: Time, later: Time, e: Llm.ApiError)
    ensures var (res, after) := AcceptedTurn(t, sid, text, now, later, Failure(e));
            && (res == Failed(502, "LLM service error. Please try again.") <==> Includes(e.message, "API") || Truthy(e.status))
            && (res == Failed(500, "Internal server error.") <==> !(Includes(e.message, "API") || Truthy(e.status)))
            && after.messages == t.messages && after.lastId == t.lastId
            && after.sessions == Upsert(t.sessions, sid, now)
            && sid in SessionIds(after.sessions)
  {
    UpsertHasId(t.sessions, sid, now);
  }

  /** If the LLM answers, the turn stores exactly two rows for the session, the user's
      message and then the reply, with the next two ids and the time the call returned; no
      other session's messages change, the session's `updated_at` becomes that time, and
      the answer carries the reply and its token count. */
  lemma ChatSuccessStoresBothRows(t: Tables, sid: string, text: string, now: Time, later: Time, r: Llm.Reply)
    ensures var user := MessageRow(t.lastId + 1, sid, User, text, 0, later);
            var bot := MessageRow(t.lastId + 2, sid, Assistant, r.reply, r.tokensUsed, later);
            var (res, after) := AcceptedTurn(t, sid, text, now, later, Success(r));
            && res == ChatOk(r.reply, r.tokensUsed)
            && after.messages == t.messages + [user, bot]
            && after.lastId == t.lastId + 2
            && MessagesOf(after.messages, sid) == MessagesOf(t.messages, sid) + [user, bot]
            && (forall x :: x != sid ==> MessagesOf(after.messages, x) == MessagesOf(t.messages, x))
            && Lookup(after.sessions, sid).Some?
            && Lookup(after.sessions, sid).value.updatedAt == later
  {
    var t1 := t.(sessions := Upsert(t.sessions, sid, now));
    UpsertHasId(t.sessions, sid, now);
    SettleAppendsRows(t1, sid, text, later, r);
    SettleTouchesSession(t1, sid, text, later, r);
  }

  /** The two inserts of the success branch, seen on the whole message table. */
  lemma SettleAppendsRows(t1: Tables, sid: string, text: string, later: Time, r: Llm.Reply)
    ensures var t2 := Append(Append(t1, sid, User, text, 0, later), sid, Assistant, r.reply, r.tokensUsed, later);
            && t2.messages == t1.messages + [MessageRow(t1.lastId + 1, sid, User, text, 0, later),
                                             MessageRow(t1.lastId + 2, sid, Assistant, r.reply, r.tokensUsed, later)]
            && t2.lastId == t1.lastId + 2
  {
  }

  /** The success branch seen per session: both rows go to `sid` only, and `sid` is
      touched. */
  lemma SettleTouchesSession(t1: Tables, sid: string, text: string, later: Time, r: Llm.Reply)
    requires sid in SessionIds(t1.sessions)
    ensures var user := MessageRow(t1.lastId + 1, sid, User, text, 0, later);
            var bot := MessageRow(t1.lastId + 2, sid, Assistant, r.reply, r.tokensUsed, later);
            var t2 := Append(Append(t1, sid, User, text, 0, later), sid, Assistant, r.reply, r.tokensUsed, later);
            var touched := Touch(t2.sessions, sid, later);
            && MessagesOf(t2.messages, sid) == MessagesOf(t1.messages, sid) + [user, bot]
            && (forall x :: x != sid ==> MessagesOf(t2.messages, x) == MessagesOf(t1.messages, x))
            && Lookup(touched, sid).Some?
            && Lookup(touched, sid).value.updatedAt == later
  {
    var ta := Append(t1, sid, User, text, 0, later);
    var tb := Append(ta, sid, Assistant, r.reply, r.tokensUsed, later);
    var user := MessageRow(t1.lastId + 1, sid, User, text, 0, later);
    var bot := MessageRow(t1.lastId + 2, sid, Assistant, r.reply, r.tokensUsed, later);
    assert tb.messages == t1.messages + [user] + [bot];
    assert t1.messages + [user, bot] == t1.messages + [user] + [bot];
    forall x ensures MessagesOf(tb.messages, x) ==
                     MessagesOf(t1.messages, x) + (if x == sid then [user, bot] else []) {
      WhereSnoc(t1.messages, user, OfSession(x));
      WhereSnoc(t1.messages + [user], bot, OfSession(x));
    }
    LookupTouch(tb.sessions, sid, later, sid);
  }

  /** Every accepted turn, whatever the LLM did, keeps the schema's invariant and stamps
      nothing later than the time the call returned. */
  lemma AcceptedTurnKeepsWellFormed(t: Tables, sid: string, text: string, now: Time, later: Time,
                                    outcome: Result<Llm.Reply, Llm.ApiError>)
    requires WellFormed(t) && NotAfter(t, now) && now <= later
    ensures WellFormed(AcceptedTurn(t, sid, text, now, later, outcome).1)
    ensures NotAfter(AcceptedTurn(t, sid, text, now, later, outcome).1, later)
  {
    var t1 := t.(sessions := Upsert(t.sessions, sid, now));
    UpsertHasId(t.sessions, sid, now);
    UpsertKeepsWellFormed(t, sid, now);
    if outcome.Success? {
      var r := outcome.value;
      var ta := Append(t1, sid, User, text, 0, later);
      var tb := Append(ta, sid, Assistant, r.reply, r.tokensUsed, later);
      AppendKeepsWellFormed(t1, sid, User, text, 0, later);
      AppendKeepsWellFormed(ta, sid, Assistant, r.reply, r.tokensUsed, later);
      TouchKeepsWellFormed(tb, sid, later);
    }
  }

  /** Every turn, accepted or not, keeps the schema's invariant. */
  lemma ChatKeepsWellFormed(t: Tables, body: ChatBody, now: Time, later: Time,
                            docs: seq<Llm.Doc>, provider: Llm.ChatRequest -> Llm.Completion)
    requires WellFormed(t) && NotAfter(t, now) && now <= later
    ensures WellFormed(ChatTurn(t, body, now, later, docs, provider).1)
    ensures NotAfter(ChatTurn(t, body, now, later, docs, provider).1, later)
  {
    if NonBlankString(body.sessionId) && NonBlankString(body.message) {
      var sid, text := Trim(body.sessionId.s), Trim(body.message.s);
      ChatTurnAccepted(t, body, now, later, docs, provider);
      AcceptedTurnKeepsWellFormed(t, sid, text, now, later, Outcome(t, sid, text, docs, provider));
    }
  }

  /** `GET /api/conversations/:sessionId` answers 404 exactly when no session row has the
      id; otherwise it returns all of that session's messages, in id order. */
  lemma HandleConversationSpec(t: Tables, sessionId: string)
    requires WellFormed(t)
    ensures HandleConversation(t, sessionId).Failed? <==> sessionId !in SessionIds(t.sessions)
    ensures sessionId !in SessionIds(t.sessions) ==>
              HandleConversation(t, sessionId) == Failed(404, "Session not found.")
    ensures sessionId in SessionIds(t.sessions) ==>
              && HandleConversation(t, sessionId) == ConversationOk(sessionId, MessagesOf(t.messages, sessionId))
              && IdsAscending(HandleConversation(t, sessionId).messages)
              && (forall m :: m in HandleConversation(t, sessionId).messages <==>
                               m in t.messages && m.sessionId == sessionId)
  {
    OrderByCreatedIsIdOrder(t, sessionId);
  }
}
