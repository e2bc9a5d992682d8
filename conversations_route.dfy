/** backend/routes/conversations.js: the messages of one session, oldest first. */
module ConversationsRoute {
  import opened Db
  import Seqs
  import opened Http

  /** `GET /:sessionId`: `SELECT ... FROM messages WHERE session_id = ? ORDER BY id ASC`,
      with no check that the session exists. */
  function HandleConversation(t: Tables, sessionId: string): Response {
    if sessionId == [] then Failed(400, "sessionId is required.")
    else ConversationOk(sessionId, Seqs.SortBy(MessagesOf(t.messages, sessionId), MessageId))
  }

  /** A non-empty id always gets 200, echoing the id, with exactly the messages of that
      session, none missing and none from another session, in strictly ascending id order;
      an id no session has gets an empty list rather than 404. */
  lemma HandleConversationSpec(t: Tables, sessionId: string)
    requires WellFormed(t) && sessionId != []
    ensures HandleConversation(t, sessionId).ConversationOk?
    ensures HandleConversation(t, sessionId).sessionId == sessionId
    ensures forall m :: m in HandleConversation(t, sessionId).messages <==>
                        m in t.messages && m.sessionId == sessionId
    ensures IdsAscending(HandleConversation(t, sessionId).messages)
    ensures sessionId !in SessionIds(t.sessions) ==> HandleConversation(t, sessionId).messages == []
  {
    OrderByIdIsTableOrder(t, sessionId);
    OrderByCreatedIsIdOrder(t, sessionId);
  }
}
