/** backend/routes/sessions.js (and the identical query in backend/server.js): every session
    with its message count, newest `updated_at` first. */
module SessionsRoute {
  import opened Wrappers
  import opened Db
  import Seqs
  import opened Http

  /** The LEFT JOIN ... GROUP BY row of one session: `COUNT(m.id)` counts its messages. */
  function SummaryOf(t: Tables, row: SessionRow): SessionSummary {
    SessionSummary(row.id, row.createdAt, row.updatedAt, |MessagesOf(t.messages, row.id)|)
  }

  function Summaries(t: Tables): seq<SessionSummary> {
    seq(|t.sessions|, k requires 0 <= k < |t.sessions| => SummaryOf(t, t.sessions[k]))
  }

  function NewestFirst(s: SessionSummary): int {
    -(s.updatedAt as int)
  }

  /** `... GROUP BY s.id ORDER BY s.updated_at DESC`; rows with equal `updated_at` stay in
      table order. */
  function ListSessions(t: Tables): seq<SessionSummary> {
    Seqs.SortBy(Summaries(t), NewestFirst)
  }

  /** `GET /api/sessions`. Reading the tables changes nothing: the handler is a function
      of them. */
  function HandleList(t: Tables): Response {
    SessionsOk(ListSessions(t))
  }

  /** Every entry of the listing is a summary of some session row, and every session row
      is summarised in it. */
  lemma ListSessionsMembers(t: Tables)
    ensures |ListSessions(t)| == |t.sessions|
    ensures forall s :: s in ListSessions(t) <==> s in Summaries(t)
    ensures forall row | row in t.sessions :: SummaryOf(t, row) in ListSessions(t)
  {
    var sums := Summaries(t);
    var r := ListSessions(t);
    forall s ensures s in r <==> s in sums {
      assert s in r <==> s in multiset(r);
    }
    forall row | row in t.sessions ensures SummaryOf(t, row) in r {
      var k :| 0 <= k < |t.sessions| && t.sessions[k] == row;
      assert sums[k] == SummaryOf(t, row);
    }
  }

  /** No session id is listed twice. */
  lemma ListSessionsDistinct(t: Tables)
    requires WellFormed(t)
    ensures forall i, j | 0 <= i < j < |ListSessions(t)| :: ListSessions(t)[i].id != ListSessions(t)[j].id
  {
    var sums := Summaries(t);
    var r := ListSessions(t);
    ListSessionsMembers(t);
    assert Seqs.Distinct(sums) by {
      forall i, j | 0 <= i < j < |sums| ensures sums[i] != sums[j] {
        assert sums[i].id == t.sessions[i].id && sums[j].id == t.sessions[j].id;
      }
    }
    Seqs.SortByDistinct(sums, NewestFirst);
    forall i, j | 0 <= i < j < |r| ensures r[i].id != r[j].id {
      assert r[i] in sums && r[j] in sums && r[i] != r[j];
      var a :| 0 <= a < |sums| && sums[a] == r[i];
      var b :| 0 <= b < |sums| && sums[b] == r[j];
      assert sums[a].id == t.sessions[a].id && sums[b].id == t.sessions[b].id;
      if a < b {
        assert t.sessions[a].id != t.sessions[b].id;
      } else {
        assert t.sessions[b].id != t.sessions[a].id;
      }
    }
  }

  /** Each entry carries the stored row of its session and that session's message count. */
  lemma ListSessionsRows(t: Tables)
    requires WellFormed(t)
    ensures forall s | s in ListSessions(t) ::
              Lookup(t.sessions, s.id) == Some(SessionRow(s.id, s.createdAt, s.updatedAt))
              && s.messageCount == |MessagesOf(t.messages, s.id)|
  {
    var sums := Summaries(t);
    ListSessionsMembers(t);
    forall s | s in ListSessions(t)
      ensures Lookup(t.sessions, s.id) == Some(SessionRow(s.id, s.createdAt, s.updatedAt))
      ensures s.messageCount == |MessagesOf(t.messages, s.id)|
    {
      var k :| 0 <= k < |sums| && sums[k] == s;
      LookupUnique(t.sessions, k);
    }
  }

  /** The LEFT JOIN keeps a session that no message references, with count 0. */
  lemma ListSessionsKeepsEmpty(t: Tables, row: SessionRow)
    requires row in t.sessions
    requires forall m | m in t.messages :: m.sessionId != row.id
    ensures SessionSummary(row.id, row.createdAt, row.updatedAt, 0) in ListSessions(t)
  {
    ListSessionsMembers(t);
    NoMessagesOf(t.messages, row.id);
    assert SummaryOf(t, row) in ListSessions(t);
  }

  /** The listing has one entry per session row, no id twice, each entry being that
      session's row with the number of messages referencing it, in non-increasing
      `updated_at` order. */
  lemma ListSessionsSpec(t: Tables)
    requires WellFormed(t)
    ensures HandleList(t).SessionsOk?
    ensures |ListSessions(t)| == |t.sessions|
    ensures forall row | row in t.sessions :: SummaryOf(t, row) in ListSessions(t)
    ensures forall s | s in ListSessions(t) ::
              Lookup(t.sessions, s.id) == Some(SessionRow(s.id, s.createdAt, s.updatedAt))
              && s.messageCount == |MessagesOf(t.messages, s.id)|
    ensures forall i, j | 0 <= i < j < |ListSessions(t)| :: ListSessions(t)[i].id != ListSessions(t)[j].id
    ensures forall i, j | 0 <= i < j < |ListSessions(t)| ::
              ListSessions(t)[i].updatedAt >= ListSessions(t)[j].updatedAt
  {
    var r := ListSessions(t);
    ListSessionsMembers(t);
    ListSessionsDistinct(t);
    ListSessionsRows(t);
    forall i, j | 0 <= i < j < |r| ensures r[i].updatedAt >= r[j].updatedAt {
      assert NewestFirst(r[i]) <= NewestFirst(r[j]);
    }
  }
}
