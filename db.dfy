/** The SQLite store of backend/db.js: the `sessions` and `messages` tables, the
    constraints `initSchema` declares (kept as the table invariant `WellFormed`), each SQL write
    the handlers issue as a transition on table values, and the `Database` object that the
    handlers update in place. */
module Db {
  import opened Wrappers
  import Seqs

  /** `role TEXT NOT NULL CHECK(role IN ('user', 'assistant'))`: no other role can be stored. */
  datatype Role = User | Assistant {
    function Name(): string {
      match this
      case User => "user"
      case Assistant => "assistant"
    }
  }

  /** A reading of the abstract clock that stands for `datetime('now')` and `new Date()`. */
  type Time = nat

  datatype SessionRow = SessionRow(id: string, createdAt: Time, updatedAt: Time)

  datatype MessageRow = MessageRow(id: nat, sessionId: string, role: Role, content: string,
                                   tokensUsed: int, createdAt: Time)

  /** One row of the session listing: a session with the number of its messages. */
  datatype SessionSummary = SessionSummary(id: string, createdAt: Time, updatedAt: Time,
                                           messageCount: nat)

  /** Both tables, plus the AUTOINCREMENT counter: the largest message id ever issued. */
  datatype Tables = Tables(sessions: seq<SessionRow>, messages: seq<MessageRow>, lastId: nat)

  function SessionIds(ss: seq<SessionRow>): set<string> {
    set r | r in ss :: r.id
  }

  /** `id TEXT PRIMARY KEY`. */
  ghost predicate UniqueIds(ss: seq<SessionRow>) {
    forall i, j :: 0 <= i < j < |ss| ==> ss[i].id != ss[j].id
  }

  ghost predicate IdsAscending(ms: seq<MessageRow>) {
    forall i, j :: 0 <= i < j < |ms| ==> ms[i].id < ms[j].id
  }

  function CreatedAt(m: MessageRow): int {
    m.createdAt
  }

  function MessageId(m: MessageRow): int {
    m.id
  }

  /** The table invariant. Session ids are unique (primary key); every message names an
      existing session (`REFERENCES sessions(id)` with `foreign_keys = ON`); messages are
      stored in ascending id order and no id exceeds the AUTOINCREMENT counter; and since
      the clock never goes back, `created_at` does not decrease along the table. */
  ghost predicate WellFormed(t: Tables) {
    && UniqueIds(t.sessions)
    && (forall m | m in t.messages :: m.sessionId in SessionIds(t.sessions))
    && IdsAscending(t.messages)
    && (forall m | m in t.messages :: 1 <= m.id <= t.lastId)
    && Seqs.SortedBy(t.messages, CreatedAt)
  }

  /** No timestamp in the tables is later than `now`. */
  ghost predicate NotAfter(t: Tables, now: Time) {
    && (forall r | r in t.sessions :: r.createdAt <= now && r.updatedAt <= now)
    && (forall m | m in t.messages :: m.createdAt <= now)
  }

  /** `SELECT * FROM sessions WHERE id = ?` read with `.get()`: the first matching row. */
  function Lookup(ss: seq<SessionRow>, id: string): (r: Option<SessionRow>)
    ensures r.None? <==> id !in SessionIds(ss)
    ensures r.Some? ==> r.value in ss && r.value.id == id
  {
    if ss == [] then None
    else
      assert SessionIds(ss) == {ss[0].id} + SessionIds(ss[1..]) by {
        assert ss == [ss[0]] + ss[1..];
      }
      if ss[0].id == id then Some(ss[0]) else Lookup(ss[1..], id)
  }

  /** A session row as `updated_at = now` leaves it. */
  function Refreshed(row: Option<SessionRow>, now: Time): Option<SessionRow> {
    match row
    case Some(r) => Some(r.(updatedAt := now))
    case None => None
  }

  /** `UPDATE sessions SET updated_at = now WHERE id = ?`. */
  function Touch(ss: seq<SessionRow>, id: string, now: Time): seq<SessionRow> {
    seq(|ss|, k requires 0 <= k < |ss| => if ss[k].id == id then ss[k].(updatedAt := now) else ss[k])
  }

  /** `INSERT INTO sessions (id) VALUES (?) ON CONFLICT(id) DO UPDATE SET updated_at = now`:
      a new row stamped `now` twice, or the existing row touched. */
  function Upsert(ss: seq<SessionRow>, id: string, now: Time): seq<SessionRow> {
    if id in SessionIds(ss) then Touch(ss, id, now) else ss + [SessionRow(id, now, now)]
  }

  /** `INSERT INTO messages (session_id, role, content[, tokens_used]) VALUES (...)`: the row
      gets the next AUTOINCREMENT id and `created_at = now`. */
  function Append(t: Tables, sid: string, role: Role, content: string, tokens: int, now: Time): Tables {
    var id := t.lastId + 1;
    t.(messages := t.messages + [MessageRow(id, sid, role, content, tokens, now)], lastId := id)
  }

  /** The rows of `ms` that satisfy `keep`, in table order (a `WHERE` clause). */
  function Where(ms: seq<MessageRow>, keep: MessageRow -> bool): (r: seq<MessageRow>)
    ensures forall m :: m in r <==> m in ms && keep(m)
    ensures |r| <= |ms|
  {
    if ms == [] then []
    else
      var init := ms[..|ms| - 1];
      assert ms == init + [ms[|ms| - 1]];
      Where(init, keep) + (if keep(ms[|ms| - 1]) then [ms[|ms| - 1]] else [])
  }

  function OfSession(sid: string): MessageRow -> bool {
    (m: MessageRow) => m.sessionId == sid
  }

  function NotOfSession(sid: string): MessageRow -> bool {
    (m: MessageRow) => m.sessionId != sid
  }

  /** `SELECT ... FROM messages WHERE session_id = ?`, in table (that is, id) order. */
  function MessagesOf(ms: seq<MessageRow>, sid: string): seq<MessageRow> {
    Where(ms, OfSession(sid))
  }

  /** `DELETE FROM sessions WHERE id = ?`. */
  function RemoveSession(ss: seq<SessionRow>, id: string): (r: seq<SessionRow>)
    ensures forall row :: row in r <==> row in ss && row.id != id
  {
    if ss == [] then []
    else
      var init := ss[..|ss| - 1];
      assert ss == init + [ss[|ss| - 1]];
      RemoveSession(init, id) + (if ss[|ss| - 1].id != id then [ss[|ss| - 1]] else [])
  }

  /** Deleting a session; `ON DELETE CASCADE` removes its messages with it. */
  function Delete(t: Tables, id: string): Tables {
    t.(sessions := RemoveSession(t.sessions, id), messages := Where(t.messages, NotOfSession(id)))
  }

  // ---------------------------------------------------------------------------------------
  // Properties of the transitions
  // ---------------------------------------------------------------------------------------

  lemma {:induction false} LookupSnoc(ss: seq<SessionRow>, row: SessionRow, x: string)
    ensures Lookup(ss + [row], x) ==
      if x in SessionIds(ss) then Lookup(ss, x) else if row.id == x then Some(row) else None
  {
    if ss != [] {
      assert (ss + [row])[1..] == ss[1..] + [row];
      LookupSnoc(ss[1..], row, x);
    }
  }

  lemma {:induction false} LookupTouch(ss: seq<SessionRow>, id: string, now: Time, x: string)
    ensures Lookup(Touch(ss, id, now), x) == if x == id then Refreshed(Lookup(ss, x), now) else Lookup(ss, x)
  {
    if ss != [] {
      assert Touch(ss, id, now)[1..] == Touch(ss[1..], id, now);
      LookupTouch(ss[1..], id, now, x);
    }
  }

  /** Touching leaves the set of ids, every `created_at` and the primary key alone. */
  lemma TouchKeepsKeys(ss: seq<SessionRow>, id: string, now: Time)
    ensures |Touch(ss, id, now)| == |ss|
    ensures SessionIds(Touch(ss, id, now)) == SessionIds(ss)
    ensures UniqueIds(ss) ==> UniqueIds(Touch(ss, id, now))
  {
    var r := Touch(ss, id, now);
    forall x | x in SessionIds(ss) ensures x in SessionIds(r) {
      var k :| 0 <= k < |ss| && ss[k].id == x;
      assert r[k] in r;
    }
    forall x | x in SessionIds(r) ensures x in SessionIds(ss) {
      var k :| 0 <= k < |r| && r[k].id == x;
      assert ss[k] in ss;
    }
  }

  /** With a unique primary key the UPDATE changes exactly the one row that has the id. */
  lemma TouchAt(ss: seq<SessionRow>, id: string, now: Time, k: nat)
    requires UniqueIds(ss) && k < |ss| && ss[k].id == id
    ensures Touch(ss, id, now) == ss[k := ss[k].(updatedAt := now)]
  {
  }

  /** With a unique primary key, the lookup of a row's id finds that row. */
  lemma LookupUnique(ss: seq<SessionRow>, k: nat)
    requires UniqueIds(ss) && k < |ss|
    ensures Lookup(ss, ss[k].id) == Some(ss[k])
    decreases k
  {
    if k > 0 {
      assert ss[0].id != ss[k].id;
      LookupUnique(ss[1..], k - 1);
    }
  }

  /** Upsert: the row count grows by one exactly when the id is new; afterwards the id has
      exactly one row, whose `updated_at` is `now` and whose `created_at` is the old one
      (or `now` for a new row); every other session row is as it was. */
  lemma UpsertSpec(ss: seq<SessionRow>, id: string, now: Time)
    requires UniqueIds(ss)
    ensures UniqueIds(Upsert(ss, id, now))
    ensures |Upsert(ss, id, now)| == if id in SessionIds(ss) then |ss| else |ss| + 1
    ensures SessionIds(Upsert(ss, id, now)) == SessionIds(ss) + {id}
    ensures Lookup(Upsert(ss, id, now), id) ==
      if id in SessionIds(ss) then Refreshed(Lookup(ss, id), now) else Some(SessionRow(id, now, now))
    ensures forall x :: x != id ==> Lookup(Upsert(ss, id, now), x) == Lookup(ss, x)
  {
    if id in SessionIds(ss) {
      TouchKeepsKeys(ss, id, now);
      forall x { LookupTouch(ss, id, now, x); }
    } else {
      var row := SessionRow(id, now, now);
      assert SessionIds(ss + [row]) == SessionIds(ss) + {id} by {
        forall x | x in SessionIds(ss + [row]) ensures x in SessionIds(ss) + {id} {
          var r :| r in ss + [row] && r.id == x;
        }
        forall x | x in SessionIds(ss) ensures x in SessionIds(ss + [row]) {
          var r :| r in ss && r.id == x;
          assert r in ss + [row];
        }
        assert row in ss + [row];
      }
      forall i | 0 <= i < |ss| ensures ss[i].id != id {
        assert ss[i] in ss;
      }
      forall x { LookupSnoc(ss, row, x); }
    }
  }

  /** A bound on the timestamps holds for any later time too. */
  lemma NotAfterLater(t: Tables, a: Time, b: Time)
    requires NotAfter(t, a) && a <= b
    ensures NotAfter(t, b)
  {
  }

  /** After an upsert the id has a session row. */
  lemma UpsertHasId(ss: seq<SessionRow>, id: string, now: Time)
    ensures id in SessionIds(Upsert(ss, id, now))
  {
    TouchKeepsKeys(ss, id, now);
  }

  /** The session upsert keeps the invariant and stamps nothing later than `now`. */
  lemma UpsertKeepsWellFormed(t: Tables, id: string, now: Time)
    requires WellFormed(t) && NotAfter(t, now)
    ensures WellFormed(t.(sessions := Upsert(t.sessions, id, now)))
    ensures NotAfter(t.(sessions := Upsert(t.sessions, id, now)), now)
  {
    UpsertSpec(t.sessions, id, now);
    var ss := Upsert(t.sessions, id, now);
    forall r | r in ss ensures r.createdAt <= now && r.updatedAt <= now {
      var k :| 0 <= k < |ss| && ss[k] == r;
      if id !in SessionIds(t.sessions) && k == |t.sessions| {
      } else {
        assert t.sessions[k] in t.sessions;
      }
    }
  }

  /** Touching a session keeps the invariant and stamps nothing later than `now`. */
  lemma TouchKeepsWellFormed(t: Tables, id: string, now: Time)
    requires WellFormed(t) && NotAfter(t, now)
    ensures WellFormed(t.(sessions := Touch(t.sessions, id, now)))
    ensures NotAfter(t.(sessions := Touch(t.sessions, id, now)), now)
  {
    TouchKeepsKeys(t.sessions, id, now);
    var ss := Touch(t.sessions, id, now);
    forall r | r in ss ensures r.createdAt <= now && r.updatedAt <= now {
      var k :| 0 <= k < |ss| && ss[k] == r;
      assert t.sessions[k] in t.sessions;
    }
  }

  /** A filter keeps ascending ids ascending. */
  lemma {:induction false} WhereKeepsIdOrder(ms: seq<MessageRow>, keep: MessageRow -> bool)
    requires IdsAscending(ms)
    ensures IdsAscending(Where(ms, keep))
  {
    if ms != [] {
      var init := ms[..|ms| - 1];
      var last := ms[|ms| - 1];
      assert IdsAscending(init);
      WhereKeepsIdOrder(init, keep);
      var prev := Where(init, keep);
      forall m | m in prev ensures m.id < last.id {
        var i :| 0 <= i < |init| && init[i] == m;
      }
      var r := Where(ms, keep);
      forall i, j | 0 <= i < j < |r| ensures r[i].id < r[j].id {
        if j == |prev| { assert r[i] in prev; }
      }
    }
  }

  /** A filter keeps rows sorted by `created_at` sorted. */
  lemma {:induction false} WhereKeepsCreatedOrder(ms: seq<MessageRow>, keep: MessageRow -> bool)
    requires Seqs.SortedBy(ms, CreatedAt)
    ensures Seqs.SortedBy(Where(ms, keep), CreatedAt)
  {
    if ms != [] {
      var init := ms[..|ms| - 1];
      var last := ms[|ms| - 1];
      assert Seqs.SortedBy(init, CreatedAt);
      WhereKeepsCreatedOrder(init, keep);
      var prev := Where(init, keep);
      forall m | m in prev ensures m.createdAt <= last.createdAt {
        var i :| 0 <= i < |init| && init[i] == m;
      }
      var r := Where(ms, keep);
      forall i, j | 0 <= i < j < |r| ensures r[i].createdAt <= r[j].createdAt {
        if j == |prev| { assert r[i] in prev; }
      }
    }
  }

  /** A session that no message references has no messages. */
  lemma {:induction false} NoMessagesOf(ms: seq<MessageRow>, sid: string)
    requires forall m | m in ms :: m.sessionId != sid
    ensures MessagesOf(ms, sid) == []
  {
    if ms != [] {
      var init := ms[..|ms| - 1];
      assert forall m | m in init :: m in ms;
      NoMessagesOf(init, sid);
    }
  }

  /** Filtering a table with one more row filters the old rows and then that row. */
  lemma WhereSnoc(ms: seq<MessageRow>, m: MessageRow, keep: MessageRow -> bool)
    ensures Where(ms + [m], keep) == Where(ms, keep) + if keep(m) then [m] else []
  {
    assert (ms + [m])[..|ms + [m]| - 1] == ms;
  }

  /** Inserting a message under an existing session keeps the invariant, and the new row's
      id is larger than every id in the table (AUTOINCREMENT never reuses an id). */
  lemma AppendKeepsWellFormed(t: Tables, sid: string, role: Role, content: string, tokens: int, now: Time)
    requires WellFormed(t) && NotAfter(t, now) && sid in SessionIds(t.sessions)
    ensures WellFormed(Append(t, sid, role, content, tokens, now))
    ensures NotAfter(Append(t, sid, role, content, tokens, now), now)
    ensures forall m | m in t.messages :: m.id < Append(t, sid, role, content, tokens, now).lastId
  {
    var t' := Append(t, sid, role, content, tokens, now);
    var ms := t'.messages;
    assert forall i | 0 <= i < |t.messages| :: t.messages[i] in t.messages;
    assert forall i, j | 0 <= i < j < |ms| :: ms[i].id < ms[j].id by {
      forall i, j | 0 <= i < j < |ms| ensures ms[i].id < ms[j].id {
        if j == |t.messages| { assert ms[i] in t.messages; }
      }
    }
  }

  /** Deleting a session keeps the invariant and removes every message of that session,
      leaving the messages of the other sessions in their order. */
  lemma DeleteKeepsWellFormed(t: Tables, id: string, now: Time)
    requires WellFormed(t)
    ensures WellFormed(Delete(t, id))
    ensures NotAfter(t, now) ==> NotAfter(Delete(t, id), now)
    ensures forall m | m in Delete(t, id).messages :: m in t.messages
    ensures forall m | m in Delete(t, id).messages :: m.sessionId != id
    ensures forall m | m in t.messages && m.sessionId != id :: m in Delete(t, id).messages
    ensures id !in SessionIds(Delete(t, id).sessions)
  {
    var d := Delete(t, id);
    WhereKeepsIdOrder(t.messages, NotOfSession(id));
    WhereKeepsCreatedOrder(t.messages, NotOfSession(id));
    forall m | m in d.messages ensures m.sessionId in SessionIds(d.sessions) {
      var r :| r in t.sessions && r.id == m.sessionId;
      assert r in d.sessions;
    }
    forall i, j | 0 <= i < j < |d.sessions| ensures d.sessions[i].id != d.sessions[j].id {
      assert d.sessions[i] in t.sessions && d.sessions[j] in t.sessions;
      RemoveSessionDistinct(t.sessions, id);
    }
  }

  lemma {:induction false} RemoveSessionDistinct(ss: seq<SessionRow>, id: string)
    requires UniqueIds(ss)
    ensures UniqueIds(RemoveSession(ss, id))
  {
    if ss != [] {
      var init := ss[..|ss| - 1];
      RemoveSessionDistinct(init, id);
      forall r | r in RemoveSession(init, id) ensures r.id != ss[|ss| - 1].id {
        var i :| 0 <= i < |init| && init[i] == r;
      }
    }
  }

  /** Reading a session's messages `ORDER BY created_at` gives them in id order: the clock
      never goes back, and rows with the same `created_at` keep their id order. */
  lemma OrderByCreatedIsIdOrder(t: Tables, sid: string)
    requires WellFormed(t)
    ensures Seqs.SortBy(MessagesOf(t.messages, sid), CreatedAt) == MessagesOf(t.messages, sid)
    ensures IdsAscending(MessagesOf(t.messages, sid))
  {
    WhereKeepsIdOrder(t.messages, OfSession(sid));
    WhereKeepsCreatedOrder(t.messages, OfSession(sid));
    Seqs.SortBySortedFixpoint(MessagesOf(t.messages, sid), CreatedAt);
  }

  /** The scan behind `DELETE FROM sessions WHERE id = ?`: the rows that stay. */
  method DeleteRows(ss: seq<SessionRow>, id: string) returns (kept: seq<SessionRow>)
    ensures kept == RemoveSession(ss, id)
  {
    kept := [];
    var i := 0;
    while i < |ss|
      invariant 0 <= i <= |ss|
      invariant kept == RemoveSession(ss[..i], id)
    {
      assert ss[..i + 1][..i] == ss[..i];
      if ss[i].id != id {
        kept := kept + [ss[i]];
      }
      i := i + 1;
    }
    assert ss[..i] == ss;
  }

  /** The scan behind `ON DELETE CASCADE`: the messages of the other sessions, in order. */
  method CascadeRows(ms: seq<MessageRow>, id: string) returns (kept: seq<MessageRow>)
    ensures kept == Where(ms, NotOfSession(id))
  {
    kept := [];
    var i := 0;
    while i < |ms|
      invariant 0 <= i <= |ms|
      invariant kept == Where(ms[..i], NotOfSession(id))
    {
      assert ms[..i + 1] == ms[..i] + [ms[i]];
      WhereSnoc(ms[..i], ms[i], NotOfSession(id));
      if ms[i].sessionId != id {
        kept := kept + [ms[i]];
      }
      i := i + 1;
    }
    assert ms[..i] == ms;
  }

  /** Reading a session's messages `ORDER BY id` gives them in table order. */
  lemma OrderByIdIsTableOrder(t: Tables, sid: string)
    requires WellFormed(t)
    ensures Seqs.SortBy(MessagesOf(t.messages, sid), MessageId) == MessagesOf(t.messages, sid)
  {
    WhereKeepsIdOrder(t.messages, OfSession(sid));
    WhereKeepsCreatedOrder(t.messages, OfSession(sid));
    Seqs.SortBySortedFixpoint(MessagesOf(t.messages, sid), MessageId);
  }

  /** What the open handle keeps true: well-formed tables, no timestamp later than `clock`,
      every stored message id among the `issued` ones and every issued id within the
      AUTOINCREMENT counter. */
  ghost predicate Invariant(t: Tables, clock: Time, issued: set<nat>) {
    && WellFormed(t)
    && NotAfter(t, clock)
    && (forall m | m in t.messages :: m.id in issued)
    && (forall id | id in issued :: 1 <= id <= t.lastId)
  }

  lemma UpsertKeepsInvariant(t: Tables, clock: Time, issued: set<nat>, id: string, now: Time)
    requires Invariant(t, clock, issued) && clock <= now
    ensures Invariant(t.(sessions := Upsert(t.sessions, id, now)), now, issued)
  {
    NotAfterLater(t, clock, now);
    UpsertKeepsWellFormed(t, id, now);
  }

  lemma TouchKeepsInvariant(t: Tables, clock: Time, issued: set<nat>, id: string, now: Time)
    requires Invariant(t, clock, issued) && clock <= now
    ensures Invariant(t.(sessions := Touch(t.sessions, id, now)), now, issued)
  {
    NotAfterLater(t, clock, now);
    TouchKeepsWellFormed(t, id, now);
  }

  /** The insert keeps the invariant once its id joins the issued ones, and that id was
      never issued before. */
  lemma AppendKeepsInvariant(t: Tables, clock: Time, issued: set<nat>, sid: string, role: Role,
                             content: string, tokens: int, now: Time)
    requires Invariant(t, clock, issued) && clock <= now && sid in SessionIds(t.sessions)
    ensures t.lastId + 1 !in issued
    ensures Invariant(Append(t, sid, role, content, tokens, now), now, issued + {t.lastId + 1})
  {
    NotAfterLater(t, clock, now);
    AppendKeepsWellFormed(t, sid, role, content, tokens, now);
  }

  lemma DeleteKeepsInvariant(t: Tables, clock: Time, issued: set<nat>, id: string)
    requires Invariant(t, clock, issued)
    ensures Invariant(Delete(t, id), clock, issued)
  {
    DeleteKeepsWellFormed(t, id, clock);
  }

  // ---------------------------------------------------------------------------------------
  // The database object
  // ---------------------------------------------------------------------------------------

  /** The open database handle: both tables and the AUTOINCREMENT counter, updated in place.
      `clock` is the latest time the store has seen and `issued` every message id handed out. */
  class Database {
    var sessions: seq<SessionRow>
    var messages: seq<MessageRow>
    var lastId: nat
    ghost var clock: Time
    ghost var issued: set<nat>

    function State(): Tables
      reads this
    {
      Tables(sessions, messages, lastId)
    }

    ghost predicate Valid()
      reads this
    {
      Invariant(State(), clock, issued)
    }

    /** A freshly created schema: both tables empty. */
    constructor ()
      ensures Valid()
      ensures State() == Tables([], [], 0) && clock == 0 && issued == {}
    {
      sessions, messages, lastId := [], [], 0;
      clock, issued := 0, {};
    }

    /** The position of the row with primary key `id`, or -1. */
    method FindSession(id: string) returns (k: int)
      ensures -1 <= k < |sessions|
      ensures k < 0 <==> id !in SessionIds(sessions)
      ensures 0 <= k ==> sessions[k].id == id && Lookup(sessions, id) == Some(sessions[k])
    {
      k := 0;
      while k < |sessions|
        invariant 0 <= k <= |sessions|
        invariant Lookup(sessions, id) == Lookup(sessions[k..], id)
      {
        if sessions[k].id == id {
          return;
        }
        assert sessions[k..][1..] == sessions[k + 1..];
        k := k + 1;
      }
      k := -1;
    }

    /** `SELECT ... FROM messages WHERE session_id = ?` as a scan of the table. */
    method SelectBySession(sid: string) returns (rows: seq<MessageRow>)
      ensures rows == MessagesOf(messages, sid)
      ensures forall m :: m in rows <==> m in messages && m.sessionId == sid
    {
      rows := [];
      var i := 0;
      while i < |messages|
        invariant 0 <= i <= |messages|
        invariant rows == MessagesOf(messages[..i], sid)
      {
        assert messages[..i + 1] == messages[..i] + [messages[i]];
        WhereSnoc(messages[..i], messages[i], OfSession(sid));
        if messages[i].sessionId == sid {
          rows := rows + [messages[i]];
        }
        i := i + 1;
      }
      assert messages[..i] == messages;
    }

    /** Session upsert (see `Upsert`). */
    method UpsertSession(id: string, now: Time)
      requires Valid() && clock <= now
      modifies this
      ensures Valid()
      ensures State() == old(State()).(sessions := Upsert(old(sessions), id, now))
      ensures clock == now && issued == old(issued)
    {
      ghost var t0 := State();
      UpsertKeepsInvariant(t0, clock, issued, id, now);
      var k := FindSession(id);
      if k >= 0 {
        TouchAt(sessions, id, now, k);
        sessions := sessions[k := sessions[k].(updatedAt := now)];
      } else {
        sessions := sessions + [SessionRow(id, now, now)];
      }
      assert State() == t0.(sessions := Upsert(t0.sessions, id, now));
      clock := now;
    }

    /** Message insert. The foreign key makes it fail, changing nothing, when no session
        has the id; otherwise the row is appended with the next id, which was never issued
        before. `tokens` is `None` when the statement leaves `tokens_used` to its default. */
    method InsertMessage(sid: string, role: Role, content: string, tokens: Option<int>, now: Time)
      returns (ok: bool, id: nat)
      requires Valid() && clock <= now
      modifies this
      ensures Valid()
      ensures ok <==> sid in SessionIds(old(sessions))
      ensures ok ==> && id == old(lastId) + 1 && id !in old(issued) && issued == old(issued) + {id}
                     && clock == now
                     && State() == Append(old(State()), sid, role, content, tokens.GetOr(0), now)
      ensures !ok ==> State() == old(State()) && clock == old(clock) && issued == old(issued)
    {
      ghost var t0 := State();
      var k := FindSession(sid);
      if k < 0 {
        return false, 0;
      }
      AppendKeepsInvariant(t0, clock, issued, sid, role, content, tokens.GetOr(0), now);
      id := lastId + 1;
      var row := MessageRow(id, sid, role, content, tokens.GetOr(0), now);
      messages, lastId := messages + [row], id;
      assert State() == Append(t0, sid, role, content, tokens.GetOr(0), now);
      issued := issued + {id};
      clock := now;
      ok := true;
    }

    /** `UPDATE sessions SET updated_at = now WHERE id = ?`. */
    method TouchSession(id: string, now: Time)
      requires Valid() && clock <= now
      modifies this
      ensures Valid()
      ensures State() == old(State()).(sessions := Touch(old(sessions), id, now))
      ensures clock == now && issued == old(issued)
    {
      ghost var t0 := State();
      TouchKeepsInvariant(t0, clock, issued, id, now);
      var k := FindSession(id);
      if k >= 0 {
        TouchAt(sessions, id, now, k);
        sessions := sessions[k := sessions[k].(updatedAt := now)];
      } else {
        assert Touch(sessions, id, now) == sessions;
      }
      clock := now;
    }

    /** `DELETE FROM sessions WHERE id = ?` with the cascade on `messages`. */
    method DeleteSession(id: string)
      requires Valid()
      modifies this
      ensures Valid()
      ensures State() == Delete(old(State()), id)
      ensures clock == old(clock) && issued == old(issued)
    {
      ghost var t0 := State();
      DeleteKeepsInvariant(t0, clock, issued, id);
      var keptSessions := DeleteRows(sessions, id);
      var keptMessages := CascadeRows(messages, id);
      sessions, messages := keptSessions, keptMessages;
      assert State() == Delete(t0, id);
    }
  }
}
