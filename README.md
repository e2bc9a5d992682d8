# Support assistant backend: a Dafny model

The support assistant is a chat backend. It keeps conversations in two SQLite tables:

- `sessions`: one row per session id, with `created_at` and `updated_at`.
- `messages`: the `user` and `assistant` turns of every session.

On each chat request it sends the documentation-grounded system prompt and some of the session's history to an LLM, then stores the turn. This project models that core in Dafny 4.11 and proves what each handler does to the tables.

Modules, one per source file, plus three small shared ones:

- `Db` (backend/db.js).
  - The tables are datatypes. The table invariant `WellFormed` holds the schema constraints:
    - the primary key;
    - the foreign key under `foreign_keys = ON`;
    - AUTOINCREMENT: ascending ids, none above the counter.

    It also holds one fact that is not a schema constraint: `created_at` never decreases along the table, because the clock never goes back. The role check `CHECK(role IN ('user', 'assistant'))` is the datatype `Role` itself, so no other role can be stored.
  - The handlers issue three SQL writes: the session upsert, the message insert and the `updated_at` update. Each is a transition on table values: `Upsert`, `Append` and `Touch`. No handler deletes anything. `Delete` models only what the schema's `ON DELETE CASCADE` promises.
  - The class `Database` holds both tables as `seq` fields and updates them in place. Its methods are proved against those transitions.
  - A ghost `clock` and a ghost set `issued` of handed-out ids make "timestamps never go back" and "ids are never reused" invariants.
- `Llm` (backend/llm.js). The documentation block and system prompt, the 10-entry history window, the request assembly, and the reply and token fallbacks. The completion endpoint is a function parameter `provider`.
- `Server` (backend/server.js), the mounted application:
  - `HandleChat` is the `POST /api/chat` handler. It is a method on the `Database` that works step by step, and it is proved equal to the function `ChatTurn` on table values.
  - `HandleConversation` and `HandleSessions` are the two read routes.
- `ChatRoute` (backend/routes/chat.js), the unmounted router variant. It stores the user row before the LLM call and reads the newest ten messages as context.
- `ConversationsRoute` and `SessionsRoute` (backend/routes/conversations.js and backend/routes/sessions.js), the read-only queries.
- Shared modules:
  - `Http`: JSON field values, the field checks and the response shapes.
  - `JsStrings`: `trim`, `includes`, `join`, and decimal rendering.
  - `Seqs`: `LIMIT`, `slice(-n)`, `reverse`, and `ORDER BY` as a stable insertion sort.
  - `Wrappers`: `Option` and `Result`.

Modelling choices:

- **Time.** The clock is an abstract natural number. A chat handler receives two readings:
  - `now`, the time of the session upsert;
  - `later`, the time after the awaited LLM call returns.

  It requires `clock <= now <= later`.
- **The LLM is an oracle.** The mounted server calls `provider: ChatRequest -> Completion`, where the completion either holds optional content and token total or is a thrown error. The router calls `getReply: seq<WireMessage> -> Result<Reply, ApiError>`.
- **Orderings.**
  - `ORDER BY created_at` is a stable sort on `created_at`, with table (id) order breaking ties.
  - `ORDER BY id` is proved equal to table order.
  - `updated_at DESC` is a stable sort on the negated `updated_at`.
- **The turn is split for proof.**
  - `ChatTurn` validates the body.
  - `AcceptedTurn` is the rest of the turn, given what the LLM call ended with.
  - `ChatTurnAccepted` connects the two. Most turn lemmas are stated on `AcceptedTurn` for any outcome.

## Model

| member | source | states |
|---|---|---|
| Db.Lookup | backend/server.js:85 | `SELECT * FROM sessions WHERE id = ?` finds nothing exactly when no row has the id; otherwise it finds a stored row with that id |
| Db.LookupUnique | backend/db.js:21 | with the primary key, looking up a row's id finds that very row |
| Db.UpsertSpec | backend/server.js:40-43 | the upsert keeps ids unique. It adds one row exactly when the id is new. The id then has one row, with `updated_at = now` and the old `created_at` (or `now` for a new row). Every other id's row is unchanged |
| Db.TouchKeepsKeys | backend/server.js:67 | `UPDATE ... SET updated_at` keeps the row count, the set of ids and their uniqueness |
| Db.TouchAt | backend/server.js:67 | with a unique key, the update changes exactly the one row with the id, and only its `updated_at` |
| Db.UpsertKeepsWellFormed | backend/db.js:18-37 | the upsert keeps every schema constraint and stamps nothing later than `now` |
| Db.TouchKeepsWellFormed | backend/db.js:18-37 | the touch keeps every schema constraint and stamps nothing later than `now` |
| Db.AppendKeepsWellFormed | backend/db.js:26-33 | inserting a message under an existing session keeps the constraints, and its id exceeds every stored id |
| Db.DeleteKeepsWellFormed | backend/db.js:28 | deleting a session keeps the constraints. It removes every message of that session (`ON DELETE CASCADE`) and keeps every other message |
| Db.OrderByCreatedIsIdOrder | backend/server.js:90-95 | a session's messages `ORDER BY created_at` come back in table order, ids strictly ascending |
| Db.OrderByIdIsTableOrder | backend/routes/conversations.js:12-17 | a session's messages `ORDER BY id` come back in table order |
| Db.AppendKeepsInvariant | backend/db.js:27 | an insert keeps the handle's invariant; the new AUTOINCREMENT id was never issued before |
| Db.UpsertKeepsInvariant | backend/server.js:40-43 | the upsert keeps the handle's invariant with the clock moved to `now` |
| Db.TouchKeepsInvariant | backend/server.js:67 | the touch keeps the handle's invariant with the clock moved to `now` |
| Db.DeleteKeepsInvariant | backend/db.js:28 | a cascading delete keeps the handle's invariant |
| Db.DeleteRows | backend/db.js:28 | the scan keeps exactly the session rows without the id |
| Db.CascadeRows | backend/db.js:28 | the scan keeps exactly the message rows of other sessions, in order |
| Db.Database.constructor | backend/db.js:18-37 | a fresh schema has both tables empty and satisfies the invariant |
| Db.Database.FindSession | backend/db.js:21 | finds the position of the row with the primary key, or -1 exactly when no row has it |
| Db.Database.SelectBySession | backend/server.js:46-48 | the `WHERE session_id = ?` scan returns exactly that session's rows, in table order |
| Db.Database.UpsertSession | backend/server.js:40-43 | the upsert in place leaves the tables as `Upsert` describes and keeps the invariant |
| Db.Database.InsertMessage | backend/db.js:26-33 | succeeds exactly when the session exists (foreign key), changing nothing otherwise. The new row gets the next, never-issued id, `created_at = now`, and `tokens_used` 0 when not supplied |
| Db.Database.TouchSession | backend/server.js:67 | the update in place leaves the tables as `Touch` describes and keeps the invariant |
| Db.Database.DeleteSession | backend/db.js:28 | the cascading delete in place leaves the tables as `Delete` describes and keeps the invariant |
| Llm.DocsContextGrows | backend/llm.js:9-11 | no documents give the empty string. Each further document adds a blank line (when one came before) and then `[i+1] title:\ncontent`, in document order |
| Llm.SystemPromptLayout | backend/llm.js:13-30 | the prompt is exactly the fixed preamble, then the documentation block, then the fixed closing reminder |
| Llm.SystemPromptNamesFallback | backend/llm.js:18-29 | the prompt contains the fallback sentence that replaces an empty answer |
| Llm.Window | backend/llm.js:35-39 | the forwarded history is the last `min(n, 10)` entries of the input, in their order |
| Llm.BuildRequest | backend/llm.js:41-48 | the request uses the fixed model. It holds `min(n, 10) + 2` messages: the system prompt, then the window, then the user turn |
| Llm.ReplyText | backend/llm.js:50-52 | the reply is never empty: it is the content when that is non-empty, otherwise the fallback sentence |
| Llm.TokensUsed | backend/llm.js:54 | the token count is the reported total, or 0 when none is reported |
| Llm.Chat | backend/llm.js:32-57 | `chat` fails exactly when the endpoint throws, with that error. Otherwise it returns the non-empty reply text and the token count |
| JsStrings.Trim | backend/server.js:29 | `trim()` is empty exactly when the string is all white space. Otherwise it neither starts nor ends with white space |
| JsStrings.TrimMargins | backend/server.js:43 | `trim()` returns a contiguous piece of the string, and everything outside that piece is white space |
| JsStrings.IncludesIff | backend/server.js:72 | `includes` holds exactly when the substring occurs at some position |
| JsStrings.DecimalString | backend/llm.js:10 | `${i + 1}` renders digits only, non-empty, with no leading zero |
| JsStrings.DecimalRoundTrip | backend/llm.js:10 | reading the rendered digits back gives the number |
| Seqs.Limit | backend/server.js:50 | `LIMIT n` keeps the first `min(len, n)` rows |
| Seqs.TakeLast | backend/llm.js:36 | `slice(-n)` keeps the last `min(len, n)` entries |
| Seqs.Reverse | backend/routes/chat.js:36 | `reverse()` puts element `k` at position `len - 1 - k` |
| Seqs.ReverseLimitReverse | backend/routes/chat.js:35-36 | `ORDER BY id DESC LIMIT n`, then reversed, gives the last `n` in ascending order |
| Seqs.SortBy | backend/server.js:49 | `ORDER BY` returns a permutation of its input, ordered by the key |
| Seqs.InsertBySorted | backend/server.js:49 | one insertion step of the sort keeps an ordered sequence ordered |
| Seqs.SortBySortedFixpoint | backend/server.js:94 | rows already in key order come back exactly as they are, ties in their original order |
| Seqs.SortByDistinct | backend/routes/sessions.js:15 | sorting never duplicates a row |
| Http.FieldChecks | backend/routes/chat.js:10-15 | the blank check holds exactly when `trim()` leaves something, and it implies the plain check. The plain check holds for a string exactly when it is non-empty |
| Server.HandleChat | backend/server.js:26-77 | the handler run step by step on the store gives the response and tables of `ChatTurn`, and keeps the invariant |
| Server.ChatTurnAccepted | backend/server.js:29-54 | a valid body runs the accepted turn on the trimmed id and message, with what `chat` returns for the history |
| Server.StoredIdResends | backend/server.js:29-43 | the stored id is the trimmed one. Sent again, it passes the id check and trims to itself, so it names the same session |
| Server.ChatRejectsExactlyInvalidInput | backend/server.js:27-34 | 400 happens exactly when a field is missing, not a string or blank. The message names the first failing check, and neither table changes |
| Server.AcceptedTurnAnswers | backend/server.js:54-75 | an accepted turn answers the LLM's `{reply, tokensUsed}` on success. Otherwise the catch block answers, with 502 or 500 and never 400 |
| Server.Outcome | backend/server.js:46-54 | the awaited `chat` call, on history read after the upsert, never yields an empty reply |
| Server.ChatUpsertsSession | backend/server.js:40-43 | whatever the LLM does, the id ends up with exactly one session row. The row count grows only for a new id, `created_at` is kept or set to `now`, and other sessions are untouched |
| Server.ChatHistoryIsEarliestWindow | backend/server.js:45-54 | the history is the session's earliest at most 10 messages, oldest first. All were stored before the turn, so the current message is never in it, and `chat` forwards all of it |
| Server.EarliestHistoryOmitsNewest | backend/server.js:45-51 | once a session has more than 10 messages, its newest message is not in the history |
| Server.ChatFailureWritesNoMessage | backend/server.js:40-75 | when the LLM call throws, no message is stored and the counter does not move, but the upserted session stays. The answer is 502 exactly when the error mentions `API` or has a status, 500 otherwise |
| Server.ChatSuccessStoresBothRows | backend/server.js:54-69 | on success exactly two rows are appended under the id: the user row with 0 tokens, then the assistant row. No other session's messages change, the session is touched, and the response echoes the reply |
| Server.SettleTouchesSession | backend/server.js:57-67 | both rows go to the session and no other, and the session's `updated_at` becomes the time after the call |
| Server.AcceptedTurnKeepsWellFormed | backend/server.js:38-69 | every accepted turn keeps the schema constraints, whatever the LLM did |
| Server.ChatKeepsWellFormed | backend/server.js:26-77 | every turn, accepted or rejected, keeps the schema constraints |
| Server.HandleConversationSpec | backend/server.js:80-97 | 404 "Session not found." exactly when no session row has the id. Otherwise it returns all of that session's messages and no others, ascending |
| ChatRoute.HandleChat | backend/routes/chat.js:7-56 | the router's handler, run step by step on the store, gives the response and tables of its `ChatTurn` and keeps the invariant |
| ChatRoute.ChatTurnAccepted | backend/routes/chat.js:8-40 | a valid body runs the accepted turn on the untrimmed id and the trimmed message, with the reply for the context |
| ChatRoute.RejectsExactlyInvalidInput | backend/routes/chat.js:10-15 | each 400 answers exactly its own failed check (the id check does not trim, the message check does), and neither table changes |
| ChatRoute.AcceptedTurnStoresSession | backend/routes/chat.js:21-25 | an accepted turn never answers a field-check error, and the session row exists afterwards |
| ChatRoute.BlankSessionIdDiverges | backend/routes/chat.js:10-12 | an id made only of spaces gets 400 with no writes from the server, but the router accepts it and stores it verbatim |
| ChatRoute.AcceptedBodyStoresSession | backend/routes/chat.js:10-25 | a body that passes the router's checks is never refused with the id error, and its id, untrimmed, has a session row afterwards |
| ChatRoute.StoredSpec | backend/routes/chat.js:20-29 | the upsert and the user insert keep the constraints. The user row is appended with the next id and becomes the session's newest message |
| ChatRoute.RecentRowsAreLatest | backend/routes/chat.js:31-36 | the context query returns exactly the session's last `min(n, 10)` messages, in ascending order, ending with its newest |
| ChatRoute.LatestWindowKeepsNewest | backend/routes/chat.js:31-36 | with more than 10 messages in a session, the newest is in the router's context rows but not in the server's history rows (backend/server.js:45-51) |
| ChatRoute.ContextEndsWithMessage | backend/routes/chat.js:27-38 | the context holds 1 to 10 entries and always ends with the user message just stored |
| ChatRoute.FailureKeepsUserRow | backend/routes/chat.js:27-54 | when the reply function throws, the session and the user row stay with no reply after them. The answer is 400 exactly for `ERR_BAD_REQUEST` or status 400, 500 otherwise |
| ChatRoute.SuccessAppendsReply | backend/routes/chat.js:40-48 | on success exactly one assistant row follows the user row, the session is touched, and the response echoes `{reply, tokensUsed}` |
| ChatRoute.ReplyRowStored | backend/routes/chat.js:42-46 | the assistant insert takes the next id, and the touch sets the session's `updated_at` |
| ChatRoute.MissingExport | backend/routes/chat.js:4 | the name the router imports evaluates to a call that throws, with neither code nor status |
| ChatRoute.AsWrittenEveryTurnFails | backend/routes/chat.js:40-54 | as written, every accepted request answers 500 and leaves the session and an unanswered user row behind |
| ChatRoute.AcceptedTurnKeepsWellFormed | backend/routes/chat.js:19-48 | every accepted router turn keeps the schema constraints |
| ChatRoute.ChatKeepsWellFormed | backend/routes/chat.js:7-56 | every router turn keeps the schema constraints |
| ConversationsRoute.HandleConversationSpec | backend/routes/conversations.js:6-24 | a non-empty id gets 200 echoing the id. It returns exactly that session's messages, none from other sessions, untruncated, in strictly ascending id order. An unknown id gets an empty list, not 404 |
| SessionsRoute.ListSessionsMembers | backend/routes/sessions.js:9-16 | the listing has one entry per session row, and every session row is summarised in it |
| SessionsRoute.ListSessionsDistinct | backend/routes/sessions.js:14 | no session id is listed twice |
| SessionsRoute.ListSessionsRows | backend/routes/sessions.js:10-13 | each entry carries its session's stored row, and `message_count` equals the number of messages referencing it |
| SessionsRoute.ListSessionsKeepsEmpty | backend/routes/sessions.js:13 | a session no message references is still listed, with count 0 |
| SessionsRoute.ListSessionsSpec | backend/routes/sessions.js:6-23 | the listing returns every session exactly once, each with its row and message count, in non-increasing `updated_at` order |

`Server.HandleSessions` (backend/server.js:105-118) runs the same query as backend/routes/sessions.js, so the `SessionsRoute` lemmas cover it. Both GET routes are functions of the tables, so they change nothing.

## Left out

- **Express plumbing.** CORS, the rate limiter, JSON body parsing, the health route, the 404 and generic error handlers, and `app.listen`: these are library configuration and I/O.
- **Console logging.**
- **The Groq client and its network call.** They are replaced by the `provider` parameter. The content of `docs.json` is the parameter `docs`.
- **`getDb`'s lazy singleton and the `journal_mode` pragma.** `foreign_keys = ON` is kept as the foreign-key part of the invariant.
- **Concurrency.** The model runs one turn at a time. Two requests interleaving at the `await` are not modelled.
- **Timestamp format and resolution.** `datetime('now')` and `new Date().toISOString()` become readings of one abstract clock. Second-resolution ties, and how a text `ORDER BY` compares the two formats, are not modelled. Ties in `ORDER BY created_at` and `updated_at` are broken by table order.
- **Column projection.** Rows are returned whole. `SELECT role, content` is modelled only where it feeds the LLM (`Http.RoleContent`).
- **Store failures.** The database never throws, so the catch blocks are reached only through the LLM call. The 500 "Database error." branches of the two read routes are not modelled.
- **Body values.** A non-string value is modelled only as truthy or falsy.
- **Outside the backend core.** The frontend and the test files.
- Server.HandleChat: follows the history query as written (earliest 10). See Findings.

## Findings

| source | as written | input that shows it | evidently intended | confidence | as-written member | corrected member |
|---|---|---|---|---|---|---|
| backend/server.js:45-51 | the history query is `ORDER BY created_at ASC LIMIT 10`, which is the session's *earliest* 10 messages | a session with 11 stored messages: the 11th, the newest, is never sent to the LLM | the last 10 messages, oldest first, as the comment on line 45 and the router's `ORDER BY id DESC LIMIT 10` plus reverse do | not executed | Server.EarliestHistoryOmitsNewest | ChatRoute.LatestWindowKeepsNewest |
| backend/routes/chat.js:4,40 | the router imports `getLLMReply`, which backend/llm.js:59 does not export, so the awaited call throws a `TypeError` | any request with a non-empty `sessionId` and a non-blank `message`: the answer is 500 and the user row stays without a reply | a reply function that answers, so the assistant row is stored and the reply returned | not executed | ChatRoute.AsWrittenEveryTurnFails | ChatRoute.SuccessAppendsReply |
