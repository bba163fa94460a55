/**
 * The MongoDB-backed store of `app/services/mongo.py` as an immutable value:
 * the `clients`, `sessions`, `messages` and `kpis` collections, plus a clock
 * that stands in for `datetime.utcnow()` (every write that stamps a record
 * reads the clock and advances it, so stamps strictly increase).
 */
module Store {

  import opened Wrappers
  import opened Text

  datatype Client = Client(clientId: string, name: string, email: string)

  /** The payload handed to `create_client`; its `client_id` may be missing. */
  datatype NewClient = NewClient(clientId: Option<string>, name: string, email: string)

  /** A `sessions` document. A document written by other means may lack the
      active client id, hence the option. */
  datatype Session = Session(activeClientId: Option<string>, updatedAt: nat)

  /** A `messages` document. */
  datatype MessageRecord = MessageRecord(sessionId: string, role: string, content: string, createdAt: nat)

  /** A `kpis` document. `date` is the day number of the ISO date string the
      source stores; `YYYY-MM-DD` strings sort exactly like day numbers. */
  datatype KpiDoc = KpiDoc(clientId: string, date: int, mrr: real, churnRate: real, activeUsers: int)

  /** A history dict `{"type": ..., "content": ...}` as `get_messages`
      returns it and as `invoke` receives it. */
  datatype HistoryEntry = HistoryEntry(kind: string, content: string)

  datatype Db = Db(
    clients: seq<Client>,
    sessions: map<string, Session>,
    messages: seq<MessageRecord>,
    kpis: seq<KpiDoc>,
    clock: nat)

  const EmptyDb := Db([], map[], [], [], 0)

  /** The invariant every reachable store keeps: client ids are unique (the
      unique index), message stamps strictly increase in insertion order and
      every stamp lies before the clock. */
  ghost predicate Valid(db: Db) {
    && (forall i, j :: 0 <= i < j < |db.clients| ==> db.clients[i].clientId != db.clients[j].clientId)
    && (forall i, j :: 0 <= i < j < |db.messages| ==> db.messages[i].createdAt < db.messages[j].createdAt)
    && (forall i :: 0 <= i < |db.messages| ==> db.messages[i].createdAt < db.clock)
    && (forall s :: s in db.sessions ==> db.sessions[s].updatedAt < db.clock)
  }

  function ClientIds(clients: seq<Client>): (ids: seq<string>)
    ensures |ids| == |clients|
    ensures forall i :: 0 <= i < |clients| ==> ids[i] == clients[i].clientId
  {
    seq(|clients|, i requires 0 <= i < |clients| => clients[i].clientId)
  }

  // ---------------------------------------------------------------------------
  // Sessions
  // ---------------------------------------------------------------------------

  /** `get_active_client_id`: the session's stored id, or "" when the session
      or its field is missing. */
  function GetActiveClientId(db: Db, sessionId: string): (id: string)
    ensures sessionId !in db.sessions ==> id == ""
    ensures sessionId in db.sessions && db.sessions[sessionId].activeClientId.None? ==> id == ""
    ensures sessionId in db.sessions && db.sessions[sessionId].activeClientId.Some? ==>
      id == db.sessions[sessionId].activeClientId.value
  {
    if sessionId in db.sessions then db.sessions[sessionId].activeClientId.GetOr("") else ""
  }

  /**
   * `set_active_client_id`: refuses (false, store unchanged) a client id that
   * is not registered; otherwise upserts only this session's active id with a
   * fresh stamp and reports true.
   */
  function SetActiveClientId(db: Db, sessionId: string, clientId: string): (r: (bool, Db))
    ensures r.0 <==> clientId in ClientIds(db.clients)
    ensures !r.0 ==> r.1 == db
    ensures r.0 ==> GetActiveClientId(r.1, sessionId) == clientId
    ensures forall s :: s != sessionId ==> GetActiveClientId(r.1, s) == GetActiveClientId(db, s)
    ensures r.1.sessions.Keys == db.sessions.Keys + (if r.0 then {sessionId} else {})
    ensures r.1.clients == db.clients && r.1.messages == db.messages && r.1.kpis == db.kpis
    ensures Valid(db) ==> Valid(r.1)
  {
    if clientId !in ClientIds(db.clients) then (false, db)
    else
      (true, db.(sessions := db.sessions[sessionId := Session(Some(clientId), db.clock)],
                 clock := db.clock + 1))
  }

  // ---------------------------------------------------------------------------
  // Messages
  // ---------------------------------------------------------------------------

  /** `add_message`: appends exactly one record, stamped with the clock. */
  function AddMessage(db: Db, sessionId: string, role: string, content: string): (r: Db)
    ensures r.messages == db.messages + [MessageRecord(sessionId, role, content, db.clock)]
    ensures r.clients == db.clients && r.sessions == db.sessions && r.kpis == db.kpis
    ensures Valid(db) ==> Valid(r)
  {
    db.(messages := db.messages + [MessageRecord(sessionId, role, content, db.clock)],
        clock := db.clock + 1)
  }

  /** The records of one session, in insertion order. */
  function SessionRecords(messages: seq<MessageRecord>, sessionId: string): (r: seq<MessageRecord>)
    ensures |r| <= |messages|
    ensures forall i :: 0 <= i < |r| ==> r[i].sessionId == sessionId && r[i] in messages
  {
    if |messages| == 0 then []
    else
      var rest := SessionRecords(messages[..|messages| - 1], sessionId);
      var last := messages[|messages| - 1];
      if last.sessionId == sessionId then rest + [last] else rest
  }

  /** Stamps strictly increase along the sequence. */
  ghost predicate Ascending(ms: seq<MessageRecord>) {
    forall i, j :: 0 <= i < j < |ms| ==> ms[i].createdAt < ms[j].createdAt
  }

  /** In a valid store the records of a session already come in ascending
      `created_at` order, so the source's sort is the insertion order. */
  lemma SessionRecordsAscending(db: Db, sessionId: string)
    requires Valid(db)
    ensures Ascending(SessionRecords(db.messages, sessionId))
  {
    SubsequenceAscending(db.messages, sessionId);
  }

  lemma {:induction false} SubsequenceAscending(ms: seq<MessageRecord>, sessionId: string)
    requires Ascending(ms)
    ensures Ascending(SessionRecords(ms, sessionId))
    decreases |ms|
  {
    if |ms| > 0 {
      var init := ms[..|ms| - 1];
      var last := ms[|ms| - 1];
      SubsequenceAscending(init, sessionId);
      var rest := SessionRecords(init, sessionId);
      assert Ascending(rest);
      if last.sessionId == sessionId {
        var r := rest + [last];
        forall i, j | 0 <= i < j < |r| ensures r[i].createdAt < r[j].createdAt {
          assert r[i] == rest[i];
          if j == |rest| {
            var k :| 0 <= k < |init| && init[k] == rest[i];
            assert ms[k] == init[k];
          } else {
            assert r[j] == rest[j];
          }
        }
        assert SessionRecords(ms, sessionId) == r;
      } else {
        assert SessionRecords(ms, sessionId) == rest;
      }
    }
  }

  function ToHistory(records: seq<MessageRecord>): (h: seq<HistoryEntry>)
    ensures |h| == |records|
    ensures forall i :: 0 <= i < |h| ==> h[i] == HistoryEntry(records[i].role, records[i].content)
  {
    seq(|records|, i requires 0 <= i < |records| => HistoryEntry(records[i].role, records[i].content))
  }

  /** The number of records a cursor `limit(n)` lets through: all of them for
      0, otherwise the absolute value of `n`. */
  function CursorLimit(available: nat, limit: int): (n: nat)
    ensures n <= available
    ensures limit == 0 ==> n == available
    ensures limit != 0 ==> n == if available < (if limit < 0 then -limit else limit)
                                then available else (if limit < 0 then -limit else limit)
  {
    var cap := if limit < 0 then -limit else limit;
    if limit == 0 || available < cap then available else cap
  }

  /**
   * `get_messages`: the session's records oldest first, cut to the limit,
   * each as a `{"type": role, "content": content}` entry.
   */
  function GetMessages(db: Db, sessionId: string, limit: int): (h: seq<HistoryEntry>)
    ensures var all := ToHistory(SessionRecords(db.messages, sessionId));
      && |h| == CursorLimit(|all|, limit)
      && h == all[..|h|]
    ensures limit >= 1 ==> |h| <= limit
  {
    var all := ToHistory(SessionRecords(db.messages, sessionId));
    all[..CursorLimit(|all|, limit)]
  }

  /** Adding a message then reading the session's whole log shows exactly one
      more entry, at the end; other sessions' logs are unchanged. */
  lemma AddThenGetMessages(db: Db, sessionId: string, other: string, role: string, content: string)
    requires other != sessionId
    ensures GetMessages(AddMessage(db, sessionId, role, content), sessionId, 0)
         == GetMessages(db, sessionId, 0) + [HistoryEntry(role, content)]
    ensures GetMessages(AddMessage(db, sessionId, role, content), other, 0)
         == GetMessages(db, other, 0)
  {
    var db' := AddMessage(db, sessionId, role, content);
    assert db'.messages[..|db'.messages| - 1] == db.messages;
  }

  // ---------------------------------------------------------------------------
  // Clients
  // ---------------------------------------------------------------------------

  /**
   * `create_client`: refuses (false, store unchanged) a payload whose id is
   * missing or empty or already registered; otherwise appends the client.
   */
  function CreateClient(db: Db, c: NewClient): (r: (bool, Db))
    ensures r.0 <==> c.clientId.Some? && c.clientId.value != "" && c.clientId.value !in ClientIds(db.clients)
    ensures !r.0 ==> r.1 == db
    ensures r.0 ==> r.1 == db.(clients := db.clients + [Client(c.clientId.value, c.name, c.email)])
    ensures Valid(db) ==> Valid(r.1)
  {
    match c.clientId
    case None => (false, db)
    case Some(id) =>
      if id == "" || id in ClientIds(db.clients) then (false, db)
      else
        var r := db.(clients := db.clients + [Client(id, c.name, c.email)]);
        assert forall i :: 0 <= i < |db.clients| ==> db.clients[i].clientId != id by {
          forall i | 0 <= i < |db.clients| ensures db.clients[i].clientId != id {
            assert ClientIds(db.clients)[i] == db.clients[i].clientId;
          }
        }
        (true, r)
  }

  // ---------------------------------------------------------------------------
  // Seeding
  // ---------------------------------------------------------------------------

  const DefaultClients := [
    Client("client1", "Alice", "alice@example.com"),
    Client("client2", "Bob", "bob@example.com"),
    Client("client3", "Charlie", "charlie@example.com"),
    Client("client4", "Diana", "diana@example.com")
  ]

  /** The default clients have distinct ids. */
  lemma DefaultClientsDistinct()
    ensures forall i, j :: 0 <= i < j < |DefaultClients| ==> DefaultClients[i].clientId != DefaultClients[j].clientId
  {
    var ids := ClientIds(DefaultClients);
    assert ids == ["client1", "client2", "client3", "client4"];
    forall i, j | 0 <= i < j < |ids| ensures ids[i] != ids[j] {
      assert ids[i][6] != ids[j][6];
    }
  }

  function BaseMrr(clientId: string): real {
    if clientId == "client1" then 12000.0
    else if clientId == "client2" then 14500.0
    else if clientId == "client3" then 16000.0
    else 18000.0
  }

  function ChurnBaseline(clientId: string): real {
    if clientId == "client1" || clientId == "client2" then 0.03 else 0.028
  }

  function UsersBase(clientId: string): int {
    if clientId == "client1" || clientId == "client3" then 800 else 900
  }

  /** The i-th of a client's five seeded days (i = 0 is four days ago). */
  function SeedDoc(clientId: string, today: int, i: int): KpiDoc {
    KpiDoc(
      clientId,
      today - (4 - i),
      BaseMrr(clientId) + (120 * i - 60 * (i % 2)) as real,
      ChurnBaseline(clientId) + (i - 2) as real * 0.002,
      UsersBase(clientId) + 15 * i - 10 * (i % 3))
  }

  function ClientSeed(clientId: string, today: int): seq<KpiDoc> {
    [SeedDoc(clientId, today, 0), SeedDoc(clientId, today, 1), SeedDoc(clientId, today, 2),
     SeedDoc(clientId, today, 3), SeedDoc(clientId, today, 4)]
  }

  /** Five documents per client, clients in collection order, each client's
      days oldest to newest. */
  function SeedKpis(clients: seq<Client>, today: int): (docs: seq<KpiDoc>)
  {
    if |clients| == 0 then []
    else SeedKpis(clients[..|clients| - 1], today) + ClientSeed(clients[|clients| - 1].clientId, today)
  }

  /** The layout of the seeded KPI documents: document 5c + i is day i of
      client c, with the source's integer formulas. */
  lemma {:induction false} SeedKpisLayout(clients: seq<Client>, today: int)
    ensures |SeedKpis(clients, today)| == 5 * |clients|
    ensures forall c, i :: 0 <= c < |clients| && 0 <= i < 5 ==>
      SeedKpis(clients, today)[5 * c + i] == SeedDoc(clients[c].clientId, today, i)
    decreases |clients|
  {
    if |clients| > 0 {
      var init := clients[..|clients| - 1];
      SeedKpisLayout(init, today);
      forall c, i | 0 <= c < |clients| && 0 <= i < 5
        ensures SeedKpis(clients, today)[5 * c + i] == SeedDoc(clients[c].clientId, today, i)
      {
        if c < |init| {
          assert clients[c] == init[c];
        }
      }
    }
  }

  /** Per-day seed values as the source's formulas give them. */
  lemma SeedDocValues(clientId: string, today: int, i: int)
    requires 0 <= i < 5
    ensures SeedDoc(clientId, today, i).mrr == BaseMrr(clientId) + (120 * i) as real - (60 * (i % 2)) as real
    ensures SeedDoc(clientId, today, i).activeUsers == UsersBase(clientId) + 15 * i - 10 * (i % 3)
    ensures SeedDoc(clientId, today, i).date == today - 4 + i
  {
  }

  /**
   * `seed_dummy_data`: inserts the four default clients only into an empty
   * `clients` collection, then the KPI documents of every client only into an
   * empty `kpis` collection. `today` is the day number of `date.today()`.
   */
  function SeedDummyData(db: Db, today: int): (r: Db)
    ensures |db.clients| > 0 ==> r.clients == db.clients
    ensures |db.clients| == 0 ==> r.clients == DefaultClients
    ensures |db.kpis| > 0 ==> r.kpis == db.kpis
    ensures |db.kpis| == 0 ==> r.kpis == SeedKpis(r.clients, today)
    ensures r.sessions == db.sessions && r.messages == db.messages && r.clock == db.clock
    ensures |r.clients| > 0 && |r.kpis| > 0
    ensures Valid(db) ==> Valid(r)
  {
    DefaultClientsDistinct();
    var withClients := if |db.clients| == 0 then db.(clients := DefaultClients) else db;
    SeedKpisLayout(withClients.clients, today);
    if |withClients.kpis| == 0 then withClients.(kpis := SeedKpis(withClients.clients, today))
    else withClients
  }

  /** Seeding twice is seeding once: the second call finds both collections
      non-empty and changes nothing, whatever day it runs on. */
  lemma SeedIdempotent(db: Db, today: int, later: int)
    ensures SeedDummyData(SeedDummyData(db, today), later) == SeedDummyData(db, today)
  {
  }
}
