/** The client repository: an in-memory map in front of a SQLite table, and the sessions that use it
    (server/clients/cr.go, sqlite.go, init.go, client_service.go, clientdata/client.go). */
module Repository {
  import opened Text

  /** Times and durations are in nanoseconds; `None` as a keep duration means forever. */
  type Keep = Option<nat>

  const NANOS_PER_SECOND := 1_000_000_000

  /** clientdata.Client. Of the persisted fields not named here, `details` stands for those that a connection
      request sets and `kept` for those that it leaves alone (user groups, update status, addresses); `session`
      stands for the fields that are not persisted. */
  datatype Client = Client(
    id: string, authID: string, disconnectedAt: Option<int>, tags: seq<string>, details: string, kept: string,
    session: string)
  {
    predicate Connected() {
      disconnectedAt.None?
    }

    /** Client.Obsolete */
    predicate Obsolete(keep: Keep, now: int) {
      keep.Some? && disconnectedAt.Some? && disconnectedAt.value + keep.value < now
    }

    /** convertToSqlite */
    function ToRow(): Row {
      Row(id, authID, disconnectedAt, tags, details, kept)
    }
  }

  /** clientSqlite */
  datatype Row = Row(
    id: string, authID: string, disconnectedAt: Option<int>, tags: seq<string>, details: string, kept: string)
  {
    /** clientSqlite.convert: the session is gone. */
    function ToClient(): Client {
      Client(id, authID, disconnectedAt, tags, details, kept, "")
    }

    /** Disconnected at `now` unless it was disconnected before. */
    function Down(now: int): Row {
      this.(disconnectedAt := Some(disconnectedAt.GetOr(now)))
    }

    /** The DELETE condition. DATETIME() compares whole seconds. */
    predicate Expired(keep: Keep, now: int) {
      keep.Some? && disconnectedAt.Some? && Seconds(disconnectedAt.value) < Seconds(now - keep.value)
    }

    predicate Obsolete(keep: Keep, now: int) {
      ToClient().Obsolete(keep, now)
    }
  }

  function Seconds(t: int): int {
    t / NANOS_PER_SECOND
  }

  /** The table is purged later than the memory, never earlier. */
  lemma ExpiredIsObsolete(r: Row, keep: Keep, now: int)
    ensures r.Expired(keep, now) ==> r.Obsolete(keep, now)
  {
  }

  /** Exactly, up to the second that the table cannot tell: connected clients and those disconnected no longer
      than the keep duration stay, those disconnected a second longer go. */
  lemma ExpiredWithinASecond(r: Row, keep: Keep, now: int)
    ensures keep.None? || r.disconnectedAt.None? ==> !r.Expired(keep, now) && !r.Obsolete(keep, now)
    ensures keep.Some? && r.disconnectedAt.Some? ==>
              && (r.Obsolete(keep, now) <==> now - r.disconnectedAt.value > keep.value)
              && (r.Expired(keep, now) ==> now - r.disconnectedAt.value > keep.value)
              && (now - r.disconnectedAt.value >= keep.value + 1_000_000_000 ==> r.Expired(keep, now))
  {
  }

  /** A record survives the table but for its session. */
  lemma RowRoundTrip(c: Client)
    ensures c.ToRow().ToClient() == c.(session := "")
    ensures c.ToRow() == Row(c.id, c.authID, c.disconnectedAt, c.tags, c.details, c.kept)
  {
  }

  datatype Repo = Repo(clients: map<string, Client>, store: map<string, Row>, now: int) {

    ghost predicate KeysAreIDs() {
      && (forall id :: id in clients ==> clients[id].id == id)
      && (forall id :: id in store ==> store[id].id == id)
    }

    predicate IsAlive(keep: Keep, id: string) {
      id in clients && !clients[id].Obsolete(keep, now)
    }

    predicate IsAliveRow(keep: Keep, id: string) {
      id in store && !store[id].Obsolete(keep, now)
    }

    /** Memory and store have the same non-obsolete clients. */
    ghost predicate Agree(keep: Keep) {
      && (forall id :: IsAlive(keep, id) <==> IsAliveRow(keep, id))
      && (forall id :: IsAlive(keep, id) ==> clients[id].ToRow() == store[id])
    }

    /** No two non-obsolete clients share a client auth id. */
    ghost predicate UniqueAuth(keep: Keep) {
      forall a, b :: IsAlive(keep, a) && IsAlive(keep, b) && clients[a].authID == clients[b].authID ==> a == b
    }

    /** No two non-obsolete rows share a client auth id. */
    ghost predicate UniqueRows(keep: Keep) {
      forall a, b :: IsAliveRow(keep, a) && IsAliveRow(keep, b) && store[a].authID == store[b].authID ==> a == b
    }

    // ----- queries -----

    function ByID(keep: Keep, id: string): Option<Client> {
      if IsAlive(keep, id) then Some(clients[id]) else None
    }

    function ActiveByID(id: string): Option<Client> {
      if id in clients && clients[id].Connected() then Some(clients[id]) else None
    }

    function Where(match_: Client -> bool): set<Client> {
      set id | id in clients && match_(clients[id]) :: clients[id]
    }

    function Alive(keep: Keep): set<Client> {
      Where((c: Client) => !c.Obsolete(keep, now))
    }

    function Active(): set<Client> {
      Where((c: Client) => c.Connected())
    }

    predicate AuthInUse(keep: Keep, authID: string, id: string) {
      exists other :: other in clients && IsAlive(keep, other) && clients[other].authID == authID && other != id
    }

    // ----- updates -----

    function Saved(c: Client): Repo {
      this.(clients := clients[c.id := c], store := store[c.id := c.ToRow()])
    }

    function Deleted(id: string): Repo {
      this.(clients := clients - {id}, store := store - {id})
    }

    function Purged(keep: Keep): Repo {
      this.(clients := map id | id in clients && IsAlive(keep, id) :: clients[id],
            store := map id | id in store && !store[id].Expired(keep, now) :: store[id])
    }

    /** LoadInitialClients: rows that have not expired are loaded, and those that were connected when
        the server went down are now disconnected, in memory and in the table. */
    function Restarted(keep: Keep): Repo {
      this.(clients := map id | id in store && !store[id].Expired(keep, now) :: store[id].Down(now).ToClient(),
            store := map id | id in store :: store[id].Down(now))
    }
  }

  // ----- purging and restarting on the fields -----

  /** Purging keeps in memory exactly the clients that are connected, were disconnected no longer ago than the
      keep duration, or are kept for ever; in the table it may keep others for less than a second. */
  lemma PurgedMeans(s: Repo, keep: Keep)
    ensures var t := s.Purged(keep);
            && t.now == s.now
            && (forall id :: id in t.clients <==>
                               && id in s.clients
                               && (keep.None? || s.clients[id].disconnectedAt.None? ||
                                   s.now - s.clients[id].disconnectedAt.value <= keep.value))
            && (forall id :: id in t.clients ==> t.clients[id] == s.clients[id])
            && (forall id :: id in t.store ==> id in s.store && t.store[id] == s.store[id])
    ensures forall id :: id in s.store && (keep.None? || s.store[id].disconnectedAt.None? ||
                                           s.now - s.store[id].disconnectedAt.value <= keep.value) ==>
                           id in s.Purged(keep).store
    ensures forall id :: id in s.Purged(keep).store && keep.Some? && s.store[id].disconnectedAt.Some? ==>
                           s.now - s.store[id].disconnectedAt.value < keep.value + 1_000_000_000
  {
    forall id | id in s.store ensures s.store[id].Expired(keep, s.now) ==> s.store[id].Obsolete(keep, s.now) {
      ExpiredWithinASecond(s.store[id], keep, s.now);
    }
    forall id | id in s.Purged(keep).store && keep.Some? && s.store[id].disconnectedAt.Some?
      ensures s.now - s.store[id].disconnectedAt.value < keep.value + 1_000_000_000
    {
      ExpiredWithinASecond(s.store[id], keep, s.now);
    }
  }

  /** A restart brings up every client whose row is kept, as its row says, and disconnected; it loses no row. */
  lemma RestartedMeans(s: Repo, keep: Keep, id: string)
    ensures var t := s.Restarted(keep);
            && t.now == s.now && (id in t.store <==> id in s.store) && (id in t.clients ==> id in s.store)
            && (id in s.store ==>
                  t.store[id] == s.store[id].(disconnectedAt := if s.store[id].disconnectedAt.Some?
                                                                then s.store[id].disconnectedAt else Some(s.now)))
            && (id in t.clients ==> t.clients[id].ToRow() == t.store[id] && t.clients[id].session == "")
            && (id in s.store ==>
                  (keep.None? || s.store[id].disconnectedAt.None? ||
                   s.now - s.store[id].disconnectedAt.value <= keep.value) ==> id in t.clients)
            && (id in t.clients && keep.Some? && s.store[id].disconnectedAt.Some? ==>
                  s.now - s.store[id].disconnectedAt.value < keep.value + 1_000_000_000)
  {
    if id in s.store {
      ExpiredWithinASecond(s.store[id], keep, s.now);
    }
  }

  // ----- the repository object -----

  class ClientRepository {
    var clientState: map<string, Client>
    var clientStore: map<string, Row>
    var clock: int
    const keep: Keep

    ghost function State(): Repo
      reads this
    {
      Repo(clientState, clientStore, clock)
    }

    constructor (keep: Keep, now: int)
      ensures this.keep == keep && State() == Repo(map[], map[], now)
    {
      this.keep, clock, clientState, clientStore := keep, now, map[], map[];
    }

    /** `storeOk` tells whether the store call succeeds. */
    method Save(c: Client, storeOk: bool) returns (ok: bool)
      modifies this
      ensures ok == storeOk && State() == if storeOk then old(State()).Saved(c) else old(State())
      ensures ok ==> clientState == old(clientState)[c.id := c] && clientStore == old(clientStore)[c.id := c.ToRow()]
    {
      if !storeOk {
        return false;
      }
      clientStore := clientStore[c.id := c.ToRow()];
      clientState := clientState[c.id := c];
      return true;
    }

    method Delete(id: string, storeOk: bool) returns (ok: bool)
      modifies this
      ensures ok == storeOk && State() == if storeOk then old(State()).Deleted(id) else old(State())
      ensures ok ==> clientState == old(clientState) - {id} && clientStore == old(clientStore) - {id}
    {
      if !storeOk {
        return false;
      }
      clientStore := clientStore - {id};
      clientState := clientState - {id};
      return true;
    }

    /** queryClients: the matching clients, each once, in some order. */
    method QueryClients(match_: Client -> bool) returns (matching: seq<Client>)
      requires State().KeysAreIDs()
      ensures forall c :: c in matching <==> c in State().Where(match_)
      ensures forall c :: c in matching <==> c.id in clientState && c == clientState[c.id] && match_(c)
      ensures forall i, j :: 0 <= i < j < |matching| ==> matching[i].id != matching[j].id
    {
      matching := [];
      var todo := clientState.Keys;
      while todo != {}
        invariant todo <= clientState.Keys
        invariant forall c :: c in matching <==>
                    c.id in clientState && c.id !in todo && c == clientState[c.id] && match_(c)
        invariant forall i, j :: 0 <= i < j < |matching| ==> matching[i].id != matching[j].id
        decreases |todo|
      {
        var id :| id in todo;
        assert clientState[id].id == id;
        if match_(clientState[id]) {
          matching := matching + [clientState[id]];
        }
        todo := todo - {id};
      }
    }

    /** DeleteObsolete: the store first, then one by one from memory. */
    method DeleteObsolete(storeOk: bool) returns (ok: bool, deleted: seq<Client>)
      requires State().KeysAreIDs()
      modifies this
      ensures ok == storeOk && State() == if storeOk then old(State()).Purged(keep) else old(State())
      ensures ok ==> forall c :: c in deleted <==> c in old(State()).Where((x: Client) => x.Obsolete(keep, old(clock)))
    {
      if !storeOk {
        return false, [];
      }
      clientStore := map id | id in clientStore && !clientStore[id].Expired(keep, clock) :: clientStore[id];
      var now := clock;
      deleted := QueryClients((x: Client) => x.Obsolete(keep, now));
      ghost var before := clientState;
      RemoveClients(deleted);
      ObsoleteRemoved(before, clientState, deleted, keep, now);
      return true, deleted;
    }

    /** removeClient, for each of them */
    method RemoveClients(deleted: seq<Client>)
      modifies this`clientState
      ensures forall id :: id in clientState <==>
                id in old(clientState) && !(exists j :: 0 <= j < |deleted| && deleted[j].id == id)
      ensures forall id :: id in clientState ==> clientState[id] == old(clientState)[id]
    {
      for i := 0 to |deleted|
        invariant forall id :: id in clientState <==>
                    id in old(clientState) && !(exists j :: 0 <= j < i && deleted[j].id == id)
        invariant forall id :: id in clientState ==> clientState[id] == old(clientState)[id]
      {
        clientState := clientState - {deleted[i].id};
      }
    }

    method GetByID(id: string) returns (r: Option<Client>)
      ensures r == State().ByID(keep, id)
      ensures r.Some? <==> id in clientState && (keep.None? || clientState[id].disconnectedAt.None? ||
                                                 clock - clientState[id].disconnectedAt.value <= keep.value)
      ensures r.Some? ==> r.value == clientState[id]
    {
      if id !in clientState || clientState[id].Obsolete(keep, clock) {
        return None;
      }
      return Some(clientState[id]);
    }

    method GetActiveByID(id: string) returns (r: Option<Client>)
      ensures r == State().ActiveByID(id)
      ensures r == if id in clientState && clientState[id].disconnectedAt.None? then Some(clientState[id]) else None
    {
      if id !in clientState || !clientState[id].Connected() {
        return None;
      }
      return Some(clientState[id]);
    }

    /** GetAllByClientAuthID */
    method GetAllByClientAuthID(authID: string) returns (matching: seq<Client>)
      requires State().KeysAreIDs()
      ensures forall c :: c in matching <==> c in State().Alive(keep) && c.authID == authID
      ensures forall c :: c in matching <==>
                && c.id in clientState && c == clientState[c.id] && c.authID == authID
                && (keep.None? || c.disconnectedAt.None? || clock - c.disconnectedAt.value <= keep.value)
    {
      var now := clock;
      var available := QueryClients((c: Client) => !c.Obsolete(keep, now));
      matching := [];
      for i := 0 to |available|
        invariant forall c :: c in matching <==> c in available[..i] && c.authID == authID
      {
        if available[i].authID == authID {
          matching := matching + [available[i]];
        }
      }
      assert available[..|available|] == available;
    }

    /** isClientAuthIDInUse */
    method IsClientAuthIDInUse(authID: string, clientID: string) returns (inUse: bool)
      requires State().KeysAreIDs()
      ensures inUse == State().AuthInUse(keep, authID, clientID)
    {
      var matching := GetAllByClientAuthID(authID);
      for i := 0 to |matching|
        invariant forall j :: 0 <= j < i ==> matching[j].id == clientID
      {
        if matching[i].id != clientID {
          assert matching[i] in State().Alive(keep);
          return true;
        }
      }
      assert forall id :: State().IsAlive(keep, id) ==> clientState[id] in State().Alive(keep);
      return false;
    }

    /** The restart, `saveOk` telling for each client whether its row can be saved. When one cannot, the
        server does not come up. */
    method Restart(saveOk: string -> bool) returns (up: bool)
      requires State().KeysAreIDs()
      modifies this
      ensures up ==> State() == old(State()).Restarted(keep)
      ensures !up ==> clock == old(clock) && exists marked :: clientStore == Marked(old(clientStore), clock, marked)
      ensures (forall id :: saveOk(id)) ==> up
    {
      var clients, rows;
      up, clients, rows := LoadInitialClients(clientStore, keep, clock, saveOk);
      clientState, clientStore := clients, rows;
    }
  }

  /** Removing exactly the obsolete clients leaves exactly the others. */
  lemma ObsoleteRemoved(before: map<string, Client>, after: map<string, Client>, deleted: seq<Client>,
                        keep: Keep, now: int)
    requires forall id :: id in before ==> before[id].id == id
    requires forall c :: c in deleted <==> c.id in before && c == before[c.id] && c.Obsolete(keep, now)
    requires forall id :: id in after <==> id in before && !(exists j :: 0 <= j < |deleted| && deleted[j].id == id)
    requires forall id :: id in after ==> after[id] == before[id]
    ensures after == Repo(before, map[], now).Purged(keep).clients
  {
    forall id | id in before ensures id in after <==> !before[id].Obsolete(keep, now) {
      if before[id].Obsolete(keep, now) {
        assert before[id] in deleted;
      } else {
        assert forall j :: 0 <= j < |deleted| ==> deleted[j] in deleted;
      }
    }
  }

  /** LoadInitialClients over the rows that GetAll returns; `store` is the table afterwards. */
  method LoadInitialClients(before: map<string, Row>, keep: Keep, now: int, saveOk: string -> bool)
    returns (ok: bool, loaded: map<string, Client>, store: map<string, Row>)
    ensures ok ==> forall was :: Repo(loaded, store, now) == Repo(was, before, now).Restarted(keep)
    ensures !ok ==> exists marked :: store == Marked(before, now, marked)
    ensures (forall id :: saveOk(id)) ==> ok
  {
    store := before;
    loaded := Unexpired(before, keep, now);
    LoadStart(before, keep, now);
    var todo := loaded.Keys;
    while todo != {}
      invariant Loading(before, store, loaded, todo, keep, now)
      decreases todo
    {
      var id :| id in todo;
      LoadStopped(before, store, loaded, todo, keep, now);
      LoadOne(before, store, loaded, todo, keep, now, id);
      if loaded[id].Connected() {
        loaded := loaded[id := loaded[id].(disconnectedAt := Some(now))];
        if !saveOk(id) {
          return false, loaded, store;
        }
        store := store[id := loaded[id].ToRow()];
      }
      todo := todo - {id};
    }
    LoadDone(before, store, loaded, keep, now);
    return true, loaded, store;
  }

  /** The table after a start that failed half way: some rows are marked as disconnected. */
  ghost function Marked(rows: map<string, Row>, now: int, marked: set<string>): map<string, Row> {
    map id | id in rows :: if id in marked then rows[id].Down(now) else rows[id]
  }

  /** Some rows are loaded and marked, those in `todo` are still as they were. */
  ghost predicate Loading(before: map<string, Row>, store: map<string, Row>, loaded: map<string, Client>,
                          todo: set<string>, keep: Keep, now: int)
  {
    && todo <= loaded.Keys && store.Keys == before.Keys
    && (forall id :: id in loaded <==> id in before && !before[id].Expired(keep, now))
    && (forall id :: id in before ==>
                       store[id] == if id in loaded && id !in todo then before[id].Down(now) else before[id])
    && (forall id :: id in loaded ==>
                       loaded[id] == if id in todo then before[id].ToClient() else before[id].Down(now).ToClient())
  }

  /** What GetAll returns. */
  function Unexpired(rows: map<string, Row>, keep: Keep, now: int): map<string, Client> {
    map id | id in rows && !rows[id].Expired(keep, now) :: rows[id].ToClient()
  }

  lemma LoadStart(before: map<string, Row>, keep: Keep, now: int)
    ensures Loading(before, before, Unexpired(before, keep, now), Unexpired(before, keep, now).Keys, keep, now)
  {
  }

  lemma LoadStopped(before: map<string, Row>, store: map<string, Row>, loaded: map<string, Client>,
                    todo: set<string>, keep: Keep, now: int)
    requires Loading(before, store, loaded, todo, keep, now)
    ensures store == Marked(before, now, loaded.Keys - todo)
  {
  }

  lemma LoadOne(before: map<string, Row>, store: map<string, Row>, loaded: map<string, Client>,
                todo: set<string>, keep: Keep, now: int, id: string)
    requires Loading(before, store, loaded, todo, keep, now) && id in todo
    ensures var c := loaded[id].(disconnectedAt := Some(now));
            if loaded[id].Connected() then
              Loading(before, store[id := c.ToRow()], loaded[id := c], todo - {id}, keep, now)
            else Loading(before, store, loaded, todo - {id}, keep, now)
  {
    var c := loaded[id].(disconnectedAt := Some(now));
    assert loaded[id] == before[id].ToClient();
    if loaded[id].Connected() {
      assert c.ToRow() == before[id].Down(now);
    } else {
      assert before[id].Down(now) == before[id];
    }
  }

  lemma LoadDone(before: map<string, Row>, store: map<string, Row>, loaded: map<string, Client>, keep: Keep, now: int)
    requires Loading(before, store, loaded, {}, keep, now)
    ensures forall was :: Repo(loaded, store, now) == Repo(was, before, now).Restarted(keep)
  {
    forall was ensures Repo(loaded, store, now) == Repo(was, before, now).Restarted(keep) {
      var r := Repo(was, before, now).Restarted(keep);
      assert r.clients == loaded;
      assert r.store == store;
    }
  }
}
