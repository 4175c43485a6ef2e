/** Sessions of clients over the repository (server/clients/client_service.go), tag lookups
    (server/clients/cr.go), and what every run of these operations keeps. */
module Sessions {
  import opened Text
  import opened Repository

  /** What StartClient is called with. */
  datatype Connect = Connect(authID: string, id: string, session: string, multiuse: bool,
                             tags: seq<string>, details: string)

  /** What happens to an attempt that passes the checks: a policy or version error comes before the client
      record is filled in, tunnel and save errors come after. */
  datatype Fate = PolicyFails | TunnelsFail | SaveFails | Completes

  datatype Reply = AlreadyConnected | AuthIDInUse | Failed | Connected

  predicate Refused(s: Repo, keep: Keep, req: Connect) {
    var known := s.ByID(keep, req.id);
    known.Some? && known.value.Connected() && !(req.session != "" && req.session == known.value.session)
  }

  /** NewClientFromConnRequest: the record of a known client is filled in, or a new one is made. */
  function Started(req: Connect, known: Option<Client>): Client {
    Client(req.id, req.authID, None, req.tags, req.details, if known.Some? then known.value.kept else "", req.session)
  }

  /** StartClient on values. A known client is filled in place, so a later failure leaves the new record
      in memory. */
  function Start(s: Repo, keep: Keep, req: Connect, fate: Fate): (Repo, Reply) {
    var known := s.ByID(keep, req.id).Some?;
    if Refused(s, keep, req) then (s, AlreadyConnected)
    else if known && fate == PolicyFails then (s, Failed)
    else if !req.multiuse && s.AuthInUse(keep, req.authID, req.id) then (s, AuthIDInUse)
    else if fate == TunnelsFail || fate == SaveFails then
      (if known then s.(clients := s.clients[req.id := Started(req, s.ByID(keep, req.id))]) else s, Failed)
    else (s.Saved(Started(req, s.ByID(keep, req.id))), Connected)
  }

  /** Terminate for the record that the repository holds under `id`, filled in place as well. */
  function Terminated(s: Repo, keep: Keep, id: string, storeOk: bool): Repo {
    if keep == Some(0) then (if storeOk then s.Deleted(id) else s)
    else if id !in s.clients then s
    else
      var c := s.clients[id].(disconnectedAt := Some(s.now));
      if storeOk && c.id == id then s.Saved(c) else s.(clients := s.clients[id := c])
  }

  /** Terminate for a record that the repository no longer holds: a client that was deleted by force while
      its connection was open. If the id is known again, the old record replaces the new one. */
  function OrphanTerminated(s: Repo, keep: Keep, c: Client, storeOk: bool): Repo {
    if keep == Some(0) then (if storeOk then s.Deleted(c.id) else s)
    else if s.ByID(keep, c.id).Some? && storeOk then s.Saved(c.(disconnectedAt := Some(s.now)))
    else s
  }

  class ClientService {
    const repo: ClientRepository

    constructor (repo: ClientRepository)
      ensures this.repo == repo
    {
      this.repo := repo;
    }

    method StartClient(req: Connect, fate: Fate) returns (reply: Reply)
      requires repo.State().KeysAreIDs()
      modifies repo
      ensures (repo.State(), reply) == Start(old(repo.State()), repo.keep, req, fate)
      // a connected client is refused exactly when the request does not carry its session
      ensures reply == AlreadyConnected <==>
                && req.id in old(repo.clientState) && old(repo.clientState)[req.id].disconnectedAt.None?
                && (req.session == "" || req.session != old(repo.clientState)[req.id].session)
      // and a start fails for no other reason than these
      ensures reply == AuthIDInUse ==>
                && !req.multiuse
                && exists id :: && id in old(repo.clientState) && id != req.id
                                && old(repo.clientState)[id].authID == req.authID
                                && (repo.keep.None? || old(repo.clientState)[id].disconnectedAt.None? ||
                                    repo.clock - old(repo.clientState)[id].disconnectedAt.value <= repo.keep.value)
      ensures reply == Failed ==> fate != Completes
      ensures old(repo.State()).ByID(repo.keep, req.id).Some? && fate == PolicyFails && reply != AlreadyConnected ==>
                reply == Failed && repo.State() == old(repo.State())
      ensures reply == Connected ==>
                && req.id in repo.clientState && repo.clientState[req.id].ToRow() == repo.clientStore[req.id]
                && repo.clientState == old(repo.clientState)[req.id := repo.clientState[req.id]]
                && repo.clientStore == old(repo.clientStore)[req.id := repo.clientStore[req.id]]
    {
      var client := repo.GetByID(req.id);
      if client.Some? {
        var sessionReUsed := req.session != "" && req.session == client.value.session;
        if client.value.Connected() && !sessionReUsed {
          return AlreadyConnected;
        }
        if fate == PolicyFails {
          return Failed;
        }
      }
      if !req.multiuse {
        var inUse := repo.IsClientAuthIDInUse(req.authID, req.id);
        if inUse {
          return AuthIDInUse;
        }
      }
      var updated := Started(req, client);
      if client.Some? {
        // NewClientFromConnRequest writes into the record that the repository holds
        repo.clientState := repo.clientState[req.id := updated];
      }
      if fate == TunnelsFail {
        return Failed;
      }
      var saved := repo.Save(updated, fate != SaveFails);
      if !saved {
        return Failed;
      }
      assert client.Some? ==> repo.clientState == old(repo.clientState)[req.id := updated];
      return Connected;
    }

    /** Terminate; `held` tells whether the repository holds this very record. */
    method Terminate(client: Client, held: bool, storeOk: bool) returns (ok: bool)
      requires repo.State().KeysAreIDs()
      requires held ==> client.id in repo.clientState && repo.clientState[client.id] == client
      modifies repo
      ensures repo.State() == if held then Terminated(old(repo.State()), repo.keep, client.id, storeOk)
                              else OrphanTerminated(old(repo.State()), repo.keep, client, storeOk)
      ensures ok <==> storeOk || (&& repo.keep != Some(0) && !held
                                  && !old(repo.State()).IsAlive(repo.keep, client.id))
      ensures held && repo.keep != Some(0) ==>
                repo.clientState == old(repo.clientState)[client.id := client.(disconnectedAt := Some(repo.clock))]
      ensures held && repo.keep != Some(0) && ok ==>
                repo.clientStore == old(repo.clientStore)[client.id := repo.clientState[client.id].ToRow()]
      ensures repo.keep == Some(0) && ok ==>
                repo.clientState == old(repo.clientState) - {client.id} &&
                repo.clientStore == old(repo.clientStore) - {client.id}
    {
      if repo.keep == Some(0) {
        ok := repo.Delete(client.id, storeOk);
        return;
      }
      var down := client.(disconnectedAt := Some(repo.clock));
      if held {
        repo.clientState := repo.clientState[client.id := down];
      }
      var existing := repo.GetByID(client.id);
      if existing.None? {
        return true;
      }
      ok := repo.Save(down, storeOk);
      assert ok ==> repo.clientState == old(repo.clientState)[client.id := down];
    }

    /** DeleteOffline */
    method DeleteOffline(id: string, storeOk: bool) returns (ok: bool)
      modifies repo
      ensures ok <==> storeOk && old(repo.State()).IsAlive(repo.keep, id) && !old(repo.State()).clients[id].Connected()
      ensures repo.State() == if ok then old(repo.State()).Deleted(id) else old(repo.State())
      ensures ok ==> repo.clientState == old(repo.clientState) - {id}
      ensures ok ==> repo.clientStore == old(repo.clientStore) - {id}
      ensures ok ==> id in old(repo.clientState) && old(repo.clientState)[id].disconnectedAt.Some?
    {
      var existing := repo.GetByID(id);
      if existing.None? || existing.value.Connected() {
        return false;
      }
      ok := repo.Delete(id, storeOk);
    }
  }

  // ----- tag lookups -----

  predicate HasAll(c: Client, tags: seq<string>) {
    forall t :: t in tags ==> t in c.tags
  }

  predicate HasOne(c: Client, tags: seq<string>) {
    exists t :: t in tags && t in c.tags
  }

  /** findMatchingANDClients */
  method FindMatchingAND(available: seq<Client>, tags: seq<string>) returns (matching: seq<Client>)
    ensures forall c :: c in matching <==> c in available && forall t :: t in tags ==> t in c.tags
  {
    matching := [];
    for i := 0 to |available|
      invariant forall c :: c in matching <==> c in available[..i] && HasAll(c, tags)
    {
      var foundAllTags := true;
      for j := 0 to |tags|
        invariant foundAllTags <==> forall t :: t in tags[..j] ==> t in available[i].tags
      {
        if tags[j] !in available[i].tags {
          foundAllTags := false;
          assert tags[j] in tags;
          break;
        }
      }
      if foundAllTags {
        assert HasAll(available[i], tags) by { assert tags[..|tags|] == tags; }
        matching := matching + [available[i]];
      }
    }
    assert available[..|available|] == available;
  }

  /** findMatchingORClients */
  method FindMatchingOR(available: seq<Client>, tags: seq<string>) returns (matching: seq<Client>)
    ensures forall c :: c in matching <==> c in available && exists t :: t in tags && t in c.tags
  {
    matching := [];
    for i := 0 to |available|
      invariant forall c :: c in matching <==> c in available[..i] && HasOne(c, tags)
    {
      var found := false;
      var own := available[i].tags;
      for j := 0 to |own|
        invariant !found && forall t :: t in own[..j] ==> t !in tags
      {
        if own[j] in tags {
          assert HasOne(available[i], tags);
          found := true;
          break;
        }
      }
      assert !found ==> own[..|own|] == own;
      if found {
        matching := matching + [available[i]];
      }
    }
    assert available[..|available|] == available;
  }

  /** GetClientsByTag, as a set. */
  function ByTag(s: Repo, keep: Keep, tags: seq<string>, all: bool, disconnectedToo: bool): set<Client> {
    set c | c in (if disconnectedToo then s.Alive(keep) else s.Active()) &&
            (if all then HasAll(c, tags) else HasOne(c, tags))
  }

  function ByAuthID(s: Repo, keep: Keep, authID: string): set<Client> {
    set c | c in s.Alive(keep) && c.authID == authID
  }

  function CountDisconnected(s: Repo, keep: Keep): nat {
    |set c | c in s.Alive(keep) && !c.Connected()|
  }

  // ----- purging is invisible -----

  lemma PurgeKeepsSets(s: Repo, keep: Keep)
    ensures s.Purged(keep).Alive(keep) == s.Alive(keep)
    ensures s.Purged(keep).Active() == s.Active()
  {
    var p := s.Purged(keep);
    forall id | id in s.clients && (!s.clients[id].Obsolete(keep, s.now) || s.clients[id].Connected())
      ensures id in p.clients && p.clients[id] == s.clients[id]
    {
      assert s.IsAlive(keep, id);
    }
    assert forall id :: id in p.clients ==> id in s.clients && p.clients[id] == s.clients[id];
  }

  /** Every lookup and count answers the same before and after DeleteObsolete, whatever the repository
      holds. */
  lemma PurgeIsInvisible(s: Repo, keep: Keep)
    ensures var p := s.Purged(keep);
            && (forall id :: p.ByID(keep, id) == s.ByID(keep, id))
            && (forall id :: p.ActiveByID(id) == s.ActiveByID(id))
            && |p.Alive(keep)| == |s.Alive(keep)| && |p.Active()| == |s.Active()|
            && CountDisconnected(p, keep) == CountDisconnected(s, keep)
            && (forall authID :: ByAuthID(p, keep, authID) == ByAuthID(s, keep, authID))
            && (forall tags, all, dis :: ByTag(p, keep, tags, all, dis) == ByTag(s, keep, tags, all, dis))
            && (forall authID, id :: p.AuthInUse(keep, authID, id) == s.AuthInUse(keep, authID, id))
  {
    var p := s.Purged(keep);
    PurgeKeepsSets(s, keep);
    forall id ensures p.IsAlive(keep, id) == s.IsAlive(keep, id) {
    }
    forall id ensures p.ActiveByID(id) == s.ActiveByID(id) {
      assert id in s.clients && s.clients[id].Connected() ==> s.IsAlive(keep, id);
    }
    forall authID, id ensures p.AuthInUse(keep, authID, id) == s.AuthInUse(keep, authID, id) {
      SameUse(p, s, keep, authID, id);
      SameUse(s, p, keep, authID, id);
    }
  }

  lemma SameUse(p: Repo, s: Repo, keep: Keep, authID: string, id: string)
    requires forall x :: p.IsAlive(keep, x) ==> s.IsAlive(keep, x) && s.clients[x] == p.clients[x]
    ensures p.AuthInUse(keep, authID, id) ==> s.AuthInUse(keep, authID, id)
  {
    if p.AuthInUse(keep, authID, id) {
      var other :| other in p.clients && p.IsAlive(keep, other) && p.clients[other].authID == authID && other != id;
      assert s.IsAlive(keep, other);
    }
  }

  // ----- runs -----

  datatype Op =
    | SaveClient(c: Client, storeOk: bool)
    | DeleteClient(id: string, storeOk: bool)
    | Purge(storeOk: bool)
    | Restart
    | FailedRestart(marked: set<string>)
    | Tick(elapsed: nat)
    | StartClient(req: Connect, fate: Fate)
    | Terminate(id: string, storeOk: bool)
    | TerminateOrphan(c: Client, storeOk: bool)
    | Heartbeat(id: string)

  ghost function Step(s: Repo, keep: Keep, op: Op): Repo {
    match op
    case SaveClient(c, storeOk) => if storeOk then s.Saved(c) else s
    case DeleteClient(id, storeOk) => if storeOk then s.Deleted(id) else s
    case Purge(storeOk) => if storeOk then s.Purged(keep) else s
    case Restart => s.Restarted(keep)
    case FailedRestart(marked) => Repo(map[], Marked(s.store, s.now, marked), s.now)
    case Tick(elapsed) => s.(now := s.now + elapsed)
    case StartClient(req, fate) => Start(s, keep, req, fate).0
    case Terminate(id, storeOk) => Terminated(s, keep, id, storeOk)
    case TerminateOrphan(c, storeOk) => OrphanTerminated(s, keep, c, storeOk)
    case Heartbeat(id) =>
      // SetLastHeartbeat marks a known client as connected, in memory only
      if s.IsAlive(keep, id) then s.(clients := s.clients[id := s.clients[id].(disconnectedAt := None)]) else s
  }

  ghost function Run(keep: Keep, now: int, ops: seq<Op>): Repo {
    if ops == [] then Repo(map[], map[], now)
    else Step(Run(keep, now, ops[..|ops| - 1]), keep, ops[|ops| - 1])
  }

  lemma StepKeepsKeys(s: Repo, keep: Keep, op: Op)
    requires s.KeysAreIDs()
    ensures Step(s, keep, op).KeysAreIDs()
  {
  }

  lemma RunPrefix(keep: Keep, now: int, ops: seq<Op>, k: nat)
    requires k < |ops|
    ensures Run(keep, now, ops[..k + 1]) == Step(Run(keep, now, ops[..k]), keep, ops[k])
  {
    assert ops[..k + 1][..k] == ops[..k];
  }

  lemma {:induction false} RunKeepsKeys(keep: Keep, now: int, ops: seq<Op>)
    ensures Run(keep, now, ops).KeysAreIDs()
    decreases |ops|
  {
    if ops == [] {
    } else {
      RunKeepsKeys(keep, now, ops[..|ops| - 1]);
      StepKeepsKeys(Run(keep, now, ops[..|ops| - 1]), keep, ops[|ops| - 1]);
    }
  }

  // ----- memory and store -----

  /** The server is up after these operations. */
  predicate IsUp(ops: seq<Op>) {
    ops == [] || ops[|ops| - 1].Restart? || (!ops[|ops| - 1].FailedRestart? && IsUp(ops[..|ops| - 1]))
  }

  /** The record that an operation writes in memory and not in the store. */
  function MemoryOnly(s: Repo, keep: Keep, op: Op): Option<Client> {
    match op
    case StartClient(req, fate) =>
      if && (fate == TunnelsFail || fate == SaveFails) && s.ByID(keep, req.id).Some? && !Refused(s, keep, req)
         && (req.multiuse || !s.AuthInUse(keep, req.authID, req.id))
      then Some(Started(req, s.ByID(keep, req.id))) else None
    case Terminate(id, storeOk) =>
      if !storeOk && keep != Some(0) && id in s.clients then Some(s.clients[id].(disconnectedAt := Some(s.now)))
      else None
    case Heartbeat(id) =>
      if s.IsAlive(keep, id) then Some(s.clients[id].(disconnectedAt := None)) else None
    case _ => None
  }

  /** The operation writes a record in memory alone that the store does not already have: a start of a known
      client that fails late, a termination that cannot be saved, a heartbeat of a disconnected client. */
  predicate LeavesApart(s: Repo, keep: Keep, op: Op) {
    var m := MemoryOnly(s, keep, op);
    m.Some? && !(m.value.id in s.store && s.store[m.value.id] == m.value.ToRow())
  }

  lemma SavedAgrees(s: Repo, keep: Keep, c: Client)
    requires s.Agree(keep)
    ensures s.Saved(c).Agree(keep)
  {
    var t := s.Saved(c);
    forall id ensures t.IsAlive(keep, id) <==> t.IsAliveRow(keep, id) {
      if id != c.id {
        assert t.IsAlive(keep, id) == s.IsAlive(keep, id) && t.IsAliveRow(keep, id) == s.IsAliveRow(keep, id);
      }
    }
    assert forall id :: id != c.id && t.IsAlive(keep, id) ==> s.IsAlive(keep, id);
  }

  lemma DeletedAgrees(s: Repo, keep: Keep, id: string)
    requires s.Agree(keep)
    ensures s.Deleted(id).Agree(keep)
  {
    var t := s.Deleted(id);
    forall x ensures t.IsAlive(keep, x) == (x != id && s.IsAlive(keep, x)) {
    }
    forall x ensures t.IsAliveRow(keep, x) == (x != id && s.IsAliveRow(keep, x)) {
    }
  }

  lemma PurgedAgrees(s: Repo, keep: Keep)
    requires s.Agree(keep)
    ensures s.Purged(keep).Agree(keep)
  {
    var t := s.Purged(keep);
    forall id ensures t.IsAlive(keep, id) == s.IsAlive(keep, id) {
    }
    forall id ensures t.IsAliveRow(keep, id) == s.IsAliveRow(keep, id) {
      if id in s.store {
        ExpiredIsObsolete(s.store[id], keep, s.now);
      }
    }
  }

  lemma RestartedAgrees(s: Repo, keep: Keep)
    ensures s.Restarted(keep).Agree(keep)
    ensures s.Restarted(keep).Active() == {}
  {
    var t := s.Restarted(keep);
    forall id ensures t.IsAlive(keep, id) <==> t.IsAliveRow(keep, id) {
      if id in s.store {
        ExpiredIsObsolete(s.store[id], keep, s.now);
      }
    }
  }

  lemma LaterAgrees(s: Repo, keep: Keep, elapsed: nat)
    requires s.Agree(keep)
    ensures s.(now := s.now + elapsed).Agree(keep)
  {
    var t := s.(now := s.now + elapsed);
    forall id
      ensures (t.IsAlive(keep, id) ==> s.IsAlive(keep, id)) && (t.IsAliveRow(keep, id) ==> s.IsAliveRow(keep, id))
    {
    }
  }

  /** Writing a live record in memory alone keeps the agreement exactly when the store has it already. */
  lemma MemoryOnlyAgrees(s: Repo, keep: Keep, c: Client)
    requires s.Agree(keep) && !c.Obsolete(keep, s.now)
    ensures s.(clients := s.clients[c.id := c]).Agree(keep) <==> c.id in s.store && s.store[c.id] == c.ToRow()
  {
    var t := s.(clients := s.clients[c.id := c]);
    assert t.IsAlive(keep, c.id);
    forall id | id != c.id ensures t.IsAlive(keep, id) == s.IsAlive(keep, id) {
    }
    forall id ensures t.IsAliveRow(keep, id) == s.IsAliveRow(keep, id) {
    }
  }

  lemma MemoryOnlyIsStep(s: Repo, keep: Keep, op: Op, c: Client)
    requires s.KeysAreIDs() && MemoryOnly(s, keep, op) == Some(c)
    ensures Step(s, keep, op) == s.(clients := s.clients[c.id := c]) && !c.Obsolete(keep, s.now)
  {
  }

  lemma OtherStepAgrees(s: Repo, keep: Keep, op: Op)
    requires s.Agree(keep) && s.KeysAreIDs() && !op.FailedRestart? && MemoryOnly(s, keep, op).None?
    ensures Step(s, keep, op).Agree(keep)
  {
    match op
    case SaveClient(c, _) => SavedAgrees(s, keep, c);
    case DeleteClient(id, _) => DeletedAgrees(s, keep, id);
    case Purge(_) => PurgedAgrees(s, keep);
    case Restart => RestartedAgrees(s, keep);
    case Tick(elapsed) => LaterAgrees(s, keep, elapsed);
    case StartClient(req, _) => SavedAgrees(s, keep, Started(req, s.ByID(keep, req.id)));
    case Terminate(id, _) =>
      DeletedAgrees(s, keep, id);
      if id in s.clients {
        SavedAgrees(s, keep, s.clients[id].(disconnectedAt := Some(s.now)));
      }
    case TerminateOrphan(c, _) =>
      DeletedAgrees(s, keep, c.id);
      SavedAgrees(s, keep, c.(disconnectedAt := Some(s.now)));
    case Heartbeat(_) =>
  }

  /** An operation keeps memory and store in agreement exactly when it does not leave them apart. */
  lemma StepAgrees(s: Repo, keep: Keep, op: Op)
    requires s.Agree(keep) && s.KeysAreIDs() && !op.FailedRestart?
    ensures Step(s, keep, op).Agree(keep) <==> !LeavesApart(s, keep, op)
  {
    var m := MemoryOnly(s, keep, op);
    if m.Some? {
      MemoryOnlyIsStep(s, keep, op, m.value);
      MemoryOnlyAgrees(s, keep, m.value);
    } else {
      OtherStepAgrees(s, keep, op);
    }
  }

  /** A server that failed to start can only be started again. */
  ghost predicate Orderly(ops: seq<Op>) {
    forall k :: 0 <= k < |ops| && !IsUp(ops[..k]) ==> ops[k].Restart? || ops[k].FailedRestart? || ops[k].Tick?
  }

  /** Memory and store have the same non-obsolete clients after `k` operations, if the server is up. */
  ghost predicate AgreesAt(keep: Keep, now: int, ops: seq<Op>, k: nat)
    requires k <= |ops|
  {
    IsUp(ops[..k]) ==> Run(keep, now, ops[..k]).Agree(keep)
  }

  ghost predicate ApartAt(keep: Keep, now: int, ops: seq<Op>, k: nat)
    requires k < |ops|
  {
    LeavesApart(Run(keep, now, ops[..k]), keep, ops[k])
  }

  lemma OneMoreAgrees(keep: Keep, now: int, ops: seq<Op>, k: nat)
    requires Orderly(ops) && k < |ops| && AgreesAt(keep, now, ops, k)
    ensures AgreesAt(keep, now, ops, k + 1) <==> !ApartAt(keep, now, ops, k)
  {
    var s := Run(keep, now, ops[..k]);
    RunPrefix(keep, now, ops, k);
    RunKeepsKeys(keep, now, ops[..k]);
    assert ops[..k + 1][..k] == ops[..k];
    RestartedAgrees(s, keep);
    if IsUp(ops[..k]) && !ops[k].FailedRestart? {
      StepAgrees(s, keep, ops[k]);
    }
  }

  lemma {:induction false} NeverApartAgrees(keep: Keep, now: int, ops: seq<Op>, k: nat)
    requires Orderly(ops) && k <= |ops| && forall j :: 0 <= j < k ==> !ApartAt(keep, now, ops, j)
    ensures AgreesAt(keep, now, ops, k)
    decreases k
  {
    if k == 0 {
    } else {
      NeverApartAgrees(keep, now, ops, k - 1);
      OneMoreAgrees(keep, now, ops, k - 1);
    }
  }

  /** Over every run, with store calls failing at will and at any clock: memory and store have the same
      non-obsolete clients all the time if and only if no operation leaves them apart. Operations of the
      repository alone never do. */
  lemma MemoryAgreesWithStore(keep: Keep, now: int, ops: seq<Op>)
    requires Orderly(ops)
    ensures (forall k :: 0 <= k <= |ops| ==> AgreesAt(keep, now, ops, k)) <==>
            (forall k :: 0 <= k < |ops| ==> !ApartAt(keep, now, ops, k))
  {
    if forall k :: 0 <= k <= |ops| ==> AgreesAt(keep, now, ops, k) {
      forall k | 0 <= k < |ops| ensures !ApartAt(keep, now, ops, k) {
        assert AgreesAt(keep, now, ops, k + 1);
        OneMoreAgrees(keep, now, ops, k);
      }
    } else if forall k :: 0 <= k < |ops| ==> !ApartAt(keep, now, ops, k) {
      forall k | 0 <= k <= |ops| ensures AgreesAt(keep, now, ops, k) {
        NeverApartAgrees(keep, now, ops, k);
      }
    }
  }

  // ----- one client per auth id, in the store -----

  /** The row that an operation writes. */
  function WrittenRow(s: Repo, keep: Keep, op: Op): Option<Row> {
    match op
    case SaveClient(c, storeOk) => if storeOk then Some(c.ToRow()) else None
    case StartClient(req, fate) =>
      if Start(s, keep, req, fate).1 == Reply.Connected then Some(Started(req, s.ByID(keep, req.id)).ToRow()) else None
    case Terminate(id, storeOk) =>
      if storeOk && keep != Some(0) && id in s.clients then
        Some(s.clients[id].(disconnectedAt := Some(s.now)).ToRow())
      else None
    case TerminateOrphan(c, storeOk) =>
      if storeOk && keep != Some(0) && s.ByID(keep, c.id).Some? then
        Some(c.(disconnectedAt := Some(s.now)).ToRow())
      else None
    case _ => None
  }

  /** Another non-obsolete row has this auth id. */
  predicate RowInUse(s: Repo, keep: Keep, authID: string, id: string) {
    exists other :: other in s.store && s.IsAliveRow(keep, other) && s.store[other].authID == authID && other != id
  }

  /** The operation writes a non-obsolete row with the auth id of another one. */
  predicate Clashes(s: Repo, keep: Keep, op: Op) {
    var r := WrittenRow(s, keep, op);
    r.Some? && !r.value.Obsolete(keep, s.now) && RowInUse(s, keep, r.value.authID, r.value.id)
  }

  lemma WrittenIsUnique(s: Repo, t: Repo, keep: Keep, r: Row)
    requires s.UniqueRows(keep) && t.store == s.store[r.id := r] && t.now == s.now
    ensures t.UniqueRows(keep) <==> r.Obsolete(keep, s.now) || !RowInUse(s, keep, r.authID, r.id)
  {
    forall x | x != r.id ensures t.IsAliveRow(keep, x) == s.IsAliveRow(keep, x) {
    }
    assert t.IsAliveRow(keep, r.id) <==> !r.Obsolete(keep, s.now);
    if !r.Obsolete(keep, s.now) && RowInUse(s, keep, r.authID, r.id) {
      var other :| other in s.store && s.IsAliveRow(keep, other) && s.store[other].authID == r.authID && other != r.id;
      assert t.IsAliveRow(keep, other) && t.store[other].authID == t.store[r.id].authID;
    }
  }

  lemma FewerRowsAreUnique(s: Repo, t: Repo, keep: Keep)
    requires s.UniqueRows(keep)
    requires forall x :: t.IsAliveRow(keep, x) ==> s.IsAliveRow(keep, x) && t.store[x].authID == s.store[x].authID
    ensures t.UniqueRows(keep)
  {
  }

  lemma WrittenIsStep(s: Repo, keep: Keep, op: Op, r: Row)
    requires s.KeysAreIDs() && WrittenRow(s, keep, op) == Some(r)
    ensures Step(s, keep, op).store == s.store[r.id := r] && Step(s, keep, op).now == s.now
  {
  }

  lemma OtherStepRows(s: Repo, keep: Keep, op: Op, x: string)
    requires s.KeysAreIDs() && WrittenRow(s, keep, op).None? && Step(s, keep, op).IsAliveRow(keep, x)
    ensures s.IsAliveRow(keep, x) && Step(s, keep, op).store[x].authID == s.store[x].authID
  {
  }

  /** An operation keeps the auth ids of the rows unique exactly when it does not write one in use. */
  lemma StepKeepsRows(s: Repo, keep: Keep, op: Op)
    requires s.UniqueRows(keep) && s.KeysAreIDs()
    ensures Step(s, keep, op).UniqueRows(keep) <==> !Clashes(s, keep, op)
  {
    var r, t := WrittenRow(s, keep, op), Step(s, keep, op);
    if r.Some? {
      WrittenIsStep(s, keep, op, r.value);
      WrittenIsUnique(s, t, keep, r.value);
    } else {
      forall x | t.IsAliveRow(keep, x) ensures s.IsAliveRow(keep, x) && t.store[x].authID == s.store[x].authID {
        OtherStepRows(s, keep, op, x);
      }
      FewerRowsAreUnique(s, t, keep);
    }
  }

  /** A start that succeeds keeps the rows unique exactly when no other live row has the auth id, whatever
      the check in memory said. */
  lemma StartKeepsRows(s: Repo, keep: Keep, req: Connect, fate: Fate)
    requires s.UniqueRows(keep) && Start(s, keep, req, fate).1 == Reply.Connected
    ensures Start(s, keep, req, fate).0.UniqueRows(keep) <==> !RowInUse(s, keep, req.authID, req.id)
  {
    WrittenIsUnique(s, Start(s, keep, req, fate).0, keep, Started(req, s.ByID(keep, req.id)).ToRow());
  }

  ghost predicate RowsAt(keep: Keep, now: int, ops: seq<Op>, k: nat)
    requires k <= |ops|
  {
    Run(keep, now, ops[..k]).UniqueRows(keep)
  }

  ghost predicate ClashAt(keep: Keep, now: int, ops: seq<Op>, k: nat)
    requires k < |ops|
  {
    Clashes(Run(keep, now, ops[..k]), keep, ops[k])
  }

  lemma {:induction false} NoClashKeepsRows(keep: Keep, now: int, ops: seq<Op>, k: nat)
    requires k <= |ops| && forall j :: 0 <= j < k ==> !ClashAt(keep, now, ops, j)
    ensures RowsAt(keep, now, ops, k)
    decreases k
  {
    if k == 0 {
    } else {
      NoClashKeepsRows(keep, now, ops, k - 1);
      OneMoreRow(keep, now, ops, k - 1);
    }
  }

  lemma OneMoreRow(keep: Keep, now: int, ops: seq<Op>, k: nat)
    requires k < |ops| && RowsAt(keep, now, ops, k)
    ensures RowsAt(keep, now, ops, k + 1) <==> !ClashAt(keep, now, ops, k)
  {
    RunPrefix(keep, now, ops, k);
    RunKeepsKeys(keep, now, ops[..k]);
    StepKeepsRows(Run(keep, now, ops[..k]), keep, ops[k]);
  }

  /** Over every run at all, failed saves and restarts included: the non-obsolete rows have different auth
      ids all the time if and only if no operation writes an auth id that another live row has. */
  lemma RowsStayUnique(keep: Keep, now: int, ops: seq<Op>)
    ensures (forall k :: 0 <= k <= |ops| ==> RowsAt(keep, now, ops, k)) <==>
            (forall k :: 0 <= k < |ops| ==> !ClashAt(keep, now, ops, k))
  {
    if forall k :: 0 <= k <= |ops| ==> RowsAt(keep, now, ops, k) {
      forall k | 0 <= k < |ops| ensures !ClashAt(keep, now, ops, k) {
        assert RowsAt(keep, now, ops, k + 1);
        OneMoreRow(keep, now, ops, k);
      }
    } else if forall k :: 0 <= k < |ops| ==> !ClashAt(keep, now, ops, k) {
      forall k | 0 <= k <= |ops| ensures RowsAt(keep, now, ops, k) {
        NoClashKeepsRows(keep, now, ops, k);
      }
    }
  }

  // ----- one client per auth id, in memory -----

  /** The record that an operation puts in memory. */
  function WrittenRecord(s: Repo, keep: Keep, op: Op): Option<Client> {
    match op
    case SaveClient(c, storeOk) => if storeOk then Some(c) else None
    case StartClient(req, fate) =>
      if Start(s, keep, req, fate).1 == Reply.Connected || MemoryOnly(s, keep, op).Some? then
        Some(Started(req, s.ByID(keep, req.id)))
      else None
    case Terminate(id, storeOk) =>
      if keep != Some(0) && id in s.clients then Some(s.clients[id].(disconnectedAt := Some(s.now))) else None
    case TerminateOrphan(c, storeOk) =>
      if storeOk && keep != Some(0) && s.ByID(keep, c.id).Some? then Some(c.(disconnectedAt := Some(s.now)))
      else None
    case Heartbeat(id) =>
      if s.IsAlive(keep, id) then Some(s.clients[id].(disconnectedAt := None)) else None
    case _ => None
  }

  /** The operation puts a non-obsolete record in memory with the auth id of another client. */
  predicate MemClash(s: Repo, keep: Keep, op: Op) {
    var c := WrittenRecord(s, keep, op);
    c.Some? && !c.value.Obsolete(keep, s.now) && s.AuthInUse(keep, c.value.authID, c.value.id)
  }

  /** A restart puts the rows in memory; every other operation at most one record. */
  ghost predicate Spoils(s: Repo, keep: Keep, op: Op) {
    if op.Restart? then !s.UniqueRows(keep) else MemClash(s, keep, op)
  }

  lemma WrittenRecordIsStep(s: Repo, keep: Keep, op: Op, c: Client)
    requires s.KeysAreIDs() && WrittenRecord(s, keep, op) == Some(c)
    ensures Step(s, keep, op).clients == s.clients[c.id := c] && Step(s, keep, op).now == s.now
  {
  }

  lemma OtherStepRecords(s: Repo, keep: Keep, op: Op, x: string)
    requires s.KeysAreIDs() && WrittenRecord(s, keep, op).None? && !op.Restart? && Step(s, keep, op).IsAlive(keep, x)
    ensures s.IsAlive(keep, x) && Step(s, keep, op).clients[x].authID == s.clients[x].authID
  {
  }

  lemma RecordIsUnique(s: Repo, t: Repo, keep: Keep, c: Client)
    requires s.UniqueAuth(keep) && t.clients == s.clients[c.id := c] && t.now == s.now
    ensures t.UniqueAuth(keep) <==> c.Obsolete(keep, s.now) || !s.AuthInUse(keep, c.authID, c.id)
  {
    forall x | x != c.id ensures t.IsAlive(keep, x) == s.IsAlive(keep, x) {
    }
    assert t.IsAlive(keep, c.id) <==> !c.Obsolete(keep, s.now);
    if !c.Obsolete(keep, s.now) && s.AuthInUse(keep, c.authID, c.id) {
      var other :| other in s.clients && s.IsAlive(keep, other) && s.clients[other].authID == c.authID && other != c.id;
      assert t.IsAlive(keep, other) && t.clients[other].authID == t.clients[c.id].authID;
    }
  }

  lemma FewerRecordsAreUnique(s: Repo, t: Repo, keep: Keep)
    requires s.UniqueAuth(keep)
    requires forall x :: t.IsAlive(keep, x) ==> s.IsAlive(keep, x) && t.clients[x].authID == s.clients[x].authID
    ensures t.UniqueAuth(keep)
  {
  }

  /** A restart brings up clients with different auth ids exactly when the live rows have them. */
  lemma RestartIsUniqueIffRows(s: Repo, keep: Keep)
    ensures s.Restarted(keep).UniqueAuth(keep) <==> s.UniqueRows(keep)
  {
    var t := s.Restarted(keep);
    forall id
      ensures t.IsAlive(keep, id) <==> s.IsAliveRow(keep, id)
      ensures s.IsAliveRow(keep, id) ==> t.clients[id].authID == s.store[id].authID
    {
      if id in s.store {
        ExpiredIsObsolete(s.store[id], keep, s.now);
      }
    }
    SameAuthIDs(s, t, keep);
  }

  lemma SameAuthIDs(s: Repo, t: Repo, keep: Keep)
    requires forall id :: t.IsAlive(keep, id) <==> s.IsAliveRow(keep, id)
    requires forall id :: t.IsAlive(keep, id) && s.IsAliveRow(keep, id) ==> t.clients[id].authID == s.store[id].authID
    ensures t.UniqueAuth(keep) <==> s.UniqueRows(keep)
  {
  }

  /** An operation, whichever it is, keeps the clients' auth ids unique exactly when it does not spoil them. */
  lemma StepKeepsUnique(s: Repo, keep: Keep, op: Op)
    requires s.UniqueAuth(keep) && s.KeysAreIDs()
    ensures Step(s, keep, op).UniqueAuth(keep) <==> !Spoils(s, keep, op)
  {
    var c, t := WrittenRecord(s, keep, op), Step(s, keep, op);
    if op.Restart? {
      RestartIsUniqueIffRows(s, keep);
    } else if c.Some? {
      WrittenRecordIsStep(s, keep, op, c.value);
      RecordIsUnique(s, t, keep, c.value);
    } else {
      forall x | t.IsAlive(keep, x) ensures s.IsAlive(keep, x) && t.clients[x].authID == s.clients[x].authID {
        OtherStepRecords(s, keep, op, x);
      }
      FewerRecordsAreUnique(s, t, keep);
    }
  }

  ghost predicate UniqueAt(keep: Keep, now: int, ops: seq<Op>, k: nat)
    requires k <= |ops|
  {
    Run(keep, now, ops[..k]).UniqueAuth(keep)
  }

  ghost predicate SpoilsAt(keep: Keep, now: int, ops: seq<Op>, k: nat)
    requires k < |ops|
  {
    Spoils(Run(keep, now, ops[..k]), keep, ops[k])
  }

  lemma OneMoreUnique(keep: Keep, now: int, ops: seq<Op>, k: nat)
    requires k < |ops| && UniqueAt(keep, now, ops, k)
    ensures UniqueAt(keep, now, ops, k + 1) <==> !SpoilsAt(keep, now, ops, k)
  {
    RunPrefix(keep, now, ops, k);
    RunKeepsKeys(keep, now, ops[..k]);
    StepKeepsUnique(Run(keep, now, ops[..k]), keep, ops[k]);
  }

  lemma {:induction false} NeverSpoiledIsUnique(keep: Keep, now: int, ops: seq<Op>, k: nat)
    requires k <= |ops| && forall j :: 0 <= j < k ==> !SpoilsAt(keep, now, ops, j)
    ensures UniqueAt(keep, now, ops, k)
    decreases k
  {
    if k == 0 {
    } else {
      NeverSpoiledIsUnique(keep, now, ops, k - 1);
      OneMoreUnique(keep, now, ops, k - 1);
    }
  }

  /** Over every run at all, with restarts, failed saves, multi-use credentials and records that outlive a
      forced deletion: non-obsolete clients have different auth ids all the time if and only if no operation
      puts one in memory that another client has, and the live rows have different ones at each restart. */
  lemma ClientsStayUnique(keep: Keep, now: int, ops: seq<Op>)
    ensures (forall k :: 0 <= k <= |ops| ==> UniqueAt(keep, now, ops, k)) <==>
            (forall k :: 0 <= k < |ops| ==> !SpoilsAt(keep, now, ops, k))
  {
    if forall k :: 0 <= k <= |ops| ==> UniqueAt(keep, now, ops, k) {
      forall k | 0 <= k < |ops| ensures !SpoilsAt(keep, now, ops, k) {
        assert UniqueAt(keep, now, ops, k + 1);
        OneMoreUnique(keep, now, ops, k);
      }
    } else if forall k :: 0 <= k < |ops| ==> !SpoilsAt(keep, now, ops, k) {
      forall k | 0 <= k <= |ops| ensures UniqueAt(keep, now, ops, k) {
        NeverSpoiledIsUnique(keep, now, ops, k);
      }
    }
  }

  // ----- a session lasts -----

  /** What a successful start writes, and what it needs: the fields of the request, and of the rest what a known
      client had. */
  lemma StartedMeans(s: Repo, keep: Keep, req: Connect, fate: Fate)
    requires Start(s, keep, req, fate).1 == Reply.Connected
    ensures var t := Start(s, keep, req, fate).0;
            && req.id in t.clients
            && t.clients[req.id].id == req.id && t.clients[req.id].authID == req.authID
            && t.clients[req.id].disconnectedAt.None? && t.clients[req.id].tags == req.tags
            && t.clients[req.id].details == req.details && t.clients[req.id].session == req.session
            && (s.ByID(keep, req.id).Some? ==> t.clients[req.id].kept == s.clients[req.id].kept)
    ensures !req.multiuse ==>
              forall other :: other in s.clients && other != req.id && s.clients[other].authID == req.authID ==>
                                && keep.Some? && s.clients[other].disconnectedAt.Some?
                                && s.now - s.clients[other].disconnectedAt.value > keep.value
  {
    if !req.multiuse {
      forall other | other in s.clients && other != req.id && s.clients[other].authID == req.authID
        ensures s.clients[other].Obsolete(keep, s.now)
      {
        assert !s.AuthInUse(keep, req.authID, req.id);
      }
    }
  }

  /** The operation ends the session of `id` or replaces its record from outside. */
  predicate EndsSession(op: Op, id: string) {
    || (op.Terminate? && op.id == id) || (op.TerminateOrphan? && op.c.id == id)
    || (op.DeleteClient? && op.id == id) || (op.SaveClient? && op.c.id == id) || op.Restart? || op.FailedRestart?
  }

  lemma StepKeepsSession(s: Repo, keep: Keep, op: Op, id: string)
    requires id in s.clients && s.clients[id].disconnectedAt.None? && !EndsSession(op, id)
    ensures var t := Step(s, keep, op);
            id in t.clients && t.clients[id].disconnectedAt.None? && t.clients[id].session == s.clients[id].session
  {
    assert s.IsAlive(keep, id);
  }

  /** Over every run: a connected client stays connected with its session until it is terminated, deleted, saved
      from outside or the server restarts. No other start can take its place. */
  lemma {:induction false} SessionLasts(keep: Keep, now: int, ops: seq<Op>, i: nat, j: nat, id: string)
    requires i <= j <= |ops| && id in Run(keep, now, ops[..i]).clients
    requires Run(keep, now, ops[..i]).clients[id].disconnectedAt.None?
    requires forall k :: i <= k < j ==>
                           && !(ops[k].Terminate? && ops[k].id == id) && !(ops[k].TerminateOrphan? && ops[k].c.id == id)
                           && !(ops[k].DeleteClient? && ops[k].id == id) && !(ops[k].SaveClient? && ops[k].c.id == id)
                           && !ops[k].Restart? && !ops[k].FailedRestart?
    ensures var s, t := Run(keep, now, ops[..i]), Run(keep, now, ops[..j]);
            id in t.clients && t.clients[id].disconnectedAt.None? && t.clients[id].session == s.clients[id].session
    decreases j
  {
    if i == j {
    } else {
      SessionLasts(keep, now, ops, i, j - 1, id);
      RunPrefix(keep, now, ops, j - 1);
      StepKeepsSession(Run(keep, now, ops[..j - 1]), keep, ops[j - 1], id);
    }
  }

  // ----- what keeps a run unspoiled -----

  /** Operations on credentials that are not multi-use; a client is terminated while it is connected. */
  predicate SingleUse(s: Repo, op: Op) {
    || op.DeleteClient? || op.Purge? || op.Tick? || op.Heartbeat? || op.FailedRestart?
    || (op.StartClient? && !op.req.multiuse)
    || (op.Terminate? && (s.ActiveByID(op.id).Some? || op.id !in s.clients))
  }

  /** The check of StartClient, and that a client keeps its auth id otherwise, is enough for these. */
  lemma SingleUseSpoilsNothing(s: Repo, keep: Keep, op: Op)
    requires s.UniqueAuth(keep) && s.KeysAreIDs() && SingleUse(s, op)
    ensures !Spoils(s, keep, op)
  {
    var c := WrittenRecord(s, keep, op);
    if c.Some? && !op.StartClient? {
      assert s.IsAlive(keep, op.id) && c.value.authID == s.clients[op.id].authID && c.value.id == op.id;
    }
  }

  /** With multi-use credentials off, no reachable state has two non-obsolete clients with one auth id,
      failed saves and failed restarts included, as long as no server comes up again and only connected
      clients are terminated. */
  lemma {:induction false} OneClientPerAuthID(keep: Keep, now: int, ops: seq<Op>, k: nat)
    requires k <= |ops| && forall j :: 0 <= j < k ==> SingleUse(Run(keep, now, ops[..j]), ops[j])
    ensures UniqueAt(keep, now, ops, k)
    decreases k
  {
    if k == 0 {
    } else {
      OneClientPerAuthID(keep, now, ops, k - 1);
      RunKeepsKeys(keep, now, ops[..k - 1]);
      SingleUseSpoilsNothing(Run(keep, now, ops[..k - 1]), keep, ops[k - 1]);
      OneMoreUnique(keep, now, ops, k - 1);
    }
  }

  lemma InUseInBoth(s: Repo, keep: Keep, authID: string, id: string)
    requires s.Agree(keep)
    ensures RowInUse(s, keep, authID, id) <==> s.AuthInUse(keep, authID, id)
  {
    assert forall x :: s.IsAlive(keep, x) ==> s.IsAliveRow(keep, x) && s.store[x].authID == s.clients[x].authID;
  }

  /** While memory and store agree, an operation that writes a row in use puts the same record in memory. */
  lemma AgreementPreventsClash(s: Repo, keep: Keep, op: Op)
    requires s.Agree(keep) && s.KeysAreIDs()
    ensures Clashes(s, keep, op) ==> MemClash(s, keep, op)
  {
    var r := WrittenRow(s, keep, op);
    if r.Some? {
      InUseInBoth(s, keep, r.value.authID, r.value.id);
      assert WrittenRecord(s, keep, op).Some? && WrittenRecord(s, keep, op).value.ToRow() == r.value;
    }
  }

  lemma AgreementPreventsClashAt(keep: Keep, now: int, ops: seq<Op>, k: nat)
    requires Orderly(ops) && k < |ops| && AgreesAt(keep, now, ops, k)
    ensures ClashAt(keep, now, ops, k) ==> MemClashAt(keep, now, ops, k)
  {
    RunKeepsKeys(keep, now, ops[..k]);
    if IsUp(ops[..k]) {
      AgreementPreventsClash(Run(keep, now, ops[..k]), keep, ops[k]);
    }
  }

  ghost predicate MemClashAt(keep: Keep, now: int, ops: seq<Op>, k: nat)
    requires k < |ops|
  {
    MemClash(Run(keep, now, ops[..k]), keep, ops[k])
  }

  lemma UnspoiledAt(keep: Keep, now: int, ops: seq<Op>, k: nat)
    requires k < |ops| && RowsAt(keep, now, ops, k) && !MemClashAt(keep, now, ops, k)
    ensures !SpoilsAt(keep, now, ops, k)
  {
  }

  lemma {:induction false} AgreeingRunIsUnique(keep: Keep, now: int, ops: seq<Op>, k: nat)
    requires Orderly(ops) && k <= |ops|
    requires forall j :: 0 <= j < k ==> !ApartAt(keep, now, ops, j) && !MemClashAt(keep, now, ops, j)
    ensures UniqueAt(keep, now, ops, k) && RowsAt(keep, now, ops, k)
    decreases k
  {
    if k == 0 {
    } else {
      AgreeingRunIsUnique(keep, now, ops, k - 1);
      NeverApartAgrees(keep, now, ops, k - 1);
      AgreementPreventsClashAt(keep, now, ops, k - 1);
      assert !MemClashAt(keep, now, ops, k - 1) && !ClashAt(keep, now, ops, k - 1);
      UnspoiledAt(keep, now, ops, k - 1);
      OneMoreRow(keep, now, ops, k - 1);
      OneMoreUnique(keep, now, ops, k - 1);
    }
  }

  /** In a run that never leaves memory and store apart, restarts do no harm: clients have different auth ids
      all the time if and only if no operation puts one in memory that another client has. */
  lemma AgreeingRunsAreUnique(keep: Keep, now: int, ops: seq<Op>)
    requires Orderly(ops) && forall j :: 0 <= j < |ops| ==> !ApartAt(keep, now, ops, j)
    ensures (forall k :: 0 <= k <= |ops| ==> UniqueAt(keep, now, ops, k)) <==>
            (forall k :: 0 <= k < |ops| ==> !MemClashAt(keep, now, ops, k))
  {
    if forall k :: 0 <= k <= |ops| ==> UniqueAt(keep, now, ops, k) {
      forall k | 0 <= k < |ops| ensures !MemClashAt(keep, now, ops, k) {
        assert UniqueAt(keep, now, ops, k + 1);
        OneMoreUnique(keep, now, ops, k);
      }
    } else if forall k :: 0 <= k < |ops| ==> !MemClashAt(keep, now, ops, k) {
      forall k | 0 <= k <= |ops| ensures UniqueAt(keep, now, ops, k) {
        AgreeingRunIsUnique(keep, now, ops, k);
      }
    }
  }

  /** Exactly when a failing StartClient leaves the repository as it was, and exactly when it leaves memory
      and store in agreement: a start that fails late for a known client has filled in its record. */
  lemma FailedStartChangesMemory(s: Repo, keep: Keep, req: Connect, fate: Fate)
    ensures var (t, reply) := Start(s, keep, req, fate);
            var filled := Started(req, s.ByID(keep, req.id));
            && (reply == AlreadyConnected || reply == AuthIDInUse ==> t == s)
            && (reply == Failed ==> t.store == s.store)
            && (reply == Failed ==>
                  (t == s <==> s.ByID(keep, req.id).None? || fate == PolicyFails || s.clients[req.id] == filled))
            && (reply == Failed && s.Agree(keep) ==>
                  (t.Agree(keep) <==> s.ByID(keep, req.id).None? || fate == PolicyFails ||
                                      s.store[req.id] == filled.ToRow()))
  {
    var (t, reply) := Start(s, keep, req, fate);
    if reply == Failed && s.Agree(keep) && s.ByID(keep, req.id).Some? && fate != PolicyFails {
      MemoryOnlyAgrees(s, keep, Started(req, s.ByID(keep, req.id)));
    }
  }

  // ----- two runs that spoil the auth ids -----

  const FIRST := Connect("A", "c", "1", false, [], "")
  const MOVED := Connect("B", "c", "2", false, [], "")
  const OTHER := Connect("A", "d", "3", false, [], "")

  /** Client c connects with A and leaves; it comes back with B but the save fails; client d connects with A;
      the server restarts. */
  function BadRun(): seq<Op> {
    [StartClient(FIRST, Completes), Terminate("c", true), StartClient(MOVED, SaveFails),
     StartClient(OTHER, Completes), Restart]
  }

  const GONE := Started(FIRST, None).(disconnectedAt := Some(0))

  lemma FirstStart(ops: seq<Op>)
    requires ops != [] && ops[0] == StartClient(FIRST, Completes)
    ensures var c := Started(FIRST, None); Run(None, 0, ops[..1]) == Repo(map["c" := c], map["c" := c.ToRow()], 0)
  {
    RunPrefix(None, 0, ops, 0);
  }

  lemma BadRunLeaves()
    ensures Run(None, 0, BadRun()[..2]) == Repo(map["c" := GONE], map["c" := GONE.ToRow()], 0)
  {
    RunPrefix(None, 0, BadRun(), 0);
    RunPrefix(None, 0, BadRun(), 1);
    FirstStart(BadRun());
  }

  lemma BadRunReturns()
    ensures Run(None, 0, BadRun()[..3]) == Repo(map["c" := Started(MOVED, None)], map["c" := GONE.ToRow()], 0)
  {
    BadRunLeaves();
    RunPrefix(None, 0, BadRun(), 2);
    var s := Run(None, 0, BadRun()[..2]);
    assert !s.AuthInUse(None, "B", "c");
    assert s.clients["c" := Started(MOVED, None)] == map["c" := Started(MOVED, None)];
  }

  lemma StartAfresh(s: Repo, req: Connect)
    requires s.KeysAreIDs() && req.id !in s.clients && !s.AuthInUse(None, req.authID, req.id)
    ensures Step(s, None, StartClient(req, Completes)) == s.Saved(Started(req, None))
  {
  }

  lemma BadRunOther()
    ensures Run(None, 0, BadRun()[..4]).store == map["c" := GONE.ToRow(), "d" := Started(OTHER, None).ToRow()]
  {
    BadRunReturns();
    var s := Repo(map["c" := Started(MOVED, None)], map["c" := GONE.ToRow()], 0);
    StartAfresh(s, OTHER);
    RunPrefix(None, 0, BadRun(), 3);
    var row := Started(OTHER, None).ToRow();
    assert s.store["d" := row] == map["c" := GONE.ToRow(), "d" := row];
  }

  /** After this run two non-obsolete clients share the auth id A. */
  lemma FailedSaveThenRestartSharesAuthID()
    ensures !Run(None, 0, BadRun()).UniqueAuth(None)
  {
    BadRunOther();
    RunPrefix(None, 0, BadRun(), 4);
    assert BadRun()[..5] == BadRun();
    var s := Run(None, 0, BadRun());
    assert s.IsAlive(None, "c") && s.IsAlive(None, "d");
    assert s.clients["c"].authID == s.clients["d"].authID;
  }

  /** Client c connects with A and is deleted by force; client d connects with A, and c again, with B; only then
      the first connection of c ends. Nothing fails, nothing restarts, and no credentials are multi-use. */
  function OrphanRun(): seq<Op> {
    [StartClient(FIRST, Completes), DeleteClient("c", true), StartClient(OTHER, Completes),
     StartClient(MOVED, Completes), TerminateOrphan(Started(FIRST, None), true)]
  }

  lemma OrphanRunDeletes()
    ensures Run(None, 0, OrphanRun()[..2]) == Repo(map[], map[], 0)
  {
    FirstStart(OrphanRun());
    RunPrefix(None, 0, OrphanRun(), 1);
  }

  lemma OrphanRunConnects()
    ensures var s := Run(None, 0, OrphanRun()[..4]);
            s.now == 0 && s.clients == map["d" := Started(OTHER, None), "c" := Started(MOVED, None)]
  {
    OrphanRunDeletes();
    var s := Repo(map[], map[], 0);
    StartAfresh(s, OTHER);
    RunPrefix(None, 0, OrphanRun(), 2);
    var t := s.Saved(Started(OTHER, None));
    assert t.clients == map["d" := Started(OTHER, None)];
    StartAfresh(t, MOVED);
    RunPrefix(None, 0, OrphanRun(), 3);
  }

  /** After this run c and d share the auth id A: the old record of c has replaced the new one. */
  lemma OrphanSharesAuthID()
    ensures !Run(None, 0, OrphanRun()).UniqueAuth(None)
  {
    OrphanRunConnects();
    RunPrefix(None, 0, OrphanRun(), 4);
    assert OrphanRun()[..5] == OrphanRun();
    var s := Run(None, 0, OrphanRun());
    assert s.IsAlive(None, "c") && s.IsAlive(None, "d");
    assert s.clients["c"].authID == s.clients["d"].authID;
  }
}
