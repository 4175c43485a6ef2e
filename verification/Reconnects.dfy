/** Starting the tunnels of a (re)connecting client, and what repeated reconnects do to them
    (server/clients/client_service.go: StartClient, startClientTunnels, StartTunnel). */
module Reconnects {
  import opened Text
  import opened Tunnels

  type Port = p: string | p != "" witness "0"

  /** What the server answers for the k-th remote of a batch: a port for it, or a failure of any kind
      (no port left, port busy, listener error). */
  type Supply = nat -> Option<Port>

  /** startClientTunnels gives a remote without local side a random port on all interfaces. */
  function Locate(r: Remote, port: Port): Remote {
    if r.IsLocalSpecified() then r
    else r.(localPort := port, localHost := ZERO_HOST, localPortRandom := true)
  }

  predicate Running(tunnels: seq<Remote>, r: Remote) {
    exists i :: 0 <= i < |tunnels| && tunnels[i].Str() == r.Str()
  }

  /** StartTunnel: a tunnel with the same String() is reused. */
  function StartOne(tunnels: seq<Remote>, r: Remote): seq<Remote> {
    if Running(tunnels, r) then tunnels else tunnels + [r]
  }

  function StartFrom(tunnels: seq<Remote>, remotes: seq<Remote>, supply: Supply, k: nat): Option<seq<Remote>>
    requires k <= |remotes|
    decreases |remotes| - k
  {
    if k == |remotes| then Some(tunnels)
    else
      match supply(k)
      case None => None
      case Some(port) => StartFrom(StartOne(tunnels, Locate(remotes[k], port)), remotes, supply, k + 1)
  }

  method FindTunnelByRemote(tunnels: seq<Remote>, r: Remote) returns (found: bool)
    ensures found == Running(tunnels, r)
  {
    for i := 0 to |tunnels|
      invariant forall j :: 0 <= j < i ==> tunnels[j].Str() != r.Str()
    {
      if tunnels[i].Str() == r.Str() {
        return true;
      }
    }
    return false;
  }

  /** StartTunnel, when the tunnel can be started: a running one is reused. */
  method StartTunnel(tunnels: seq<Remote>, remote: Remote) returns (r: seq<Remote>)
    ensures r == StartOne(tunnels, remote)
  {
    var found := FindTunnelByRemote(tunnels, remote);
    return if found then tunnels else tunnels + [remote];
  }

  /** The first `n` remotes start, and that is how far the batch comes. */
  ghost predicate Reaches(tunnels: seq<Remote>, remotes: seq<Remote>, supply: Supply, n: nat, ts: seq<Remote>) {
    && n <= |remotes| && (n < |remotes| ==> supply(n).None?)
    && (forall k :: 0 <= k < n ==> supply(k).Some?)
    && ts == AddAll(tunnels, LocateFrom(remotes[..n], supply, 0))
  }

  /** startClientTunnels for a client whose tunnels are `tunnels`. When one remote fails, the tunnels of
      those before it stay with the client. */
  method StartClientTunnels(tunnels: seq<Remote>, remotes: seq<Remote>, supply: Supply)
    returns (ok: bool, started: seq<Remote>)
    ensures StartFrom(tunnels, remotes, supply, 0) == if ok then Some(started) else None
    ensures exists n :: Reaches(tunnels, remotes, supply, n, started) && (ok <==> n == |remotes|)
  {
    started := tunnels;
    for k := 0 to |remotes|
      invariant StartedSoFar(tunnels, remotes, supply, k, started)
    {
      var answer := supply(k);
      if answer.None? {
        assert Reaches(tunnels, remotes, supply, k, started);
        return false, started;
      }
      var remote := remotes[k];
      if !remote.IsLocalSpecified() {
        remote := remote.(localPort := answer.value, localHost := ZERO_HOST, localPortRandom := true);
      }
      StartedOneMore(tunnels, remotes, supply, k, started);
      started := StartTunnel(started, remote);
    }
    assert Reaches(tunnels, remotes, supply, |remotes|, started);
    return true, started;
  }

  lemma {:induction false} AddAllLast(tunnels: seq<Remote>, rs: seq<Remote>, r: Remote)
    ensures AddAll(tunnels, rs + [r]) == StartOne(AddAll(tunnels, rs), r)
    decreases |rs|
  {
    if rs == [] {
      assert [r][1..] == [];
    } else {
      assert (rs + [r])[1..] == rs[1..] + [r];
      AddAllLast(StartOne(tunnels, rs[0]), rs[1..], r);
    }
  }

  lemma LocateFromLast(remotes: seq<Remote>, supply: Supply, k: nat)
    requires k < |remotes|
    ensures LocateFrom(remotes[..k + 1], supply, 0) ==
            LocateFrom(remotes[..k], supply, 0) + [LocateAt(remotes, supply, k)]
  {
    var longer, shorter := remotes[..k + 1], remotes[..k];
    LocateFromAt(longer, supply, 0, k);
    forall i | 0 <= i < k ensures LocateFrom(longer, supply, 0)[i] == LocateFrom(shorter, supply, 0)[i] {
      LocateFromAt(longer, supply, 0, i);
      LocateFromAt(shorter, supply, 0, i);
    }
  }

  /** The first `k` remotes have started, and the rest of the batch decides how it ends. */
  ghost predicate StartedSoFar(tunnels: seq<Remote>, remotes: seq<Remote>, supply: Supply, k: nat, ts: seq<Remote>) {
    && k <= |remotes| && (forall j :: 0 <= j < k ==> supply(j).Some?)
    && ts == AddAll(tunnels, LocateFrom(remotes[..k], supply, 0))
    && StartFrom(tunnels, remotes, supply, 0) == StartFrom(ts, remotes, supply, k)
  }

  lemma StartedOneMore(tunnels: seq<Remote>, remotes: seq<Remote>, supply: Supply, k: nat, ts: seq<Remote>)
    requires StartedSoFar(tunnels, remotes, supply, k, ts) && k < |remotes| && supply(k).Some?
    ensures StartedSoFar(tunnels, remotes, supply, k + 1, StartOne(ts, Locate(remotes[k], supply(k).value)))
  {
    LocateFromLast(remotes, supply, k);
    AddAllLast(tunnels, LocateFrom(remotes[..k], supply, 0), Locate(remotes[k], supply(k).value));
  }

  /** excludeNotAllowedTunnels: the client's policy decides on the remote side of a tunnel. */
  function Allowed(rs: seq<Remote>, policy: string -> bool): seq<Remote> {
    if rs == [] then []
    else Allowed(rs[..|rs| - 1], policy) + if policy(rs[|rs| - 1].Target()) then [rs[|rs| - 1]] else []
  }

  /** What the client answers when it is asked about a tunnel; an old client does not know the question. */
  datatype Verdict = Yes | No | UnknownRequest | RequestFails

  /** The question is answered for the first `n` tunnels. */
  ghost predicate AnsweredUpTo(tunnels: seq<Remote>, ask: string -> Verdict, n: int) {
    forall j :: 0 <= j < n && j < |tunnels| ==> ask(tunnels[j].Target()).Yes? || ask(tunnels[j].Target()).No?
  }

  /** excludeNotAllowedTunnels: the first question that fails decides; a client that does not know it keeps all
      its tunnels, and any other failure is an error. */
  method ExcludeNotAllowed(tunnels: seq<Remote>, ask: string -> Verdict) returns (r: Option<seq<Remote>>)
    ensures r.None? <==> exists k :: 0 <= k < |tunnels| && ask(tunnels[k].Target()) == RequestFails &&
                                     AnsweredUpTo(tunnels, ask, k)
    ensures r.Some? && AnsweredUpTo(tunnels, ask, |tunnels|) ==> r.value == Allowed(tunnels, t => ask(t) == Yes)
    ensures r.Some? && !AnsweredUpTo(tunnels, ask, |tunnels|) ==> r.value == tunnels
  {
    var filtered := [];
    for k := 0 to |tunnels|
      invariant AnsweredUpTo(tunnels, ask, k)
      invariant filtered == Allowed(tunnels[..k], t => ask(t) == Yes)
    {
      var answer := ask(tunnels[k].Target());
      if answer.UnknownRequest? {
        return Some(tunnels);
      }
      if answer.RequestFails? {
        return None;
      }
      assert tunnels[..k + 1][..k] == tunnels[..k];
      if answer.Yes? {
        filtered := filtered + [tunnels[k]];
      }
    }
    assert tunnels[..|tunnels|] == tunnels;
    return Some(filtered);
  }

  /** What is kept: exactly the allowed tunnels, in order. */
  lemma {:induction false} AllowedMeans(rs: seq<Remote>, policy: string -> bool) returns (kept: seq<nat>)
    ensures forall a, b :: 0 <= a < b < |kept| ==> kept[a] < kept[b]
    ensures forall i :: i in kept <==> 0 <= i < |rs| && policy(rs[i].Target())
    ensures |Allowed(rs, policy)| == |kept|
    ensures forall n :: 0 <= n < |kept| ==> kept[n] < |rs| && Allowed(rs, policy)[n] == rs[kept[n]]
    decreases |rs|
  {
    if rs == [] {
      kept := [];
    } else {
      var m := |rs| - 1;
      kept := AllowedMeans(rs[..m], policy);
      forall n | 0 <= n < |kept| ensures kept[n] < m {
        assert kept[n] in kept;
      }
      if policy(rs[m].Target()) {
        kept := kept + [m];
      }
    }
  }

  /** The remotes StartClient starts when a client with the tunnels `was` asks for `req`. */
  function Plan(was: seq<Remote>, req: seq<Remote>, policy: string -> bool): seq<Remote> {
    req + Allowed(Reestablish(was, req), policy)
  }

  function Reconnect(was: seq<Remote>, req: seq<Remote>, policy: string -> bool, supply: Supply)
    : Option<seq<Remote>>
  {
    StartFrom([], Plan(was, req, policy), supply, 0)
  }

  // ----- the tunnels after a start -----

  lemma StartOneResult(tunnels: seq<Remote>, r: Remote)
    requires DistinctStrs(tunnels) && Located(tunnels) && r.IsLocalSpecified()
    ensures DistinctStrs(StartOne(tunnels, r)) && Located(StartOne(tunnels, r))
  {
  }

  /** The k-th remote with its local side. */
  function LocateAt(remotes: seq<Remote>, supply: Supply, k: nat): Remote
    requires k < |remotes|
  {
    Locate(remotes[k], supply(k).GetOr("0"))
  }

  /** The remotes from the k-th on, each with its local side. */
  function LocateFrom(remotes: seq<Remote>, supply: Supply, k: nat): (r: seq<Remote>)
    requires k <= |remotes|
    ensures |r| == |remotes| - k
    decreases |remotes| - k
  {
    if k == |remotes| then [] else [LocateAt(remotes, supply, k)] + LocateFrom(remotes, supply, k + 1)
  }

  lemma {:induction false} LocateFromAt(remotes: seq<Remote>, supply: Supply, k: nat, i: nat)
    requires k <= i < |remotes|
    ensures LocateFrom(remotes, supply, k)[i - k] == LocateAt(remotes, supply, i)
    decreases i - k
  {
    if k == i {
    } else {
      LocateFromAt(remotes, supply, k + 1, i);
    }
  }

  function AddAll(tunnels: seq<Remote>, rs: seq<Remote>): seq<Remote>
    decreases |rs|
  {
    if rs == [] then tunnels else AddAll(StartOne(tunnels, rs[0]), rs[1..])
  }

  lemma {:induction false} StartFromAdds(tunnels: seq<Remote>, remotes: seq<Remote>, supply: Supply,
                                         k: nat, ts: seq<Remote>)
    requires k <= |remotes| && StartFrom(tunnels, remotes, supply, k) == Some(ts)
    ensures ts == AddAll(tunnels, LocateFrom(remotes, supply, k))
    decreases |remotes| - k
  {
    if k == |remotes| {
    } else {
      StartFromAdds(StartOne(tunnels, Locate(remotes[k], supply(k).value)), remotes, supply, k + 1, ts);
      assert LocateFrom(remotes, supply, k)[1..] == LocateFrom(remotes, supply, k + 1);
    }
  }

  /** Tunnels of a client always have pairwise different String() values and a local side. */
  lemma {:induction false} AddAllDistinct(tunnels: seq<Remote>, rs: seq<Remote>)
    requires DistinctStrs(tunnels) && Located(tunnels) && Located(rs)
    ensures DistinctStrs(AddAll(tunnels, rs)) && Located(AddAll(tunnels, rs))
    decreases |rs|
  {
    if rs == [] {
    } else {
      StartOneResult(tunnels, rs[0]);
      AddAllDistinct(StartOne(tunnels, rs[0]), rs[1..]);
    }
  }

  /** Nothing is started twice; there is one tunnel per remote, in order, exactly when the remotes differ
      from each other and from the running tunnels by String(). */
  lemma {:induction false} AddAllSize(tunnels: seq<Remote>, rs: seq<Remote>)
    requires DistinctStrs(tunnels)
    ensures |AddAll(tunnels, rs)| <= |tunnels| + |rs|
    ensures |AddAll(tunnels, rs)| == |tunnels| + |rs| <==> DistinctStrs(tunnels + rs)
    ensures DistinctStrs(tunnels + rs) ==> AddAll(tunnels, rs) == tunnels + rs
    decreases |rs|
  {
    if rs == [] {
      assert tunnels + rs == tunnels;
    } else if Running(tunnels, rs[0]) {
      RunningClashes(tunnels, rs);
      AddAllSize(tunnels, rs[1..]);
    } else {
      var next := tunnels + [rs[0]];
      NextIsDistinct(tunnels, rs[0]);
      assert next + rs[1..] == tunnels + rs;
      AddAllSize(next, rs[1..]);
    }
  }

  lemma NextIsDistinct(tunnels: seq<Remote>, r: Remote)
    requires DistinctStrs(tunnels)
    ensures DistinctStrs(StartOne(tunnels, r))
  {
  }

  lemma RunningClashes(tunnels: seq<Remote>, rs: seq<Remote>)
    requires rs != [] && Running(tunnels, rs[0])
    ensures !DistinctStrs(tunnels + rs)
  {
    var i :| 0 <= i < |tunnels| && tunnels[i].Str() == rs[0].Str();
    assert (tunnels + rs)[i] == tunnels[i] && (tunnels + rs)[|tunnels|] == rs[0];
  }

  lemma LocateFromLocated(remotes: seq<Remote>, supply: Supply)
    ensures Located(LocateFrom(remotes, supply, 0))
  {
    forall i | 0 <= i < |remotes| ensures LocateFrom(remotes, supply, 0)[i].IsLocalSpecified() {
      LocateFromAt(remotes, supply, 0, i);
    }
  }

  /** What a successful start leaves: distinct, located tunnels, and one for each remote exactly when the
      located remotes have pairwise different String() values. */
  lemma AllStarted(remotes: seq<Remote>, supply: Supply, ts: seq<Remote>)
    requires StartFrom([], remotes, supply, 0) == Some(ts)
    ensures DistinctStrs(ts) && Located(ts)
    ensures |ts| <= |remotes|
    ensures |ts| == |remotes| <==> DistinctStrs(LocateFrom(remotes, supply, 0))
    ensures DistinctStrs(LocateFrom(remotes, supply, 0)) ==> ts == LocateFrom(remotes, supply, 0)
  {
    var rs := LocateFrom(remotes, supply, 0);
    StartFromAdds([], remotes, supply, 0, ts);
    LocateFromLocated(remotes, supply);
    AddAllDistinct([], rs);
    AddAllSize([], rs);
    assert [] + rs == rs;
  }

  /** The ports drawn for a batch keep its tunnels apart: no two of the remotes have the same String()
      once they have their local sides. */
  ghost predicate KeptApart(plan: seq<Remote>, supply: Supply) {
    DistinctStrs(LocateFrom(plan, supply, 0))
  }

  /** A reconnect loses a tunnel exactly when the drawn ports do not keep the tunnels apart. */
  lemma NoTunnelLostIffKeptApart(was: seq<Remote>, req: seq<Remote>, policy: string -> bool,
                                 supply: Supply, ts: seq<Remote>)
    requires Reconnect(was, req, policy, supply) == Some(ts)
    ensures |ts| == |Plan(was, req, policy)| <==> KeptApart(Plan(was, req, policy), supply)
    ensures KeptApart(Plan(was, req, policy), supply) ==> ts == LocateFrom(Plan(was, req, policy), supply, 0)
  {
    AllStarted(Plan(was, req, policy), supply, ts);
  }

  /** Every session leaves tunnels on which the greedy match is exact. */
  lemma SessionsAreExact(was: seq<Remote>, req: seq<Remote>, policy: string -> bool, supply: Supply,
                         ts: seq<Remote>, next: seq<Remote>)
    requires Reconnect(was, req, policy, supply) == Some(ts)
    ensures Matched(ts, next).Some? <==> Assignable(ts, next)
  {
    AllStarted(Plan(was, req, policy), supply, ts);
    DistinctIsStacked(ts);
    GreedyIsExact(ts);
  }

  // ----- ports that keep tunnels apart -----

  /** Neither the local host nor the local port has a colon of its own. */
  predicate PlainLocal(r: Remote) {
    ':' !in r.localHost && ':' !in r.localPort
  }

  lemma LocalSideOfStr(r: Remote) returns (rest: string)
    ensures r.Str() == r.localHost + ":" + (r.localPort + ":" + rest)
  {
    rest := r.Target() + (if r.protocol != "tcp" then "/" + r.protocol else "") +
            (if r.acl.Some? then "(acl:" + r.acl.value + ")" else "");
  }

  /** Tunnels with one String() have one local side. */
  lemma SameStrSameLocal(a: Remote, b: Remote)
    requires PlainLocal(a) && PlainLocal(b) && a.Str() == b.Str()
    ensures a.localHost == b.localHost && a.localPort == b.localPort
  {
    var x := LocalSideOfStr(a);
    var y := LocalSideOfStr(b);
    FirstField(a.localHost, a.localPort + ":" + x, b.localHost, b.localPort + ":" + y);
    FirstField(a.localPort, x, b.localPort, y);
  }

  /** The ports drawn for remotes `i` and `j` do not make them the same tunnel: two drawn ports differ, and
      a drawn port is not the one that the other remote names on all interfaces. */
  predicate PortsDiffer(plan: seq<Remote>, supply: Supply, i: nat, j: nat)
    requires i < |plan| && j < |plan|
  {
    if plan[i].IsLocalSpecified() && plan[j].IsLocalSpecified() then plan[i].Str() != plan[j].Str()
    else
      var a, b := LocateAt(plan, supply, i), LocateAt(plan, supply, j);
      PlainLocal(a) && PlainLocal(b) && (a.localHost != b.localHost || a.localPort != b.localPort)
  }

  lemma DifferentPorts(plan: seq<Remote>, supply: Supply, i: nat, j: nat)
    requires i < j < |plan| && PortsDiffer(plan, supply, i, j)
    ensures LocateAt(plan, supply, i).Str() != LocateAt(plan, supply, j).Str()
  {
    var a, b := LocateAt(plan, supply, i), LocateAt(plan, supply, j);
    if a.Str() == b.Str() && !(plan[i].IsLocalSpecified() && plan[j].IsLocalSpecified()) {
      SameStrSameLocal(a, b);
    }
  }

  lemma DistinctOneByOne(plan: seq<Remote>, supply: Supply)
    requires forall i, j :: 0 <= i < j < |plan| ==>
                              LocateAt(plan, supply, i).Str() != LocateAt(plan, supply, j).Str()
    ensures KeptApart(plan, supply)
  {
    var ts := LocateFrom(plan, supply, 0);
    forall i | 0 <= i < |ts| ensures ts[i] == LocateAt(plan, supply, i) {
      LocateFromAt(plan, supply, 0, i);
    }
  }

  /** Distinct local ports keep the tunnels of a batch apart. */
  lemma DistinctPortsKeepApart(plan: seq<Remote>, supply: Supply)
    requires forall i, j :: 0 <= i < j < |plan| ==> PortsDiffer(plan, supply, i, j)
    ensures KeptApart(plan, supply)
  {
    forall i, j | 0 <= i < j < |plan|
      ensures LocateAt(plan, supply, i).Str() != LocateAt(plan, supply, j).Str()
    {
      DifferentPorts(plan, supply, i, j);
    }
    DistinctOneByOne(plan, supply);
  }

  // ----- repeated reconnects -----

  /** The first |req| tunnels are the requests, located. */
  ghost predicate Begins(ts: seq<Remote>, req: seq<Remote>) {
    |req| <= |ts| && forall k :: 0 <= k < |req| ==> Serves(ts[k], req[k])
  }

  predicate Serves(tunnel: Remote, r: Remote) {
    tunnel.localPort != "" && tunnel == Locate(r, tunnel.localPort)
  }

  /** The marks after request `k` of the first and of the second pass. */
  ghost predicate OwnMarks(marks: seq<bool>, ts: seq<Remote>, req: seq<Remote>, k: nat, local: bool) {
    |marks| == |ts| &&
    forall i :: 0 <= i < |ts| ==>
                  (marks[i] <==> i < |req| && (if local then i < k && req[i].IsLocalSpecified()
                                               else i < k || req[i].IsLocalSpecified()))
  }

  lemma OwnTunnelIsFirst(ts: seq<Remote>, req: seq<Remote>, k: nat, marks: seq<bool>, local: bool)
    requires Begins(ts, req) && DistinctStrs(ts) && k < |req| && OwnMarks(marks, ts, req, k, local)
    requires req[k].IsLocalSpecified() == local
    ensures FirstFree(ts, marks, req[k], 0) == k
  {
    assert Free(ts, marks, req[k], k);
    forall j | 0 <= j < k ensures !Free(ts, marks, req[k], j) {
    }
  }

  lemma OwnMarksStep(ts: seq<Remote>, req: seq<Remote>, k: nat, marks: seq<bool>, local: bool)
    requires k < |req| <= |ts| && OwnMarks(marks, ts, req, k, local)
    ensures OwnMarks(if req[k].IsLocalSpecified() == local then marks[k := true] else marks, ts, req, k + 1, local)
  {
  }

  lemma {:induction false} OwnPass(ts: seq<Remote>, req: seq<Remote>, k: nat, marks: seq<bool>, local: bool)
    requires Begins(ts, req) && DistinctStrs(ts) && k <= |req| && OwnMarks(marks, ts, req, k, local)
    ensures Pass(ts, req, k, marks, local).Some?
    ensures OwnMarks(Pass(ts, req, k, marks, local).value, ts, req, |req|, local)
    decreases |req| - k
  {
    if k == |req| {
    } else {
      OwnMarksStep(ts, req, k, marks, local);
      if req[k].IsLocalSpecified() == local {
        OwnTunnelIsFirst(ts, req, k, marks, local);
        OwnPass(ts, req, k + 1, marks[k := true], local);
      } else {
        OwnPass(ts, req, k + 1, marks, local);
      }
    }
  }

  function Shapes(rs: seq<Remote>): (r: seq<Remote>)
    ensures |r| == |rs| && forall i :: 0 <= i < |r| ==> r[i] == Shape(rs[i])
  {
    seq(|rs|, i requires 0 <= i < |rs| => Shape(rs[i]))
  }

  lemma {:induction false} LeftoverBehind(ts: seq<Remote>, marks: seq<bool>, n: nat)
    requires n <= |ts| == |marks| && forall i :: 0 <= i < |ts| ==> (marks[i] <==> i < n)
    ensures Leftover(ts, marks) == Shapes(ts[n..])
    decreases |ts|
  {
    var m := |ts| - 1;
    if n < |ts| {
      LeftoverBehind(ts[..m], marks[..m], n);
      assert Shapes(ts[n..]) == Shapes(ts[..m][n..]) + [Shape(ts[m])];
    } else if ts != [] {
      LeftoverBehind(ts[..m], marks[..m], m);
    }
  }

  lemma OwnMatched(ts: seq<Remote>, req: seq<Remote>)
    requires Begins(ts, req) && DistinctStrs(ts)
    ensures Matched(ts, req).Some?
    ensures forall i :: 0 <= i < |ts| ==> (Matched(ts, req).value[i] <==> i < |req|)
  {
    OwnPass(ts, req, 0, Unmarked(|ts|), true);
    var marks := Pass(ts, req, 0, Unmarked(|ts|), true).value;
    OwnPass(ts, req, 0, marks, false);
  }

  /** A client that asks again for what it got is matched with its own tunnels, request by request. */
  lemma OwnMatch(ts: seq<Remote>, req: seq<Remote>)
    requires Begins(ts, req) && DistinctStrs(ts)
    ensures Reestablish(ts, req) == Shapes(ts[|req|..])
  {
    OwnMatched(ts, req);
    LeftoverBehind(ts, Matched(ts, req).value, |req|);
  }

  /** What a leftover looks like: either a fixed local side, or none and a random port to come. */
  ghost predicate Restartable(r: Remote) {
    if r.localPortRandom then r.localHost == "" && r.localPort == "" else r.IsLocalSpecified()
  }

  lemma {:induction false} LeftoverRestartable(was: seq<Remote>, marks: seq<bool>)
    requires |marks| == |was| && Located(was)
    ensures forall i :: 0 <= i < |Leftover(was, marks)| ==> Restartable(Leftover(was, marks)[i])
    decreases |was|
  {
    if was == [] {
    } else {
      LeftoverRestartable(was[..|was| - 1], marks[..|was| - 1]);
    }
  }

  lemma {:induction false} AllowedElements(rs: seq<Remote>, policy: string -> bool)
    ensures forall r :: r in Allowed(rs, policy) ==> r in rs && policy(r.Target())
  {
    if rs == [] {
    } else {
      AllowedElements(rs[..|rs| - 1], policy);
    }
  }

  lemma {:induction false} AllowedAll(rs: seq<Remote>, policy: string -> bool)
    requires forall i :: 0 <= i < |rs| ==> policy(rs[i].Target())
    ensures Allowed(rs, policy) == rs
  {
    if rs == [] {
    } else {
      AllowedAll(rs[..|rs| - 1], policy);
    }
  }

  /** What the policy keeps of the leftovers can be started again as it is. */
  lemma KeptIsRestartable(was: seq<Remote>, req: seq<Remote>, policy: string -> bool, r: Remote)
    requires Located(was) && r in Allowed(Reestablish(was, req), policy)
    ensures Restartable(r) && policy(r.Target())
  {
    AllowedElements(Reestablish(was, req), policy);
    if Matched(was, req).Some? {
      LeftoverRestartable(was, Matched(was, req).value);
    }
  }

  /** Starting such a remote and forgetting its random port gives it back. */
  lemma RestartedShape(r: Remote, port: Port)
    requires Restartable(r)
    ensures Shape(Locate(r, port)) == r
  {
  }

  lemma LocatedBegins(req: seq<Remote>, kept: seq<Remote>, supply: Supply)
    ensures Begins(LocateFrom(req + kept, supply, 0), req)
  {
    forall k | 0 <= k < |req| ensures Serves(LocateFrom(req + kept, supply, 0)[k], req[k]) {
      LocateFromAt(req + kept, supply, 0, k);
    }
  }

  lemma KeptAt(plan: seq<Remote>, supply: Supply, k: nat)
    requires k < |plan| && Restartable(plan[k])
    ensures Shape(LocateFrom(plan, supply, 0)[k]) == plan[k]
  {
    LocateFromAt(plan, supply, 0, k);
    RestartedShape(plan[k], supply(k).GetOr("0"));
  }

  lemma KeptAgain(req: seq<Remote>, kept: seq<Remote>, supply: Supply)
    requires forall r :: r in kept ==> Restartable(r)
    ensures Shapes(LocateFrom(req + kept, supply, 0)[|req|..]) == kept
  {
    var plan := req + kept;
    forall k | |req| <= k < |plan| ensures Shape(LocateFrom(plan, supply, 0)[k]) == plan[k] {
      assert plan[k] in kept;
      KeptAt(plan, supply, k);
    }
  }

  /** After one reconnect the list of remotes to start is settled: reconnecting with the same requests
      under the same policy asks for exactly the same remotes again. */
  lemma PlanIsSettled(was: seq<Remote>, req: seq<Remote>, policy: string -> bool, supply: Supply,
                      ts: seq<Remote>)
    requires Located(was) && Reconnect(was, req, policy, supply) == Some(ts)
    requires KeptApart(Plan(was, req, policy), supply)
    ensures Plan(ts, req, policy) == Plan(was, req, policy)
  {
    var kept := Allowed(Reestablish(was, req), policy);
    AllStarted(req + kept, supply, ts);
    LocatedBegins(req, kept, supply);
    OwnMatch(ts, req);
    forall r | r in kept ensures Restartable(r) && policy(r.Target()) {
      KeptIsRestartable(was, req, policy, r);
    }
    KeptAgain(req, kept, supply);
    AllowedAll(kept, policy);
  }

  /** A history of sessions: `history[k + 1]` are the tunnels after the (k + 1)-th reconnect. In each of
      them the drawn ports kept the tunnels apart. */
  ghost predicate History(history: seq<seq<Remote>>, supplies: seq<Supply>, req: seq<Remote>,
                          policy: string -> bool)
  {
    && |history| == |supplies| + 1 && Located(history[0])
    && forall k :: 0 <= k < |supplies| ==>
         && Reconnect(history[k], req, policy, supplies[k]) == Some(history[k + 1])
         && KeptApart(Plan(history[k], req, policy), supplies[k])
  }

  /** Over any number of reconnects no tunnel is lost or duplicated: from the first one on, the tunnels
      are the same one by one, up to the choice of random ports. */
  lemma {:induction false} ReconnectsAreStable(history: seq<seq<Remote>>, supplies: seq<Supply>,
                                               req: seq<Remote>, policy: string -> bool, k: nat)
    requires History(history, supplies, req, policy) && k < |supplies|
    ensures Plan(history[k], req, policy) == Plan(history[0], req, policy)
    ensures Located(history[k]) && Located(history[k + 1])
    ensures Shapes(history[k + 1]) == Shapes(history[1])
    decreases k
  {
    if k == 0 {
    } else {
      ReconnectsAreStable(history, supplies, req, policy, k - 1);
      PlanIsSettled(history[k - 1], req, policy, supplies[k - 1], history[k]);
    }
    var plan := Plan(history[k], req, policy);
    AllStarted(plan, supplies[k], history[k + 1]);
    AllStarted(plan, supplies[0], history[1]);
    SameShapes(plan, supplies[k], supplies[0]);
  }

  lemma SameShapes(plan: seq<Remote>, one: Supply, other: Supply)
    ensures Shapes(LocateFrom(plan, one, 0)) == Shapes(LocateFrom(plan, other, 0))
  {
    forall i | 0 <= i < |plan| ensures Shape(LocateFrom(plan, one, 0)[i]) == Shape(LocateFrom(plan, other, 0)[i]) {
      LocateFromAt(plan, one, 0, i);
      LocateFromAt(plan, other, 0, i);
    }
  }

  /** The first reconnect itself: when the requests match the remembered tunnels and the policy allows
      them all, there are as many tunnels as before exactly when the drawn ports keep them apart. */
  lemma FirstReconnectKeepsCount(was: seq<Remote>, req: seq<Remote>, policy: string -> bool,
                                 supply: Supply, ts: seq<Remote>)
    requires Matched(was, req).Some? && Reconnect(was, req, policy, supply) == Some(ts)
    requires forall r :: r in Reestablish(was, req) ==> policy(r.Target())
    ensures |ts| <= |was|
    ensures |ts| == |was| <==> KeptApart(Plan(was, req, policy), supply)
  {
    AllowedAll(Reestablish(was, req), policy);
    ReestablishCounts(was, req);
    AllStarted(Plan(was, req, policy), supply, ts);
  }

  /** A port clash: the random port drawn for a remembered tunnel is the fixed port of a requested one, and
      the remembered tunnel is lost. */
  lemma ClashLosesTunnel(fixed: Remote, random: Remote, policy: string -> bool, supply: Supply, port: Port)
    requires fixed.IsLocalSpecified() && random.IsLocalSpecified() && random.localPortRandom
    requires fixed.Str() != random.Str() && Locate(random.Blank(), port).Str() == fixed.Str()
    requires policy(random.Target()) && forall k :: supply(k) == Some(port)
    ensures Matched([fixed, random], [fixed]).Some?
    ensures Reconnect([fixed, random], [fixed], policy, supply) == Some([fixed])
  {
    ClashPlan(fixed, random, policy);
    ClashStart(fixed, random.Blank(), supply, port);
  }

  lemma ClashPlan(fixed: Remote, random: Remote, policy: string -> bool)
    requires fixed.IsLocalSpecified() && random.localPortRandom && fixed.Str() != random.Str()
    requires policy(random.Target())
    ensures Matched([fixed, random], [fixed]).Some?
    ensures Plan([fixed, random], [fixed], policy) == [fixed, random.Blank()]
  {
    ClashLeftover(fixed, random);
    AllowedOne(random.Blank(), policy);
  }

  lemma AllowedOne(r: Remote, policy: string -> bool)
    requires policy(r.Target())
    ensures Allowed([r], policy) == [r]
  {
    assert [r][..0] == [];
    assert Allowed([], policy) == [];
  }

  lemma ClashLeftover(fixed: Remote, random: Remote)
    requires fixed.IsLocalSpecified() && random.localPortRandom && fixed.Str() != random.Str()
    ensures Matched([fixed, random], [fixed]).Some?
    ensures Reestablish([fixed, random], [fixed]) == [random.Blank()]
  {
    var ts, req := [fixed, random], [fixed];
    assert Begins(ts, req) by {
      assert Serves(fixed, fixed);
    }
    OwnMatched(ts, req);
    OwnMatch(ts, req);
    assert ts[1..] == [random];
    ShapesOfOne(random);
  }

  lemma ShapesOfOne(r: Remote)
    ensures Shapes([r]) == [Shape(r)]
  {
  }

  lemma ClashStart(fixed: Remote, blank: Remote, supply: Supply, port: Port)
    requires fixed.IsLocalSpecified() && Locate(blank, port).Str() == fixed.Str()
    requires forall k :: supply(k) == Some(port)
    ensures StartFrom([], [fixed, blank], supply, 0) == Some([fixed])
  {
    var plan, ts := [fixed, blank], [fixed];
    assert StartOne([], fixed) == ts;
    assert ts[0].Str() == Locate(blank, port).Str();
    assert Running(ts, Locate(blank, port));
    assert StartFrom(ts, plan, supply, 2) == Some(ts);
    assert StartFrom(ts, plan, supply, 1) == Some(ts);
  }

  const FIXED := Remote("tcp", "0.0.0.0", "1", false, "h", "2", None, "")
  const RANDOM := Remote("tcp", "0.0.0.0", "3", true, "h", "2", None, "")

  lemma ClashNames()
    ensures FIXED.Str() != RANDOM.Str()
    ensures Locate(RANDOM.Blank(), "1").Str() == FIXED.Str()
  {
    assert FIXED.Str() == "0.0.0.0:1:h:2" && RANDOM.Str() == "0.0.0.0:3:h:2";
    assert FIXED.Str()[8] != RANDOM.Str()[8];
  }

  /** Such a clash exists. */
  lemma PortClashLosesTunnel(policy: string -> bool, supply: Supply)
    requires policy(RANDOM.Target()) && forall k :: supply(k) == Some("1")
    ensures Located([FIXED, RANDOM]) && FIXED.Str() != RANDOM.Str() && Matched([FIXED, RANDOM], [FIXED]).Some?
    ensures Reconnect([FIXED, RANDOM], [FIXED], policy, supply) == Some([FIXED])
  {
    ClashNames();
    ClashLosesTunnel(FIXED, RANDOM, policy, supply, "1");
  }
}
