/** A batch of remotes with the ports that the distributor draws for them
    (server/clients/client_service.go: startClientTunnels, checkLocalPort; server/ports/port_distributor.go). */
module Batches {
  import opened Text
  import opened Tunnels
  import opened Reconnects
  import P = Ports

  // ----- port numbers as text -----

  predicate IsDigit(c: char) {
    '0' <= c <= '9'
  }

  function Digit(d: nat): char
    requires d < 10
  {
    ('0' as int + d) as char
  }

  /** strconv.Itoa */
  function Itoa(n: nat): (s: Port) {
    if n < 10 then [Digit(n)] else Itoa(n / 10) + [Digit(n % 10)]
  }

  /** strconv.Atoi, for what may be a port: digits only. */
  function Atoi(s: string): Option<nat> {
    if s == "" || !IsDigit(s[|s| - 1]) then None
    else
      var d := s[|s| - 1] as int - '0' as int;
      if |s| == 1 then Some(d)
      else
        match Atoi(s[..|s| - 1])
        case None => None
        case Some(n) => Some(10 * n + d)
  }

  lemma {:induction false} AtoiOfItoa(n: nat)
    ensures Atoi(Itoa(n)) == Some(n) && forall i :: 0 <= i < |Itoa(n)| ==> IsDigit(Itoa(n)[i])
  {
    if n < 10 {
    } else {
      AtoiOfItoa(n / 10);
      assert Itoa(n)[..|Itoa(n)| - 1] == Itoa(n / 10);
    }
  }

  // ----- what String() tells -----

  /** A remote as NewRemote makes it: names without colons, a port of digits, one of three protocols. */
  predicate Named(r: Remote) {
    && PlainLocal(r) && ':' !in r.remoteHost && (forall i :: 0 <= i < |r.remotePort| ==> IsDigit(r.remotePort[i]))
    && (r.protocol == P.TCP || r.protocol == P.UDP || r.protocol == P.TCP_UDP)
  }

  ghost predicate AllNamed(rs: seq<Remote>) {
    forall i :: 0 <= i < |rs| ==> Named(rs[i])
  }

  /** What follows the remote port in String(). */
  function Suffix(r: Remote): string {
    (if r.protocol != "tcp" then "/" + r.protocol else "") + (if r.acl.Some? then "(acl:" + r.acl.value + ")" else "")
  }

  lemma StrParts(r: Remote)
    requires Named(r)
    ensures r.Str() == r.localHost + ":" + (r.localPort + ":" + (r.remoteHost + ":" + (r.remotePort + Suffix(r))))
  {
    assert r.Target() == r.remoteHost + ":" + r.remotePort;
  }

  lemma DigitsFirst(a: string, x: string, b: string, y: string)
    requires a + x == b + y && |a| <= |b|
    requires forall i :: 0 <= i < |b| ==> IsDigit(b[i])
    requires x != "" ==> !IsDigit(x[0])
    ensures a == b && x == y
  {
    var s := a + x;
    assert a == s[..|a|] && b == s[..|b|] && x == s[|a|..] && y == s[|b|..];
  }

  lemma SuffixTellsProtocol(a: Remote, b: Remote)
    requires Named(a) && Named(b) && Suffix(a) == Suffix(b)
    ensures a.protocol == b.protocol
  {
    if a.protocol != "tcp" {
      assert Suffix(a)[0] == '/' && Suffix(a)[1] == a.protocol[0];
    }
    if b.protocol != "tcp" {
      assert Suffix(b)[0] == '/' && Suffix(b)[1] == b.protocol[0];
    }
  }

  /** Tunnels with one String() have one local side and one protocol. */
  lemma SameStrSameProtocol(a: Remote, b: Remote)
    requires Named(a) && Named(b) && a.Str() == b.Str()
    ensures a.localPort == b.localPort && a.protocol == b.protocol
  {
    StrParts(a);
    StrParts(b);
    var x, y := a.remotePort + Suffix(a), b.remotePort + Suffix(b);
    FirstField(a.localHost, a.localPort + ":" + (a.remoteHost + ":" + x),
               b.localHost, b.localPort + ":" + (b.remoteHost + ":" + y));
    FirstField(a.localPort, a.remoteHost + ":" + x, b.localPort, b.remoteHost + ":" + y);
    FirstField(a.remoteHost, x, b.remoteHost, y);
    if |a.remotePort| <= |b.remotePort| {
      DigitsFirst(a.remotePort, Suffix(a), b.remotePort, Suffix(b));
    } else {
      DigitsFirst(b.remotePort, Suffix(b), a.remotePort, Suffix(a));
    }
    SuffixTellsProtocol(a, b);
  }

  // ----- the draws of a batch -----

  function CountOpen(rs: seq<Remote>): nat {
    if rs == [] then 0
    else CountOpen(rs[..|rs| - 1]) + if rs[|rs| - 1].IsLocalSpecified() then 0 else 1
  }

  lemma CountOpenStep(rs: seq<Remote>, k: nat)
    requires k < |rs|
    ensures CountOpen(rs[..k + 1]) == CountOpen(rs[..k]) + if rs[k].IsLocalSpecified() then 0 else 1
  {
    assert rs[..k + 1][..k] == rs[..k];
  }

  lemma {:induction false} CountOpenGrows(rs: seq<Remote>, i: nat, j: nat)
    requires i <= j <= |rs|
    ensures CountOpen(rs[..i]) <= CountOpen(rs[..j])
    ensures i < j && !rs[i].IsLocalSpecified() ==> CountOpen(rs[..i]) < CountOpen(rs[..j])
    decreases j
  {
    if i == j {
    } else {
      CountOpenGrows(rs, i, j - 1);
      CountOpenStep(rs, j - 1);
    }
  }

  /** Remote `k` names no local port, and got the one that was drawn for it. */
  ghost predicate OpenAt(plan: seq<Remote>, answers: seq<Port>, grants: seq<P.Grant>, k: nat)
    requires k < |plan| && k < |answers|
  {
    var m := CountOpen(plan[..k]);
    m < |grants| && grants[m].protocol == plan[k].protocol && answers[k] == Itoa(grants[m].port)
  }

  /** Remote `k` names a local port that was in the pool after the draws before it. */
  ghost predicate FixedAt(plan: seq<Remote>, pools: P.Pools, grants: seq<P.Grant>, k: nat)
    requires k < |plan|
  {
    var m, port := CountOpen(plan[..k]), Atoi(plan[k].localPort);
    && m <= |grants| && port.Some? && P.Ready(P.TakeAll(pools, grants[..m]), plan[k].protocol)
    && port.value in P.Pool(P.TakeAll(pools, grants[..m]), plan[k].protocol)
  }

  /** The first `n` remotes have passed: `grants` were drawn from `pools`, one for each remote without a local
      port, and the others named ports that were free. */
  ghost predicate Drawn(plan: seq<Remote>, answers: seq<Port>, pools: P.Pools, grants: seq<P.Grant>, n: nat) {
    && n <= |plan| && |answers| == n && |grants| == CountOpen(plan[..n]) && P.Served(pools, grants)
    && (forall k :: 0 <= k < n && !plan[k].IsLocalSpecified() ==> OpenAt(plan, answers, grants, k))
    && (forall k :: 0 <= k < n && plan[k].IsLocalSpecified() ==> FixedAt(plan, pools, grants, k))
  }

  function Supplied(answers: seq<Port>): Supply {
    (k: nat) => if k < |answers| then Some(answers[k]) else None
  }

  // ----- which batches are kept apart -----

  lemma LocatedIsNamed(r: Remote, n: nat)
    requires Named(r)
    ensures Named(Locate(r, Itoa(n)))
  {
    AtoiOfItoa(n);
  }

  lemma SomeSubProtocol(protocol: string) returns (p: string)
    ensures p in P.SubProtocols(protocol)
  {
    p := P.SubProtocols(protocol)[0];
  }

  /** Two drawn ports: the distributor keeps the tunnels apart. */
  lemma OpenPairDiffers(plan: seq<Remote>, answers: seq<Port>, pools: P.Pools, grants: seq<P.Grant>, j: nat, i: nat)
    requires AllNamed(plan) && Drawn(plan, answers, pools, grants, |plan|) && j < i < |plan|
    requires !plan[j].IsLocalSpecified() && !plan[i].IsLocalSpecified()
    ensures Locate(plan[j], answers[j]).Str() != Locate(plan[i], answers[i]).Str()
  {
    var mj, mi := CountOpen(plan[..j]), CountOpen(plan[..i]);
    assert OpenAt(plan, answers, grants, j) && OpenAt(plan, answers, grants, i);
    CountOpenGrows(plan, j, i);
    LocatedIsNamed(plan[j], grants[mj].port);
    LocatedIsNamed(plan[i], grants[mi].port);
    AtoiOfItoa(grants[mj].port);
    AtoiOfItoa(grants[mi].port);
    if Locate(plan[j], answers[j]).Str() == Locate(plan[i], answers[i]).Str() {
      SameStrSameProtocol(Locate(plan[j], answers[j]), Locate(plan[i], answers[i]));
      var p := SomeSubProtocol(plan[i].protocol);
      P.GrantsAreDistinct(pools, grants, mj, mi, p);
    }
  }

  /** A port that was drawn has left the pools of its protocol. */
  lemma GrantedIsGone(pools: P.Pools, grants: seq<P.Grant>, k: nat)
    requires P.Served(pools, grants) && k < |grants|
    requires P.Ready(P.TakeAll(pools, grants), grants[k].protocol)
    ensures grants[k].port !in P.Pool(P.TakeAll(pools, grants), grants[k].protocol)
  {
    var p := SomeSubProtocol(grants[k].protocol);
    assert P.ServedAt(pools, grants, k);
    P.TakeAllAccounts(pools, grants, p);
    assert grants[k].port in P.Given(grants, p);
  }

  /** A fixed port behind a drawn one: the port check keeps the tunnels apart, or fails the batch. */
  lemma FixedBehindOpenDiffers(plan: seq<Remote>, answers: seq<Port>, pools: P.Pools, grants: seq<P.Grant>,
                               j: nat, i: nat)
    requires AllNamed(plan) && Drawn(plan, answers, pools, grants, |plan|) && j < i < |plan|
    requires !plan[j].IsLocalSpecified() && plan[i].IsLocalSpecified()
    ensures Locate(plan[j], answers[j]).Str() != plan[i].Str()
  {
    var mj, mi := CountOpen(plan[..j]), CountOpen(plan[..i]);
    assert OpenAt(plan, answers, grants, j) && FixedAt(plan, pools, grants, i);
    CountOpenGrows(plan, j, i);
    LocatedIsNamed(plan[j], grants[mj].port);
    AtoiOfItoa(grants[mj].port);
    if Locate(plan[j], answers[j]).Str() == plan[i].Str() {
      SameStrSameProtocol(Locate(plan[j], answers[j]), plan[i]);
      P.ServedPrefix(pools, grants, mi);
      GrantedIsGone(pools, grants[..mi], mj);
    }
  }

  /** No remote of the batch has the String() of a remote before it that names its local port. */
  ghost predicate RepeatsNoFixed(plan: seq<Remote>, answers: seq<Port>)
    requires |answers| == |plan|
  {
    forall j, i :: 0 <= j < i < |plan| && plan[j].IsLocalSpecified() ==>
                     plan[j].Str() != Locate(plan[i], answers[i]).Str()
  }

  lemma PairDiffers(plan: seq<Remote>, answers: seq<Port>, pools: P.Pools, grants: seq<P.Grant>, j: nat, i: nat)
    requires AllNamed(plan) && Drawn(plan, answers, pools, grants, |plan|) && j < i < |plan|
    requires plan[j].IsLocalSpecified() ==> plan[j].Str() != Locate(plan[i], answers[i]).Str()
    ensures Locate(plan[j], answers[j]).Str() != Locate(plan[i], answers[i]).Str()
  {
    if plan[j].IsLocalSpecified() {
    } else if plan[i].IsLocalSpecified() {
      FixedBehindOpenDiffers(plan, answers, pools, grants, j, i);
    } else {
      OpenPairDiffers(plan, answers, pools, grants, j, i);
    }
  }

  lemma SuppliedAt(plan: seq<Remote>, answers: seq<Port>, k: nat)
    requires k < |plan| == |answers|
    ensures LocateAt(plan, Supplied(answers), k) == Locate(plan[k], answers[k])
  {
  }

  lemma KeptApartPairs(plan: seq<Remote>, answers: seq<Port>, j: nat, i: nat)
    requires |answers| == |plan| && KeptApart(plan, Supplied(answers)) && j < i < |plan|
    ensures Locate(plan[j], answers[j]).Str() != Locate(plan[i], answers[i]).Str()
  {
    LocateFromAt(plan, Supplied(answers), 0, j);
    LocateFromAt(plan, Supplied(answers), 0, i);
  }

  /** With ports from the distributor a batch is kept apart if and only if no remote has, with the port drawn
      for it, the String() of an earlier remote that names its port. */
  lemma DrawnIsKeptApartIff(plan: seq<Remote>, answers: seq<Port>, pools: P.Pools, grants: seq<P.Grant>)
    requires AllNamed(plan) && Drawn(plan, answers, pools, grants, |plan|)
    ensures KeptApart(plan, Supplied(answers)) <==> RepeatsNoFixed(plan, answers)
  {
    if KeptApart(plan, Supplied(answers)) {
      forall j, i | 0 <= j < i < |plan| && plan[j].IsLocalSpecified()
        ensures plan[j].Str() != Locate(plan[i], answers[i]).Str()
      {
        KeptApartPairs(plan, answers, j, i);
      }
    }
    if RepeatsNoFixed(plan, answers) {
      forall j, i | 0 <= j < i < |plan|
        ensures LocateAt(plan, Supplied(answers), j).Str() != LocateAt(plan, Supplied(answers), i).Str()
      {
        PairDiffers(plan, answers, pools, grants, j, i);
      }
      DistinctOneByOne(plan, Supplied(answers));
    }
  }

  // ----- the batch as it runs -----

  /** checkLocalPort */
  method CheckLocalPort(ports: P.PortDistributor, protocol: string, localPort: string) returns (ok: bool)
    requires ports.Valid() && P.Ready(ports.portsPools, protocol)
    ensures ok <==> Atoi(localPort).Some? && Atoi(localPort).value in ports.allowedPorts &&
                    Atoi(localPort).value in P.Pool(ports.portsPools, protocol)
  {
    var port := Atoi(localPort);
    if port.None? || port.value !in ports.allowedPorts {
      return false;
    }
    var busy := ports.IsPortBusy(protocol, port.value);
    return !busy;
  }

  /** The remotes with the ports they got. */
  function Placed(remotes: seq<Remote>, answers: seq<Port>): (r: seq<Remote>)
    requires |answers| <= |remotes|
    ensures |r| == |answers| && forall k :: 0 <= k < |r| ==> r[k] == Locate(remotes[k], answers[k])
  {
    seq(|answers|, k requires 0 <= k < |answers| => Locate(remotes[k], answers[k]))
  }

  /** How far a batch has come: the distributor has handed out `grants`, and the tunnels are started. */
  ghost predicate Progress(tunnels: seq<Remote>, remotes: seq<Remote>, now: P.Pools, answers: seq<Port>,
                           pools: P.Pools, grants: seq<P.Grant>, started: seq<Remote>)
  {
    && P.Ready(now, P.TCP_UDP) && now == P.TakeAll(pools, grants) && pools.Keys == now.Keys
    && Drawn(remotes, answers, pools, grants, |answers|)
    && started == AddAll(tunnels, Placed(remotes, answers))
  }

  lemma NoProgress(tunnels: seq<Remote>, remotes: seq<Remote>, pools: P.Pools)
    requires P.Ready(pools, P.TCP_UDP)
    ensures Progress(tunnels, remotes, pools, [], pools, [], tunnels)
  {
    assert remotes[..0] == [];
  }

  lemma PlacedOneMore(tunnels: seq<Remote>, remotes: seq<Remote>, answers: seq<Port>, port: Port)
    requires |answers| < |remotes|
    ensures AddAll(tunnels, Placed(remotes, answers + [port])) ==
            StartOne(AddAll(tunnels, Placed(remotes, answers)), Locate(remotes[|answers|], port))
  {
    assert Placed(remotes, answers + [port]) == Placed(remotes, answers) + [Locate(remotes[|answers|], port)];
    AddAllLast(tunnels, Placed(remotes, answers), Locate(remotes[|answers|], port));
  }

  lemma DrawnEarlier(plan: seq<Remote>, answers: seq<Port>, pools: P.Pools, grants: seq<P.Grant>,
                     port: Port, more: seq<P.Grant>, k: nat)
    requires Drawn(plan, answers, pools, grants, |answers|) && k < |answers| < |plan| && grants <= more
    ensures !plan[k].IsLocalSpecified() ==> OpenAt(plan, answers + [port], more, k)
    ensures plan[k].IsLocalSpecified() ==> FixedAt(plan, pools, more, k)
  {
    CountOpenGrows(plan, k, |answers|);
    if plan[k].IsLocalSpecified() {
      assert FixedAt(plan, pools, grants, k);
      var m := CountOpen(plan[..k]);
      assert more[..m] == grants[..m];
    } else {
      assert OpenAt(plan, answers, grants, k);
    }
  }

  lemma DrawnOneMore(plan: seq<Remote>, answers: seq<Port>, pools: P.Pools, grants: seq<P.Grant>,
                     port: Port, more: seq<P.Grant>)
    requires Drawn(plan, answers, pools, grants, |answers|) && |answers| < |plan| && grants <= more
    requires P.Served(pools, more) && |more| == CountOpen(plan[..|answers| + 1])
    requires var k := |answers|;
             if plan[k].IsLocalSpecified() then FixedAt(plan, pools, more, k)
             else OpenAt(plan, answers + [port], more, k)
    ensures Drawn(plan, answers + [port], pools, more, |answers| + 1)
  {
    forall k | 0 <= k < |answers|
      ensures !plan[k].IsLocalSpecified() ==> OpenAt(plan, answers + [port], more, k)
      ensures plan[k].IsLocalSpecified() ==> FixedAt(plan, pools, more, k)
    {
      DrawnEarlier(plan, answers, pools, grants, port, more, k);
    }
  }

  lemma KnownIsReady(pools: P.Pools, protocol: string)
    requires P.Ready(pools, P.TCP_UDP) && (protocol == P.TCP || protocol == P.UDP || protocol == P.TCP_UDP)
    ensures P.Ready(pools, protocol)
  {
    assert P.TCP in P.SubProtocols(P.TCP_UDP) && P.UDP in P.SubProtocols(P.TCP_UDP);
  }

  lemma OpenAtNow(plan: seq<Remote>, answers: seq<Port>, grants: seq<P.Grant>, port: nat)
    requires |answers| < |plan| && CountOpen(plan[..|answers|]) == |grants|
    ensures OpenAt(plan, answers + [Itoa(port)], grants + [P.Grant(plan[|answers|].protocol, port)], |answers|)
  {
  }

  lemma DrawnOpen(plan: seq<Remote>, answers: seq<Port>, pools: P.Pools, grants: seq<P.Grant>, port: nat)
    requires Drawn(plan, answers, pools, grants, |answers|) && |answers| < |plan|
    requires !plan[|answers|].IsLocalSpecified() && P.Ready(pools, plan[|answers|].protocol)
    requires P.Ready(P.TakeAll(pools, grants), plan[|answers|].protocol)
    requires port in P.Pool(P.TakeAll(pools, grants), plan[|answers|].protocol)
    ensures Drawn(plan, answers + [Itoa(port)], pools, grants + [P.Grant(plan[|answers|].protocol, port)],
                  |answers| + 1)
  {
    var g := P.Grant(plan[|answers|].protocol, port);
    P.ServedOneMore(pools, grants, g);
    CountOpenStep(plan, |answers|);
    OpenAtNow(plan, answers, grants, port);
    DrawnOneMore(plan, answers, pools, grants, Itoa(port), grants + [g]);
  }

  lemma OpenProgress(tunnels: seq<Remote>, remotes: seq<Remote>, now: P.Pools, answers: seq<Port>,
                     pools: P.Pools, grants: seq<P.Grant>, started: seq<Remote>, port: nat)
    requires Progress(tunnels, remotes, now, answers, pools, grants, started)
    requires |answers| < |remotes| && !remotes[|answers|].IsLocalSpecified() && Named(remotes[|answers|])
    requires P.Ready(now, remotes[|answers|].protocol) && port in P.Pool(now, remotes[|answers|].protocol)
    ensures var r := remotes[|answers|];
            Progress(tunnels, remotes, P.Take(now, r.protocol, port), answers + [Itoa(port)], pools,
                     grants + [P.Grant(r.protocol, port)], StartOne(started, Locate(r, Itoa(port))))
  {
    var r := remotes[|answers|];
    KnownIsReady(pools, r.protocol);
    DrawnOpen(remotes, answers, pools, grants, port);
    P.TakeOneMore(pools, grants, P.Grant(r.protocol, port));
    PlacedOneMore(tunnels, remotes, answers, Itoa(port));
  }

  lemma FixedAtNow(plan: seq<Remote>, pools: P.Pools, grants: seq<P.Grant>, k: nat)
    requires k < |plan| && CountOpen(plan[..k]) == |grants| && Atoi(plan[k].localPort).Some?
    requires P.Ready(P.TakeAll(pools, grants), plan[k].protocol)
    requires Atoi(plan[k].localPort).value in P.Pool(P.TakeAll(pools, grants), plan[k].protocol)
    ensures FixedAt(plan, pools, grants, k)
  {
    assert grants[..|grants|] == grants;
  }

  lemma DrawnFixed(plan: seq<Remote>, answers: seq<Port>, pools: P.Pools, grants: seq<P.Grant>)
    requires Drawn(plan, answers, pools, grants, |answers|) && |answers| < |plan|
    requires plan[|answers|].IsLocalSpecified() && PortIsFree(P.TakeAll(pools, grants), plan[|answers|])
    ensures Drawn(plan, answers + ["0"], pools, grants, |answers| + 1)
  {
    CountOpenStep(plan, |answers|);
    FixedAtNow(plan, pools, grants, |answers|);
    DrawnOneMore(plan, answers, pools, grants, "0", grants);
  }

  lemma FixedProgress(tunnels: seq<Remote>, remotes: seq<Remote>, now: P.Pools, answers: seq<Port>,
                      pools: P.Pools, grants: seq<P.Grant>, started: seq<Remote>)
    requires Progress(tunnels, remotes, now, answers, pools, grants, started)
    requires |answers| < |remotes| && remotes[|answers|].IsLocalSpecified()
    requires PortIsFree(now, remotes[|answers|])
    ensures Progress(tunnels, remotes, now, answers + ["0"], pools, grants, StartOne(started, remotes[|answers|]))
  {
    DrawnFixed(remotes, answers, pools, grants);
    PlacedOneMore(tunnels, remotes, answers, "0");
  }

  predicate PortIsFree(now: P.Pools, r: Remote) {
    Atoi(r.localPort).Some? && P.Ready(now, r.protocol) && Atoi(r.localPort).value in P.Pool(now, r.protocol)
  }

  /** The port part of one round of startClientTunnels: draw a port, or check the one that is named. */
  method PortFor(remote: Remote, ports: P.PortDistributor, listing: P.Listing) returns (r: Option<nat>)
    requires ports.Valid() && P.Ready(ports.portsPools, remote.protocol)
    modifies ports
    ensures ports.Valid()
    ensures remote.IsLocalSpecified() ==> ports.portsPools == old(ports.portsPools)
    ensures remote.IsLocalSpecified() && r.Some? ==> PortIsFree(ports.portsPools, remote)
    ensures !remote.IsLocalSpecified() && r.Some? ==>
              && r.value in P.Pool(old(ports.portsPools), remote.protocol)
              && ports.portsPools == P.Take(old(ports.portsPools), remote.protocol, r.value)
  {
    if remote.IsLocalSpecified() {
      var free := CheckLocalPort(ports, remote.protocol, remote.localPort);
      return if free then Some(0) else None;
    }
    var drawn := ports.GetRandomPort(remote.protocol, listing);
    return if drawn.Port? then Some(drawn.port) else None;
  }

  /** The port that a remote is given; one that names its port needs none. */
  function Answer(r: Remote, port: nat): Port {
    if r.IsLocalSpecified() then "0" else Itoa(port)
  }

  function Also(answers: seq<Port>, port: Port): seq<Port> {
    answers + [port]
  }

  /** The remote with the port it got, and what is known then. */
  lemma RoundProgress(tunnels: seq<Remote>, remotes: seq<Remote>, was: P.Pools, now: P.Pools, answers: seq<Port>,
                      pools: P.Pools, grants: seq<P.Grant>, started: seq<Remote>, port: nat)
    requires Progress(tunnels, remotes, was, answers, pools, grants, started)
    requires |answers| < |remotes| && Named(remotes[|answers|]) && P.Ready(was, remotes[|answers|].protocol)
    requires var r := remotes[|answers|];
             if r.IsLocalSpecified() then now == was && PortIsFree(was, r)
             else port in P.Pool(was, r.protocol) && now == P.Take(was, r.protocol, port)
    ensures var r := remotes[|answers|];
            var answer := Answer(r, port);
            Progress(tunnels, remotes, now, Also(answers, answer), pools,
                     if r.IsLocalSpecified() then grants else grants + [P.Grant(r.protocol, port)],
                     StartOne(started, Locate(r, answer)))
  {
    if remotes[|answers|].IsLocalSpecified() {
      FixedProgress(tunnels, remotes, was, answers, pools, grants, started);
    } else {
      OpenProgress(tunnels, remotes, was, answers, pools, grants, started, port);
    }
  }

  /** startClientTunnels with the distributor it uses. `starts(k)` tells whether the ACL of the k-th remote can be
      parsed and its listener started. */
  method StartBatch(tunnels: seq<Remote>, remotes: seq<Remote>, ports: P.PortDistributor, listing: P.Listing,
                    starts: nat -> bool)
    returns (ok: bool, started: seq<Remote>, ghost answers: seq<Port>, ghost pools: P.Pools, ghost grants: seq<P.Grant>)
    requires ports.Valid() && AllNamed(remotes)
    modifies ports
    ensures ports.Valid() && |answers| <= |remotes|
    ensures started == AddAll(tunnels, Placed(remotes, answers))
    ensures ok ==> Drawn(remotes, answers, pools, grants, |remotes|) && ports.portsPools == P.TakeAll(pools, grants)
    ensures ok ==> forall p :: p in {P.TCP, P.UDP} ==>
              p in pools && pools[p] == ports.allowedPorts - listing(p).GetOr({})
  {
    started, answers, pools, grants := tunnels, [], ports.portsPools, [];
    ok := ports.Refresh(listing);
    pools := ports.portsPools;
    if !ok {
      assert Placed(remotes, []) == [];
      return;
    }
    NoProgress(tunnels, remotes, pools);
    for k := 0 to |remotes|
      invariant ports.Valid() && |answers| == k
      invariant Progress(tunnels, remotes, ports.portsPools, answers, pools, grants, started)
    {
      var remote := remotes[k];
      ghost var was := ports.portsPools;
      KnownIsReady(was, remote.protocol);
      var port := PortFor(remote, ports, listing);
      if port.None? || !starts(k) {
        return false, started, answers, pools, grants;
      }
      RoundProgress(tunnels, remotes, was, ports.portsPools, answers, pools, grants, started, port.value);
      var answer := Answer(remote, port.value);
      answers := Also(answers, answer);
      grants := if remote.IsLocalSpecified() then grants else grants + [P.Grant(remote.protocol, port.value)];
      started := StartTunnel(started, Locate(remote, answer));
    }
    return true, started, answers, pools, grants;
  }

  /** A client without tunnels gets one for each remote of a batch if and only if no remote has, with the port
      drawn for it, the String() of an earlier remote that names its port. */
  lemma BatchLosesNoTunnelIff(remotes: seq<Remote>, answers: seq<Port>, pools: P.Pools, grants: seq<P.Grant>,
                              started: seq<Remote>)
    requires AllNamed(remotes) && Drawn(remotes, answers, pools, grants, |remotes|)
    requires started == AddAll([], Placed(remotes, answers))
    ensures |started| <= |remotes|
    ensures |started| == |remotes| <==> RepeatsNoFixed(remotes, answers)
  {
    DrawnIsKeptApartIff(remotes, answers, pools, grants);
    BatchIsStart([], remotes, answers);
    AllStarted(remotes, Supplied(answers), started);
  }

  lemma PlacedIsLocated(remotes: seq<Remote>, answers: seq<Port>)
    requires |answers| == |remotes|
    ensures Placed(remotes, answers) == LocateFrom(remotes, Supplied(answers), 0)
  {
    var rs := LocateFrom(remotes, Supplied(answers), 0);
    forall k | 0 <= k < |remotes| ensures rs[k] == Locate(remotes[k], answers[k]) {
      LocateFromAt(remotes, Supplied(answers), 0, k);
      SuppliedAt(remotes, answers, k);
    }
    assert |Placed(remotes, answers)| == |rs|;
  }

  lemma {:induction false} AllSupplied(tunnels: seq<Remote>, remotes: seq<Remote>, answers: seq<Port>, k: nat)
    requires |answers| == |remotes| && k <= |remotes|
    ensures StartFrom(tunnels, remotes, Supplied(answers), k).Some?
    decreases |remotes| - k
  {
    if k == |remotes| {
    } else {
      AllSupplied(StartOne(tunnels, Locate(remotes[k], answers[k])), remotes, answers, k + 1);
    }
  }

  /** What a batch starts with the distributor is what it starts with the ports as given. */
  lemma BatchIsStart(tunnels: seq<Remote>, remotes: seq<Remote>, answers: seq<Port>)
    requires |answers| == |remotes|
    ensures StartFrom(tunnels, remotes, Supplied(answers), 0) == Some(AddAll(tunnels, Placed(remotes, answers)))
  {
    AllSupplied(tunnels, remotes, answers, 0);
    PlacedIsLocated(remotes, answers);
    StartFromAdds(tunnels, remotes, Supplied(answers), 0, StartFrom(tunnels, remotes, Supplied(answers), 0).value);
  }
}
