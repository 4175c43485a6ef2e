/** Handing out local ports (server/ports/port_distributor.go): one pool per protocol, and a joint mode
    that needs a port free in both. */
module Ports {
  import opened Text

  const TCP := "tcp"
  const UDP := "udp"
  const TCP_UDP := "tcp+udp"

  /** The pools a request draws from. */
  function SubProtocols(protocol: string): seq<string> {
    if protocol == TCP_UDP then [TCP, UDP] else [protocol]
  }

  type Pools = map<string, set<nat>>

  predicate Ready(pools: Pools, protocol: string) {
    forall p :: p in SubProtocols(protocol) ==> p in pools
  }

  /** getPool: for the joint mode the intersection of both pools. */
  function Pool(pools: Pools, protocol: string): set<nat>
    requires Ready(pools, protocol)
  {
    if protocol == TCP_UDP then pools[TCP] * pools[UDP] else pools[protocol]
  }

  /** The pools without the port that was handed out. */
  function Take(pools: Pools, protocol: string, port: nat): Pools {
    map p | p in pools :: if p in SubProtocols(protocol) then pools[p] - {port} else pools[p]
  }

  /** A joint request takes a port that both pools have out of both, any other one out of its own pool only. */
  lemma TakeMeans(pools: Pools, protocol: string, port: nat)
    ensures Ready(pools, "tcp+udp") <==> "tcp" in pools && "udp" in pools
    ensures protocol != "tcp+udp" ==> (Ready(pools, protocol) <==> protocol in pools)
    ensures protocol == "tcp+udp" && "tcp" in pools && "udp" in pools ==>
              && (port in Pool(pools, protocol) <==> port in pools["tcp"] && port in pools["udp"])
              && Take(pools, protocol, port) == pools["tcp" := pools["tcp"] - {port}]["udp" := pools["udp"] - {port}]
    ensures protocol != "tcp+udp" && protocol in pools ==>
              && (port in Pool(pools, protocol) <==> port in pools[protocol])
              && Take(pools, protocol, port) == pools[protocol := pools[protocol] - {port}]
  {
    assert "tcp" in SubProtocols("tcp+udp") && "udp" in SubProtocols("tcp+udp");
    assert forall p :: p in SubProtocols("tcp+udp") ==> p == "tcp" || p == "udp";
    assert protocol != "tcp+udp" ==> SubProtocols(protocol) == [protocol];
  }

  datatype Result = Port(port: nat) | NoPortsAvailable | ListingFailed

  /** What the operating system reports as busy for a protocol; None is an error. */
  type Listing = string -> Option<set<nat>>

  ghost predicate Accounted(pools: Pools, busy: Pools, given: Pools, allowed: set<nat>) {
    && busy.Keys == given.Keys == pools.Keys
    && forall p :: p in pools ==> pools[p] !! given[p] && pools[p] + given[p] == allowed - busy[p]
  }

  /** The handed-out ports with one more. */
  ghost function Record(given: Pools, protocol: string, port: nat): Pools {
    map p | p in given :: if p in SubProtocols(protocol) then given[p] + {port} else given[p]
  }

  lemma TakeIsAccounted(pools: Pools, busy: Pools, given: Pools, allowed: set<nat>, protocol: string, port: nat)
    requires Accounted(pools, busy, given, allowed) && Ready(pools, protocol) && port in Pool(pools, protocol)
    ensures Accounted(Take(pools, protocol, port), busy, Record(given, protocol, port), allowed)
    ensures forall p :: p in SubProtocols(protocol) ==>
              port in pools[p] && port !in given[p] && port in allowed - busy[p]
  {
    forall p | p in SubProtocols(protocol) ensures port in pools[p] && port in pools[p] + given[p] {
    }
  }

  class PortDistributor {
    const allowedPorts: set<nat>
    var portsPools: Pools

    /** Ports that were busy when a pool was refreshed, and ports handed out from it since. */
    ghost var busy: Pools
    ghost var given: Pools

    /** Pool and handed-out ports are disjoint and together are what is allowed and was not busy. */
    ghost predicate Valid()
      reads this
    {
      Accounted(portsPools, busy, given, allowedPorts)
    }

    constructor (allowed: set<nat>)
      ensures Valid() && allowedPorts == allowed && portsPools == map[]
    {
      allowedPorts, portsPools, busy, given := allowed, map[], map[], map[];
    }

    /** refresh of one protocol */
    method RefreshOne(protocol: string, listing: Listing) returns (ok: bool)
      requires Valid()
      modifies this
      ensures Valid() && ok == listing(protocol).Some?
      ensures ok ==> && portsPools == old(portsPools)[protocol := allowedPorts - listing(protocol).value]
                     && given == old(given)[protocol := {}] && busy == old(busy)[protocol := listing(protocol).value]
      ensures !ok ==> portsPools == old(portsPools) && given == old(given) && busy == old(busy)
    {
      var busyPorts := listing(protocol);
      if busyPorts.None? {
        return false;
      }
      portsPools := portsPools[protocol := allowedPorts - busyPorts.value];
      busy, given := busy[protocol := busyPorts.value], given[protocol := {}];
      return true;
    }

    method Refresh(listing: Listing) returns (ok: bool)
      requires Valid()
      modifies this
      ensures Valid()
      ensures ok ==> Ready(portsPools, TCP_UDP) && given[TCP] == {} && given[UDP] == {}
      ensures ok ==> forall p :: p in {TCP, UDP} ==> portsPools[p] == allowedPorts - listing(p).GetOr({})
    {
      ok := RefreshOne(TCP, listing);
      if !ok {
        return false;
      }
      ok := RefreshOne(UDP, listing);
    }

    /** The loop of GetRandomPort that fills in missing pools. */
    method EnsurePools(protocol: string, listing: Listing) returns (ok: bool)
      requires Valid()
      modifies this
      ensures Valid() && (ok ==> Ready(portsPools, protocol))
      ensures forall p :: p in old(portsPools) ==>
                && p in portsPools && portsPools[p] == old(portsPools)[p]
                && given[p] == old(given)[p] && busy[p] == old(busy)[p]
      ensures forall p :: p in portsPools && p !in old(portsPools) ==> given[p] == {}
      ensures Ready(old(portsPools), protocol) ==> ok && portsPools == old(portsPools)
      ensures !ok ==> exists p :: p in SubProtocols(protocol) && listing(p).None?
    {
      var subProtocols := SubProtocols(protocol);
      for i := 0 to |subProtocols|
        invariant Valid() && forall j :: 0 <= j < i ==> subProtocols[j] in portsPools
        invariant forall p :: p in old(portsPools) ==>
                    && p in portsPools && portsPools[p] == old(portsPools)[p]
                    && given[p] == old(given)[p] && busy[p] == old(busy)[p]
        invariant forall p :: p in portsPools && p !in old(portsPools) ==> given[p] == {}
        invariant Ready(old(portsPools), protocol) ==> portsPools == old(portsPools)
      {
        if subProtocols[i] !in portsPools {
          ok := RefreshOne(subProtocols[i], listing);
          if !ok {
            return false;
          }
        }
      }
      return true;
    }

    /** GetRandomPort: some port that is free in every pool concerned, which it then leaves; the request
        fails only when there is no such port, or when a missing pool cannot be filled in. */
    method GetRandomPort(protocol: string, listing: Listing) returns (r: Result)
      requires Valid()
      modifies this
      ensures Valid()
      ensures r.Port? ==> forall p :: p in SubProtocols(protocol) ==>
                p in portsPools && given[p] == (if p in old(given) then old(given)[p] else {}) + {r.port} &&
                (p in old(given) ==> r.port !in old(given)[p]) && r.port in allowedPorts - busy[p]
      ensures r.Port? && Ready(old(portsPools), protocol) ==>
                r.port in Pool(old(portsPools), protocol) && portsPools == Take(old(portsPools), protocol, r.port)
      ensures r.NoPortsAvailable? ==>
                Ready(portsPools, protocol) &&
                forall port :: port in allowedPorts ==>
                  exists p :: p in SubProtocols(protocol) && (port in busy[p] || port in given[p])
      ensures r.ListingFailed? ==> exists p :: p in SubProtocols(protocol) && listing(p).None?
    {
      var ok := EnsurePools(protocol, listing);
      if !ok {
        return ListingFailed;
      }
      if Pool(portsPools, protocol) == {} {
        NoneLeft(portsPools, busy, given, allowedPorts, protocol);
        return NoPortsAvailable;
      }
      var port := Pop(protocol);
      return Port(port);
    }

    /** The rest of GetRandomPort: pop a port and remove it from every pool concerned. */
    method Pop(protocol: string) returns (port: nat)
      requires Valid() && Ready(portsPools, protocol) && Pool(portsPools, protocol) != {}
      modifies this`portsPools, this`given
      ensures Valid() && port in Pool(old(portsPools), protocol)
      ensures portsPools == Take(old(portsPools), protocol, port)
      ensures forall p :: p in SubProtocols(protocol) ==>
                && p in portsPools && p in old(given) && port !in old(given)[p]
                && given[p] == old(given)[p] + {port} && port in allowedPorts - busy[p]
    {
      port :| port in Pool(portsPools, protocol);
      TakeIsAccounted(portsPools, busy, given, allowedPorts, protocol, port);
      given := Record(given, protocol, port);
      portsPools := Take(portsPools, protocol, port);
    }

    method IsPortBusy(protocol: string, port: nat) returns (isBusy: bool)
      requires Valid() && Ready(portsPools, protocol)
      ensures isBusy <==> port !in Pool(portsPools, protocol)
      ensures isBusy <==> port !in allowedPorts ||
                          exists p :: p in SubProtocols(protocol) && (port in busy[p] || port in given[p])
    {
      isBusy := port !in Pool(portsPools, protocol);
      assert forall p :: p in SubProtocols(protocol) ==>
               (port in portsPools[p] <==> port in allowedPorts && port !in busy[p] && port !in given[p]);
      if protocol == TCP_UDP {
        assert TCP in SubProtocols(protocol) && UDP in SubProtocols(protocol);
      } else {
        assert protocol in SubProtocols(protocol);
      }
    }
  }

  lemma NoneLeft(pools: Pools, busy: Pools, given: Pools, allowed: set<nat>, protocol: string)
    requires Accounted(pools, busy, given, allowed) && Ready(pools, protocol) && Pool(pools, protocol) == {}
    ensures forall port :: port in allowed ==>
              exists p :: p in SubProtocols(protocol) && (port in busy[p] || port in given[p])
  {
    forall port | port in allowed
      ensures exists p :: p in SubProtocols(protocol) && (port in busy[p] || port in given[p])
    {
      var p := if protocol == TCP_UDP then (if port in pools[TCP] then UDP else TCP) else protocol;
      assert p in SubProtocols(protocol);
      assert port !in Pool(pools, protocol);
      assert port in allowed - busy[p] ==> port in pools[p] + given[p];
    }
  }

  // ----- any number of requests between two refreshes -----

  datatype Grant = Grant(protocol: string, port: nat)

  function TakeAll(pools: Pools, grants: seq<Grant>): Pools {
    if grants == [] then pools
    else Take(TakeAll(pools, grants[..|grants| - 1]), grants[|grants| - 1].protocol, grants[|grants| - 1].port)
  }

  /** The k-th port was in the pool for its protocol when it was handed out. */
  predicate ServedAt(pools: Pools, grants: seq<Grant>, k: nat)
    requires k < |grants|
  {
    && Ready(pools, grants[k].protocol) && Ready(TakeAll(pools, grants[..k]), grants[k].protocol)
    && grants[k].port in Pool(TakeAll(pools, grants[..k]), grants[k].protocol)
  }

  ghost predicate Served(pools: Pools, grants: seq<Grant>) {
    forall k :: 0 <= k < |grants| ==> ServedAt(pools, grants, k)
  }

  lemma ServedSame(pools: Pools, grants: seq<Grant>, more: seq<Grant>, k: nat)
    requires k < |grants| && grants <= more
    ensures ServedAt(pools, grants, k) <==> ServedAt(pools, more, k)
  {
    assert more[..k] == grants[..k];
  }

  lemma ServedPrefix(pools: Pools, grants: seq<Grant>, m: nat)
    requires Served(pools, grants) && m <= |grants|
    ensures Served(pools, grants[..m])
  {
    forall k | 0 <= k < m ensures ServedAt(pools, grants[..m], k) {
      ServedSame(pools, grants[..m], grants, k);
    }
  }

  lemma ServedOneMore(pools: Pools, grants: seq<Grant>, g: Grant)
    requires Served(pools, grants) && Ready(pools, g.protocol) && Ready(TakeAll(pools, grants), g.protocol)
    requires g.port in Pool(TakeAll(pools, grants), g.protocol)
    ensures Served(pools, grants + [g])
  {
    var more := grants + [g];
    assert more[..|grants|] == grants;
    assert ServedAt(pools, more, |grants|);
    forall k | 0 <= k < |grants| ensures ServedAt(pools, more, k) {
      ServedSame(pools, grants, more, k);
    }
  }

  lemma TakeOneMore(pools: Pools, grants: seq<Grant>, g: Grant)
    ensures TakeAll(pools, grants + [g]) == Take(TakeAll(pools, grants), g.protocol, g.port)
  {
    assert (grants + [g])[..|grants|] == grants;
  }

  /** What was handed out from the pool of a protocol. */
  function Given(grants: seq<Grant>, p: string): set<nat> {
    set g | g in grants && p in SubProtocols(g.protocol) :: g.port
  }

  lemma {:induction false} TakeAllAccounts(pools: Pools, grants: seq<Grant>, p: string)
    requires p in pools
    ensures p in TakeAll(pools, grants) && TakeAll(pools, grants)[p] == pools[p] - Given(grants, p)
    decreases |grants|
  {
    if grants == [] {
    } else {
      var n := |grants| - 1;
      TakeAllAccounts(pools, grants[..n], p);
      assert grants == grants[..n] + [grants[n]];
      var last := if p in SubProtocols(grants[n].protocol) then {grants[n].port} else {};
      assert Given(grants, p) == Given(grants[..n], p) + last;
    }
  }

  /** Two ports handed out between refreshes for requests that share a protocol are different, in any mix
      of tcp, udp and tcp+udp requests, and every one of them came from the pool of that protocol. */
  lemma GrantsAreDistinct(pools: Pools, grants: seq<Grant>, i: nat, j: nat, p: string)
    requires Served(pools, grants) && i < j < |grants|
    requires p in SubProtocols(grants[i].protocol) && p in SubProtocols(grants[j].protocol)
    ensures grants[i].port != grants[j].port && p in pools && grants[j].port in pools[p]
  {
    var before := TakeAll(pools, grants[..j]);
    assert ServedAt(pools, grants, j);
    TakeAllAccounts(pools, grants[..j], p);
    assert grants[j].port in Pool(before, grants[j].protocol);
    assert grants[j].port in before[p];
    assert grants[i] in grants[..j];
    assert grants[i].port in Given(grants[..j], p);
  }
}
