/** Tunnels of a client and what happens to them when the client reconnects
    (server/clients/client_service.go, share/models/remote.go). */
module Tunnels {
  import opened Text

  const ZERO_HOST := "0.0.0.0"

  /** models.Remote. `settings` stands for the fields that no code below reads or changes. */
  datatype Remote = Remote(
    protocol: string,
    localHost: string,
    localPort: string,
    localPortRandom: bool,
    remoteHost: string,
    remotePort: string,
    acl: Option<string>,
    settings: string)
  {
    predicate IsLocalSpecified() {
      localHost != "" && localPort != ""
    }

    /** Remote(): net.JoinHostPort of the remote side. */
    function Target(): string {
      if ':' in remoteHost then "[" + remoteHost + "]:" + remotePort
      else remoteHost + ":" + remotePort
    }

    /** String() */
    function Str(): string {
      localHost + ":" + localPort + ":" + Target() +
      (if protocol != "tcp" then "/" + protocol else "") +
      (if acl.Some? then "(acl:" + acl.value + ")" else "")
    }

    /** The remote with its local side forgotten. */
    function Blank(): Remote {
      this.(localHost := "", localPort := "")
    }
  }

  /** When a requested remote may take the place of a remembered tunnel. */
  predicate Fits(request: Remote, tunnel: Remote) {
    if request.IsLocalSpecified() then request.Str() == tunnel.Str()
    else tunnel.localPortRandom && SameTarget(request, tunnel)
  }

  predicate SameTarget(a: Remote, b: Remote) {
    a.Target() == b.Target() && a.acl == b.acl
  }

  // ----- the greedy matching as a function -----

  /** Tunnel `i` is unmarked and may serve the request. */
  predicate Free(was: seq<Remote>, marks: seq<bool>, r: Remote, i: int) {
    0 <= i < |was| && |marks| == |was| && !marks[i] && Fits(r, was[i])
  }

  /** The first free tunnel at or behind `from`, or |was|. */
  function FirstFree(was: seq<Remote>, marks: seq<bool>, r: Remote, from: nat): (i: nat)
    requires from <= |was|
    ensures from <= i <= |was|
    ensures i < |was| ==> Free(was, marks, r, i)
    ensures forall j :: from <= j < i ==> !Free(was, marks, r, j)
    decreases |was| - from
  {
    if from == |was| || Free(was, marks, r, from) then from else FirstFree(was, marks, r, from + 1)
  }

  /** One of the two passes, from request `k` on: the marks afterwards. */
  function Pass(was: seq<Remote>, req: seq<Remote>, k: nat, marks: seq<bool>, local: bool)
    : (r: Option<seq<bool>>)
    requires k <= |req| && |marks| == |was|
    ensures r.Some? ==> |r.value| == |was|
    decreases |req| - k
  {
    if k == |req| then Some(marks)
    else if req[k].IsLocalSpecified() != local then Pass(was, req, k + 1, marks, local)
    else
      var i := FirstFree(was, marks, req[k], 0);
      if i == |was| then None else Pass(was, req, k + 1, marks[i := true], local)
  }

  function Unmarked(n: nat): (marks: seq<bool>)
    ensures |marks| == n && forall i :: 0 <= i < n ==> !marks[i]
  {
    seq(n, _ => false)
  }

  /** Both passes, without the early exit. */
  function BothPasses(was: seq<Remote>, req: seq<Remote>): Option<seq<bool>> {
    match Pass(was, req, 0, Unmarked(|was|), true)
    case None => None
    case Some(marks) => Pass(was, req, 0, marks, false)
  }

  function Matched(was: seq<Remote>, req: seq<Remote>): Option<seq<bool>> {
    if |req| > |was| then None else BothPasses(was, req)
  }

  /** The unmarked tunnels in order; a random local port is forgotten. */
  function Leftover(was: seq<Remote>, marks: seq<bool>): seq<Remote>
    requires |marks| == |was|
  {
    if was == [] then []
    else
      var rest := Leftover(was[..|was| - 1], marks[..|was| - 1]);
      if marks[|was| - 1] then rest else rest + [Shape(was[|was| - 1])]
  }

  /** A tunnel up to the choice of its random port. */
  function Shape(r: Remote): Remote {
    if r.localPortRandom then r.Blank() else r
  }

  function Reestablish(was: seq<Remote>, req: seq<Remote>): seq<Remote> {
    match Matched(was, req)
    case None => []
    case Some(marks) => Leftover(was, marks)
  }

  /** The loop over the requests that name a local port; false is the early return. */
  method MarkFixed(was: seq<Remote>, req: seq<Remote>, oldMarked: array<bool>) returns (ok: bool)
    requires oldMarked.Length == |was|
    modifies oldMarked
    ensures Pass(was, req, 0, old(oldMarked[..]), true) == if ok then Some(oldMarked[..]) else None
  {
    for k := 0 to |req|
      invariant Pass(was, req, 0, old(oldMarked[..]), true) == Pass(was, req, k, oldMarked[..], true)
    {
      if req[k].IsLocalSpecified() {
        var i := 0;
        while i < |was| && (oldMarked[i] || req[k].Str() != was[i].Str())
          invariant 0 <= i <= |was|
          invariant FirstFree(was, oldMarked[..], req[k], 0) == FirstFree(was, oldMarked[..], req[k], i)
        {
          i := i + 1;
        }
        if i == |was| {
          return false;
        }
        ghost var marks := oldMarked[..];
        oldMarked[i] := true;
        assert oldMarked[..] == marks[i := true];
      }
    }
    return true;
  }

  /** The loop over the requests that leave the local port open. */
  method MarkRandom(was: seq<Remote>, req: seq<Remote>, oldMarked: array<bool>) returns (ok: bool)
    requires oldMarked.Length == |was|
    modifies oldMarked
    ensures Pass(was, req, 0, old(oldMarked[..]), false) == if ok then Some(oldMarked[..]) else None
  {
    for k := 0 to |req|
      invariant Pass(was, req, 0, old(oldMarked[..]), false) == Pass(was, req, k, oldMarked[..], false)
    {
      if !req[k].IsLocalSpecified() {
        var i := 0;
        while i < |was| && (oldMarked[i] || !was[i].localPortRandom ||
                            req[k].Target() != was[i].Target() || req[k].acl != was[i].acl)
          invariant 0 <= i <= |was|
          invariant FirstFree(was, oldMarked[..], req[k], 0) == FirstFree(was, oldMarked[..], req[k], i)
        {
          i := i + 1;
        }
        if i == |was| {
          return false;
        }
        ghost var marks := oldMarked[..];
        oldMarked[i] := true;
        assert oldMarked[..] == marks[i := true];
      }
    }
    return true;
  }

  /** getTunnelsToReestablish, with its array of marks. */
  method GetTunnelsToReestablish(was: seq<Remote>, req: seq<Remote>) returns (res: seq<Remote>)
    ensures res == Reestablish(was, req)
  {
    if |req| > |was| {
      return [];
    }
    var oldMarked := new bool[|was|](_ => false);
    assert oldMarked[..] == Unmarked(|was|);
    var ok := MarkFixed(was, req, oldMarked);
    if !ok {
      return [];
    }
    ok := MarkRandom(was, req, oldMarked);
    if !ok {
      return [];
    }
    res := Unmatched(was, oldMarked);
  }

  /** The last loop: the tunnels that are left, in order. */
  method Unmatched(was: seq<Remote>, oldMarked: array<bool>) returns (res: seq<Remote>)
    requires oldMarked.Length == |was|
    ensures res == Leftover(was, oldMarked[..])
  {
    res := [];
    for i := 0 to |was|
      invariant res == Leftover(was[..i], oldMarked[..i])
    {
      assert was[..i + 1][..i] == was[..i] && oldMarked[..i + 1][..i] == oldMarked[..i];
      if !oldMarked[i] {
        var r := was[i];
        if r.localPortRandom {
          r := r.(localHost := "", localPort := "");
        }
        res := res + [r];
      }
    }
    assert was[..|was|] == was && oldMarked[..|was|] == oldMarked[..];
  }

  // ----- the matching problem it solves -----

  /** `f` gives each request with f[k] != -1 its own unmarked tunnel that may serve it. */
  ghost predicate Assigns(f: seq<int>, was: seq<Remote>, req: seq<Remote>, marks: seq<bool>) {
    && |f| == |req|
    && (forall k :: 0 <= k < |f| && f[k] != -1 ==> Free(was, marks, req[k], f[k]))
    && (forall k, l :: 0 <= k < l < |f| && f[k] == f[l] ==> f[k] == -1)
  }

  /** The requests can be served by pairwise different remembered tunnels. */
  ghost predicate Assignable(was: seq<Remote>, req: seq<Remote>) {
    exists f :: Assigns(f, was, req, Unmarked(|was|)) && -1 !in f
  }

  /** Tunnels with one String() are remembered with the fixed-port ones in front and the random-port
      ones, all with the same target, behind them. */
  ghost predicate Stacked(was: seq<Remote>) {
    forall i, j :: !Violation(was, i, j)
  }

  ghost predicate Violation(was: seq<Remote>, i: int, j: int) {
    0 <= i < j < |was| && was[i].Str() == was[j].Str() && was[i].localPortRandom &&
    !(was[j].localPortRandom && SameTarget(was[i], was[j]))
  }

  ghost predicate DistinctStrs(rs: seq<Remote>) {
    forall i, j :: 0 <= i < j < |rs| ==> rs[i].Str() != rs[j].Str()
  }

  ghost predicate Located(rs: seq<Remote>) {
    forall i :: 0 <= i < |rs| ==> rs[i].IsLocalSpecified()
  }

  /** Request `k` is still to be served when a pass has reached request `pos`. */
  predicate Pending(req: seq<Remote>, pos: nat, local: bool, k: nat)
    requires k < |req|
  {
    if local then pos <= k || !req[k].IsLocalSpecified() else pos <= k && !req[k].IsLocalSpecified()
  }

  ghost predicate ServesPending(f: seq<int>, req: seq<Remote>, pos: nat, local: bool) {
    |f| == |req| && forall k :: 0 <= k < |f| ==> (f[k] != -1 <==> Pending(req, pos, local, k))
  }

  /** On stacked tunnels, a request that tunnel `i` serves can do with a later tunnel, if another request
      that both tunnels serve asks for `i`. */
  lemma ServesLater(was: seq<Remote>, marks: seq<bool>, r: Remote, other: Remote, i: int, later: int)
    requires Stacked(was) && i <= later && Free(was, marks, r, i) && Free(was, marks, r, later)
    requires Free(was, marks, other, i) && (r.IsLocalSpecified() || !other.IsLocalSpecified())
    ensures Free(was, marks, other, later)
  {
    assert !Violation(was, i, later);
  }

  /** Taking one tunnel away from an assignment that does not use it. */
  lemma AssignsWithout(g: seq<int>, was: seq<Remote>, req: seq<Remote>, marks: seq<bool>, i: nat)
    requires Assigns(g, was, req, marks) && i !in g && i < |was| == |marks|
    ensures Assigns(g, was, req, marks[i := true])
  {
    forall l | 0 <= l < |g| && g[l] != -1 ensures Free(was, marks[i := true], req[l], g[l]) {
      assert Free(was, marks, req[l], g[l]);
    }
  }

  /** The exchange argument: serving request `k` by the first free tunnel never spoils a solution. */
  lemma Exchange(f: seq<int>, was: seq<Remote>, req: seq<Remote>, marks: seq<bool>, k: nat, i: nat)
    returns (g: seq<int>)
    requires Stacked(was) && Assigns(f, was, req, marks) && k < |req| && f[k] != -1
    requires Free(was, marks, req[k], i) && i <= f[k]
    requires req[k].IsLocalSpecified() || forall l :: 0 <= l < |req| && f[l] != -1 ==> !req[l].IsLocalSpecified()
    ensures Assigns(g, was, req, marks[i := true])
    ensures g[k] == -1 && forall l :: 0 <= l < |req| && l != k ==> (g[l] != -1 <==> f[l] != -1)
  {
    if l :| 0 <= l < |f| && l != k && f[l] == i {
      ServesLater(was, marks, req[k], req[l], i, f[k]);
      g := f[l := f[k]][k := -1];
    } else {
      g := f[k := -1];
    }
    AssignsWithout(g, was, req, marks, i);
  }

  lemma {:induction false} PassFindsOne(was: seq<Remote>, req: seq<Remote>, k: nat, marks: seq<bool>,
                                        local: bool, f: seq<int>) returns (g: seq<int>)
    requires k <= |req| && |marks| == |was| && Stacked(was)
    requires Assigns(f, was, req, marks) && ServesPending(f, req, k, local)
    ensures Pass(was, req, k, marks, local).Some?
    ensures Assigns(g, was, req, Pass(was, req, k, marks, local).value)
    ensures ServesPending(g, req, |req|, local)
    decreases |req| - k
  {
    if k == |req| {
      g := f;
    } else if req[k].IsLocalSpecified() != local {
      g := PassFindsOne(was, req, k + 1, marks, local, f);
    } else {
      var i, h := ServeNext(was, req, k, marks, local, f);
      g := PassFindsOne(was, req, k + 1, marks[i := true], local, h);
    }
  }

  /** The first free tunnel serves request `k`, and the rest stays assignable. */
  lemma ServeNext(was: seq<Remote>, req: seq<Remote>, k: nat, marks: seq<bool>, local: bool, f: seq<int>)
    returns (i: nat, h: seq<int>)
    requires k < |req| && |marks| == |was| && Stacked(was) && req[k].IsLocalSpecified() == local
    requires Assigns(f, was, req, marks) && ServesPending(f, req, k, local)
    ensures i == FirstFree(was, marks, req[k], 0) < |was|
    ensures Assigns(h, was, req, marks[i := true]) && ServesPending(h, req, k + 1, local)
  {
    i := FirstFree(was, marks, req[k], 0);
    assert Pending(req, k, local, k);
    assert Free(was, marks, req[k], f[k]);
    assert forall l :: 0 <= l < |req| && f[l] != -1 ==> Pending(req, k, local, l);
    h := Exchange(f, was, req, marks, k, i);
  }

  /** `f` serves what a pass from request `k` on serves, and `after` are the marks with its tunnels added. */
  ghost predicate Found(f: seq<int>, was: seq<Remote>, req: seq<Remote>, k: nat, marks: seq<bool>,
                        after: seq<bool>, local: bool)
  {
    && Assigns(f, was, req, marks) && |marks| == |after| == |was|
    && (forall j :: 0 <= j < |f| ==> (f[j] != -1 <==> k <= j && req[j].IsLocalSpecified() == local))
    && (forall i :: 0 <= i < |was| ==> (after[i] <==> marks[i] || i in f))
  }

  /** Whatever the tunnels look like, a pass that succeeds has found an assignment onto what it marks. */
  lemma {:induction false} PassIsSound(was: seq<Remote>, req: seq<Remote>, k: nat, marks: seq<bool>,
                                       local: bool) returns (f: seq<int>)
    requires k <= |req| && |marks| == |was| && Pass(was, req, k, marks, local).Some?
    ensures Found(f, was, req, k, marks, Pass(was, req, k, marks, local).value, local)
    decreases |req| - k
  {
    if k == |req| {
      f := seq(|req|, _ => -1);
    } else if req[k].IsLocalSpecified() != local {
      f := PassIsSound(was, req, k + 1, marks, local);
    } else {
      var i := FirstFree(was, marks, req[k], 0);
      f := PassIsSound(was, req, k + 1, marks[i := true], local);
      FoundOneMore(f, was, req, k, marks, Pass(was, req, k, marks, local).value, local, i);
      f := f[k := i];
    }
  }

  lemma FoundOneMore(f: seq<int>, was: seq<Remote>, req: seq<Remote>, k: nat, marks: seq<bool>,
                     after: seq<bool>, local: bool, i: nat)
    requires k < |req| && req[k].IsLocalSpecified() == local && Free(was, marks, req[k], i)
    requires Found(f, was, req, k + 1, marks[i := true], after, local)
    ensures Found(f[k := i], was, req, k, marks, after, local)
  {
    var g := f[k := i];
    MembersOfUpdate(f, k, i);
    forall j | 0 <= j < |f| && f[j] != -1 ensures f[j] != i && Free(was, marks, req[j], f[j]) {
      assert Free(was, marks[i := true], req[j], f[j]);
    }
    assert Assigns(g, was, req, marks);
    forall q | 0 <= q < |was| ensures after[q] <==> marks[q] || q in g {
      assert after[q] <==> marks[i := true][q] || q in f;
    }
  }

  lemma MembersOfUpdate(g: seq<int>, k: nat, i: int)
    requires k < |g| && g[k] == -1
    ensures forall x :: x != -1 ==> (x in g[k := i] <==> x in g || x == i)
  {
    var f := g[k := i];
    assert f[k] == i;
    forall x | x != -1 && x in g ensures x in f {
      var j :| 0 <= j < |g| && g[j] == x;
      assert f[j] == x;
    }
  }

  /** A successful match is an injective assignment of all requests onto the marked tunnels. */
  lemma MatchedIsSound(was: seq<Remote>, req: seq<Remote>) returns (f: seq<int>)
    requires BothPasses(was, req).Some?
    ensures Assigns(f, was, req, Unmarked(|was|)) && -1 !in f
    ensures forall i :: 0 <= i < |was| ==> (BothPasses(was, req).value[i] <==> i in f)
  {
    var marks := Pass(was, req, 0, Unmarked(|was|), true).value;
    var f1 := PassIsSound(was, req, 0, Unmarked(|was|), true);
    var f2 := PassIsSound(was, req, 0, marks, false);
    f := Overlay(f1, f2);
    forall k | 0 <= k < |f2| && f2[k] != -1 ensures Free(was, Unmarked(|was|), req[k], f2[k]) && f2[k] !in f1 {
      assert Free(was, marks, req[k], f2[k]);
    }
    forall k | 0 <= k < |f| ensures Free(was, Unmarked(|was|), req[k], f[k]) {
    }
  }

  lemma Overlay(f1: seq<int>, f2: seq<int>) returns (f: seq<int>)
    requires |f1| == |f2| && forall k :: 0 <= k < |f1| ==> (f1[k] == -1 <==> f2[k] != -1)
    ensures |f| == |f1| && forall k :: 0 <= k < |f| ==> f[k] == if f1[k] != -1 then f1[k] else f2[k]
    ensures forall x :: x != -1 ==> (x in f <==> x in f1 || x in f2)
  {
    f := seq(|f1|, k requires 0 <= k < |f1| => if f1[k] != -1 then f1[k] else f2[k]);
    forall x | x != -1 && (x in f1 || x in f2) ensures x in f {
      var k :| 0 <= k < |f| && (f1[k] == x || f2[k] == x);
      assert f[k] == x;
    }
  }

  /** `f` sends the indices in `xs` to pairwise different members of `ys`. */
  ghost predicate Injects(f: seq<int>, xs: set<nat>, ys: set<nat>) {
    && (forall x :: x in xs ==> 0 <= x < |f| && f[x] in ys)
    && (forall x, y :: x in xs && y in xs && f[x] == f[y] ==> x == y)
  }

  lemma {:induction false} Pigeonhole(f: seq<int>, xs: set<nat>, ys: set<nat>)
    requires Injects(f, xs, ys)
    ensures |xs| <= |ys|
    decreases |xs|
  {
    if xs == {} {
    } else {
      var x :| x in xs;
      assert Injects(f, xs - {x}, ys - {f[x]});
      Pigeonhole(f, xs - {x}, ys - {f[x]});
    }
  }

  lemma NoShrinking(f: seq<int>, xs: set<nat>, y: nat)
    requires y in xs
    ensures !Injects(f, xs, xs - {y})
  {
    if Injects(f, xs, xs - {y}) {
      Pigeonhole(f, xs, xs - {y});
    }
  }

  function Below(n: nat): (r: set<nat>)
    ensures |r| == n && forall x :: x in r <==> 0 <= x < n
  {
    if n == 0 then {} else Below(n - 1) + {n - 1}
  }

  lemma MatchedIsComplete(was: seq<Remote>, req: seq<Remote>)
    requires Stacked(was) && Assignable(was, req)
    ensures Matched(was, req).Some?
  {
    var f :| Assigns(f, was, req, Unmarked(|was|)) && -1 !in f;
    Pigeonhole(f, Below(|req|), Below(|was|));
    var g := PassFindsOne(was, req, 0, Unmarked(|was|), true, f);
    var h := PassFindsOne(was, req, 0, Pass(was, req, 0, Unmarked(|was|), true).value, false, g);
  }

  // ----- when the greedy choice is right -----

  /** The greedy match finds an assignment whenever there is one, for every list of requests, exactly
      when the remembered tunnels are stacked. */
  lemma GreedyIsExact(was: seq<Remote>)
    requires Located(was)
    ensures (forall req :: Matched(was, req).Some? <==> Assignable(was, req)) <==> Stacked(was)
  {
    if Stacked(was) {
      forall req ensures Matched(was, req).Some? <==> Assignable(was, req) {
        if Matched(was, req).Some? {
          var f := MatchedIsSound(was, req);
        }
        if Assignable(was, req) {
          MatchedIsComplete(was, req);
        }
      }
    } else {
      var i, j := FirstRandomViolation(was);
      TrapIsAssignable(was, i);
      TrapCatches(was, i, j);
    }
  }

  /** Remembered tunnels with pairwise different String() values are stacked. */
  lemma DistinctIsStacked(was: seq<Remote>)
    requires DistinctStrs(was)
    ensures Stacked(was)
  {
  }

  /** A violation whose first tunnel is the first random one with its String(). */
  lemma FirstRandomViolation(was: seq<Remote>) returns (i: nat, j: nat)
    requires !Stacked(was)
    ensures Violation(was, i, j) && LeadsRandom(was, i)
  {
    var a, b :| Violation(was, a, b);
    i, j := a, b;
    while !LeadsRandom(was, i)
      invariant Violation(was, i, j)
      decreases i
    {
      var q :| 0 <= q < i && was[q].Str() == was[i].Str() && was[q].localPortRandom;
      if !Violation(was, q, j) {
        j := i;
      }
      i := q;
    }
  }

  ghost predicate LeadsRandom(was: seq<Remote>, i: nat) {
    i < |was| && was[i].localPortRandom &&
    forall q :: 0 <= q < i && was[q].Str() == was[i].Str() ==> !was[q].localPortRandom
  }

  /** A request list that the tunnels serve one by one, the random peers of tunnel `i` being asked
      for without a local port. Tunnel `j` is not among these peers. */
  function Trap(was: seq<Remote>, i: nat): (req: seq<Remote>)
    requires i < |was|
    ensures |req| == |was|
  {
    seq(|was|, q requires 0 <= q < |was| => if Peer(was, i, q) then was[q].Blank() else was[q])
  }

  predicate Peer(was: seq<Remote>, i: nat, q: nat)
    requires i < |was| && q < |was|
  {
    was[q].localPortRandom && SameTarget(was[i], was[q])
  }

  lemma TrapIsAssignable(was: seq<Remote>, i: nat)
    requires Located(was) && i < |was|
    ensures Assignable(was, Trap(was, i))
  {
    var f := seq(|was|, q => q);
    assert Assigns(f, was, Trap(was, i), Unmarked(|was|));
  }

  /** A pass over fixed-port requests takes tunnels of one String() from the front. */
  ghost predicate FrontFirst(was: seq<Remote>, marks: seq<bool>) {
    |marks| == |was| &&
    forall p, q :: 0 <= p < q < |was| && was[p].Str() == was[q].Str() && marks[q] ==> marks[p]
  }

  lemma {:induction false} PassTakesFront(was: seq<Remote>, req: seq<Remote>, k: nat, marks: seq<bool>)
    requires k <= |req| && FrontFirst(was, marks) && Pass(was, req, k, marks, true).Some?
    ensures FrontFirst(was, Pass(was, req, k, marks, true).value)
    decreases |req| - k
  {
    if k == |req| {
    } else {
      if req[k].IsLocalSpecified() {
        var i := FirstFree(was, marks, req[k], 0);
        var next := marks[i := true];
        forall p, q | 0 <= p < q < |was| && was[p].Str() == was[q].Str() && next[q] ensures next[p] {
          if q == i {
            assert !Free(was, marks, req[k], p);
          }
        }
        PassTakesFront(was, req, k + 1, next);
      } else {
        PassTakesFront(was, req, k + 1, marks);
      }
    }
  }

  /** The tunnels in front of `i` that share its String(). */
  function Front(was: seq<Remote>, i: nat): set<nat>
    requires i < |was|
  {
    set q: nat | q < i && was[q].Str() == was[i].Str()
  }

  /** While tunnel `i` is unmarked, a request for its String() is served from in front of it. */
  lemma ServedInFront(was: seq<Remote>, marks: seq<bool>, i: nat, r: Remote, x: int)
    requires FrontFirst(was, marks) && i < |was| && !marks[i]
    requires 0 <= x < |was| && marks[x] && r.IsLocalSpecified() && r.Str() == was[i].Str() && Fits(r, was[x])
    ensures x in Front(was, i)
  {
  }

  lemma FrontIsFixed(was: seq<Remote>, i: nat, j: nat, x: int)
    requires Violation(was, i, j) && LeadsRandom(was, i) && x in Front(was, i) + {j}
    ensures 0 <= x < |was| && Trap(was, i)[x] == was[x] && was[x].Str() == was[i].Str()
  {
  }

  lemma FrontServedAt(was: seq<Remote>, marks: seq<bool>, f: seq<int>, i: nat, j: nat, x: nat)
    requires Located(was) && Violation(was, i, j) && LeadsRandom(was, i) && x in Front(was, i) + {j}
    requires Found(f, was, Trap(was, i), 0, Unmarked(|was|), marks, true)
    requires FrontFirst(was, marks) && !marks[i]
    ensures x < |f| && f[x] != -1 && f[x] in Front(was, i)
  {
    var req := Trap(was, i);
    FrontIsFixed(was, i, j, x);
    assert Free(was, Unmarked(|was|), req[x], f[x]);
    ServedInFront(was, marks, i, req[x], f[x]);
  }

  /** An assignment injects every set of requests it serves. */
  lemma ServedInjects(f: seq<int>, xs: set<nat>, ys: set<nat>)
    requires forall k, l :: 0 <= k < l < |f| && f[k] == f[l] ==> f[k] == -1
    requires forall x :: x in xs ==> x < |f| && f[x] != -1 && f[x] in ys
    ensures Injects(f, xs, ys)
  {
  }

  lemma FrontServed(was: seq<Remote>, marks: seq<bool>, f: seq<int>, i: nat, j: nat, xs: set<nat>, ys: set<nat>)
    requires Located(was) && Violation(was, i, j) && LeadsRandom(was, i)
    requires Found(f, was, Trap(was, i), 0, Unmarked(|was|), marks, true)
    requires FrontFirst(was, marks) && !marks[i] && ys == Front(was, i) && xs == ys + {j}
    ensures Injects(f, xs, ys)
  {
    forall x: nat | x in xs ensures x < |f| && f[x] != -1 && f[x] in ys {
      FrontServedAt(was, marks, f, i, j, x);
    }
    ServedInjects(f, xs, ys);
  }

  /** The first pass over the trap uses up tunnel `i`: it has one request more for its String() than
      there are tunnels with that String() in front of `i`. */
  lemma TrapTakes(was: seq<Remote>, i: nat, j: nat)
    requires Located(was) && Violation(was, i, j) && LeadsRandom(was, i)
    requires Pass(was, Trap(was, i), 0, Unmarked(|was|), true).Some?
    ensures Pass(was, Trap(was, i), 0, Unmarked(|was|), true).value[i]
  {
    var req, xs := Trap(was, i), Front(was, i) + {j};
    var marks := Pass(was, req, 0, Unmarked(|was|), true).value;
    var f := PassIsSound(was, req, 0, Unmarked(|was|), true);
    PassTakesFront(was, req, 0, Unmarked(|was|));
    assert xs - {j} == Front(was, i);
    NoShrinking(f, xs, j);
    if !marks[i] {
      FrontServed(was, marks, f, i, j, xs, Front(was, i));
    }
  }

  function Peers(was: seq<Remote>, i: nat): set<nat>
    requires i < |was|
  {
    set q: nat | q < |was| && Peer(was, i, q)
  }

  lemma PeersServed(was: seq<Remote>, marks: seq<bool>, after: seq<bool>, f: seq<int>, i: nat)
    requires i < |was| && |marks| == |was| && marks[i]
    requires Found(f, was, Trap(was, i), 0, marks, after, false)
    ensures Injects(f, Peers(was, i), Peers(was, i) - {i})
  {
    var req := Trap(was, i);
    forall x | x in Peers(was, i) ensures f[x] != -1 && f[x] in Peers(was, i) - {i} {
      assert Free(was, marks, req[x], f[x]);
    }
  }

  lemma TrapCatches(was: seq<Remote>, i: nat, j: nat)
    requires Located(was) && Violation(was, i, j) && LeadsRandom(was, i)
    ensures Matched(was, Trap(was, i)).None?
  {
    var req := Trap(was, i);
    if Matched(was, req).Some? {
      var marks := Pass(was, req, 0, Unmarked(|was|), true).value;
      TrapTakes(was, i, j);
      var f := PassIsSound(was, req, 0, marks, false);
      PeersServed(was, marks, Matched(was, req).value, f, i);
      NoShrinking(f, Peers(was, i), i);
    }
  }

  // ----- what is re-established -----

  function CountMarked(marks: seq<bool>): nat {
    if marks == [] then 0
    else CountMarked(marks[..|marks| - 1]) + if marks[|marks| - 1] then 1 else 0
  }

  lemma {:induction false} LeftoverSize(was: seq<Remote>, marks: seq<bool>)
    requires |marks| == |was|
    ensures |Leftover(was, marks)| == |was| - CountMarked(marks)
    decreases |was|
  {
    if was == [] {
    } else {
      LeftoverSize(was[..|was| - 1], marks[..|was| - 1]);
    }
  }

  lemma {:induction false} MarkOne(marks: seq<bool>, i: nat)
    requires i < |marks| && !marks[i]
    ensures CountMarked(marks[i := true]) == CountMarked(marks) + 1
    decreases |marks|
  {
    var n := |marks| - 1;
    if i < n {
      assert marks[i := true][..n] == marks[..n][i := true];
      MarkOne(marks[..n], i);
    } else {
      assert marks[i := true][..n] == marks[..n];
    }
  }

  function CountLocal(req: seq<Remote>, k: nat, local: bool): nat
    requires k <= |req|
    decreases |req| - k
  {
    if k == |req| then 0
    else CountLocal(req, k + 1, local) + if req[k].IsLocalSpecified() == local then 1 else 0
  }

  lemma {:induction false} PassMarks(was: seq<Remote>, req: seq<Remote>, k: nat, marks: seq<bool>, local: bool)
    requires k <= |req| && |marks| == |was| && Pass(was, req, k, marks, local).Some?
    ensures CountMarked(Pass(was, req, k, marks, local).value) == CountMarked(marks) + CountLocal(req, k, local)
    decreases |req| - k
  {
    if k == |req| {
    } else {
      if req[k].IsLocalSpecified() != local {
        PassMarks(was, req, k + 1, marks, local);
      } else {
        var i := FirstFree(was, marks, req[k], 0);
        MarkOne(marks, i);
        PassMarks(was, req, k + 1, marks[i := true], local);
      }
    }
  }

  lemma {:induction false} AllLocalOrNot(req: seq<Remote>, k: nat)
    requires k <= |req|
    ensures CountLocal(req, k, true) + CountLocal(req, k, false) == |req| - k
    decreases |req| - k
  {
    if k == |req| {
    } else {
      AllLocalOrNot(req, k + 1);
    }
  }

  lemma {:induction false} NoneMarked(n: nat)
    ensures CountMarked(Unmarked(n)) == 0
  {
    if n == 0 {
    } else {
      assert Unmarked(n)[..n - 1] == Unmarked(n - 1);
      NoneMarked(n - 1);
    }
  }

  /** Exactly the unmatched tunnels come back, `len(old) - len(new)` of them; nothing comes back when
      the requests do not fit the remembered tunnels. */
  lemma ReestablishCounts(was: seq<Remote>, req: seq<Remote>)
    ensures Matched(was, req).Some? ==> |Reestablish(was, req)| == |was| - |req|
    ensures Matched(was, req).None? ==> Reestablish(was, req) == []
  {
    if Matched(was, req).Some? {
      var marks := Pass(was, req, 0, Unmarked(|was|), true).value;
      NoneMarked(|was|);
      PassMarks(was, req, 0, Unmarked(|was|), true);
      PassMarks(was, req, 0, marks, false);
      AllLocalOrNot(req, 0);
      LeftoverSize(was, Matched(was, req).value);
    }
  }

  /** The marks of the tunnels that an assignment uses. */
  function Used(n: nat, f: seq<int>): seq<bool> {
    seq(n, i => i in f)
  }

  /** On stacked tunnels, so on tunnels with pairwise different String() values: when the requests can
      be served by pairwise different tunnels, exactly the tunnels that some such assignment does not
      use come back, in order; otherwise none does. */
  lemma ReestablishIsExact(was: seq<Remote>, req: seq<Remote>)
    requires Stacked(was)
    ensures Assignable(was, req) ==>
              && |Reestablish(was, req)| == |was| - |req|
              && exists f :: Assigns(f, was, req, Unmarked(|was|)) && -1 !in f &&
                             Reestablish(was, req) == Leftover(was, Used(|was|, f))
    ensures !Assignable(was, req) ==> Reestablish(was, req) == []
  {
    ReestablishCounts(was, req);
    if Assignable(was, req) {
      MatchedIsComplete(was, req);
      var f := MatchedIsSound(was, req);
      assert Matched(was, req).value == Used(|was|, f);
    } else if Matched(was, req).Some? {
      var f := MatchedIsSound(was, req);
    }
  }

  // ----- the match in terms of the fields -----

  /** What a successful match has found, on the fields of the remotes: requests that name a local side have
      the tunnels with their String(), the others random-port tunnels with their target and their ACL, every
      request its own; exactly these tunnels are marked. */
  lemma MatchMeans(was: seq<Remote>, req: seq<Remote>) returns (f: seq<nat>)
    requires Matched(was, req).Some?
    ensures |f| == |req| && (forall k, l :: 0 <= k < l < |f| ==> f[k] != f[l])
    ensures forall k :: 0 <= k < |f| ==> f[k] < |was|
    ensures forall k :: 0 <= k < |f| && req[k].localHost != "" && req[k].localPort != "" ==>
                          was[f[k]].Str() == req[k].Str()
    ensures forall k :: 0 <= k < |f| && (req[k].localHost == "" || req[k].localPort == "") ==>
                          && was[f[k]].localPortRandom && was[f[k]].acl == req[k].acl
                          && was[f[k]].Target() == req[k].Target()
    ensures forall i :: 0 <= i < |was| ==> (Matched(was, req).value[i] <==> i in f)
  {
    var g := MatchedIsSound(was, req);
    forall k | 0 <= k < |g| ensures Free(was, Unmarked(|was|), req[k], g[k]) {
      assert g[k] in g;
    }
    f := seq(|g|, k requires 0 <= k < |g| => g[k]);
    assert f == g;
  }

  /** And on stacked tunnels it succeeds whenever the requests can be served so. */
  lemma ServedIsMatched(was: seq<Remote>, req: seq<Remote>, f: seq<nat>)
    requires Stacked(was) && |f| == |req| && (forall k, l :: 0 <= k < l < |f| ==> f[k] != f[l])
    requires forall k :: 0 <= k < |f| ==> f[k] < |was|
    requires forall k :: 0 <= k < |f| && req[k].localHost != "" && req[k].localPort != "" ==>
                           was[f[k]].Str() == req[k].Str()
    requires forall k :: 0 <= k < |f| && (req[k].localHost == "" || req[k].localPort == "") ==>
                           && was[f[k]].localPortRandom && was[f[k]].acl == req[k].acl
                           && was[f[k]].Target() == req[k].Target()
    ensures Matched(was, req).Some?
  {
    var g: seq<int> := f;
    forall k | 0 <= k < |g| ensures Free(was, Unmarked(|was|), req[k], g[k]) {
    }
    assert Assigns(g, was, req, Unmarked(|was|)) && -1 !in g;
    MatchedIsComplete(was, req);
  }

  /** For every target and ACL: there are no more requests for it without a local side than random-port tunnels
      to it, with that ACL, that the requests with a local side have left. */
  lemma OpenRequestsFit(was: seq<Remote>, req: seq<Remote>, target: string, acl: Option<string>)
    requires Matched(was, req).Some?
    ensures Pass(was, req, 0, Unmarked(|was|), true).Some?
    ensures var taken := Pass(was, req, 0, Unmarked(|was|), true).value;
            |set k: nat | k < |req| && (req[k].localHost == "" || req[k].localPort == "") &&
                          req[k].Target() == target && req[k].acl == acl| <=
            |set i: nat | i < |was| && was[i].localPortRandom && was[i].Target() == target && was[i].acl == acl &&
                          !taken[i]|
  {
    var taken := Pass(was, req, 0, Unmarked(|was|), true).value;
    var f := PassIsSound(was, req, 0, taken, false);
    var xs := set k: nat | k < |req| && (req[k].localHost == "" || req[k].localPort == "") &&
                           req[k].Target() == target && req[k].acl == acl;
    var ys := set i: nat | i < |was| && was[i].localPortRandom && was[i].Target() == target && was[i].acl == acl &&
                           !taken[i];
    forall x | x in xs ensures x < |f| && f[x] != -1 && f[x] in ys {
      OpenServed(was, req, taken, Matched(was, req).value, f, x);
    }
    ServedInjects(f, xs, ys);
    Pigeonhole(f, xs, ys);
  }

  lemma OpenServed(was: seq<Remote>, req: seq<Remote>, taken: seq<bool>, after: seq<bool>, f: seq<int>, x: nat)
    requires Found(f, was, req, 0, taken, after, false) && x < |req|
    requires req[x].localHost == "" || req[x].localPort == ""
    ensures x < |f| && 0 <= f[x] < |was| && !taken[f[x]] && was[f[x]].localPortRandom
    ensures was[f[x]].Target() == req[x].Target() && was[f[x]].acl == req[x].acl
  {
    assert Free(was, taken, req[x], f[x]);
  }

  /** The tunnels that come back: those that are not marked, in order, as they were but for a random port. */
  lemma {:induction false} LeftoverMeans(was: seq<Remote>, marks: seq<bool>) returns (left: seq<nat>)
    requires |marks| == |was|
    ensures forall a, b :: 0 <= a < b < |left| ==> left[a] < left[b]
    ensures forall i :: i in left <==> 0 <= i < |was| && !marks[i]
    ensures |Leftover(was, marks)| == |left|
    ensures forall n :: 0 <= n < |left| ==>
                          left[n] < |was| &&
                          Leftover(was, marks)[n] == if was[left[n]].localPortRandom
                                                     then was[left[n]].(localHost := "", localPort := "")
                                                     else was[left[n]]
    decreases |was|
  {
    if was == [] {
      left := [];
    } else {
      var m := |was| - 1;
      left := LeftoverMeans(was[..m], marks[..m]);
      forall n | 0 <= n < |left| ensures left[n] < m {
        assert left[n] in left;
      }
      if !marks[m] {
        left := left + [m];
      }
    }
  }

  /** Remote() tells the host and the port, also for IPv6 addresses. */
  lemma TargetTells(a: Remote, b: Remote)
    requires '[' !in a.remoteHost && ']' !in a.remoteHost && '[' !in b.remoteHost && ']' !in b.remoteHost
    requires a.Target() == b.Target()
    ensures a.remoteHost == b.remoteHost && a.remotePort == b.remotePort
  {
    if ':' !in a.remoteHost && ':' !in b.remoteHost {
      FirstField(a.remoteHost, a.remotePort, b.remoteHost, b.remotePort);
    } else if ':' in a.remoteHost && ':' in b.remoteHost {
      assert a.Target() == "[" + a.remoteHost + "]" + (":" + a.remotePort);
      assert b.Target() == "[" + b.remoteHost + "]" + (":" + b.remotePort);
      SplitAt(']', "[" + a.remoteHost, ":" + a.remotePort, "[" + b.remoteHost, ":" + b.remotePort);
      assert a.remoteHost == ("[" + a.remoteHost)[1..] && b.remoteHost == ("[" + b.remoteHost)[1..];
      assert a.remotePort == (":" + a.remotePort)[1..] && b.remotePort == (":" + b.remotePort)[1..];
    } else {
      BracketTells(a);
      BracketTells(b);
    }
  }

  lemma BracketTells(r: Remote)
    requires '[' !in r.remoteHost
    ensures r.Target() != "" && (r.Target()[0] == '[' <==> ':' in r.remoteHost)
  {
    if ':' !in r.remoteHost && r.remoteHost != "" {
      assert r.Target()[0] == r.remoteHost[0];
    }
  }
}
