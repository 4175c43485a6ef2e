/** Closing a tunnel that is not used (server/clients/client_service.go, terminateTunnelOnIdleTimeout).
    Times are in nanoseconds; a timer may fire late but not early. */
module IdleTimeout {
  import opened Text

  /** `last` is what LastActive() returns, `deadline` when the timer fires next. */
  datatype Watch = Watch(timeout: nat, start: int, last: int, deadline: int, now: int, terminated: bool, stopped: bool)

  datatype Event =
    | Activity(at: int, last: int)
    | Fires(at: int)
    | TunnelDone(at: int)

  /** The tunnel starts; LastActive() may be anything up to now, also long before the start. */
  function Start(timeout: nat, start: int, last: int): Watch {
    Watch(timeout, start, last, start + timeout, start, false, false)
  }

  /** One event; None when it cannot happen. */
  function Do(w: Watch, e: Event): Option<Watch> {
    if e.at < w.now then None
    else
      match e
      case Activity(at, last) =>
        if w.last <= last <= at then Some(w.(now := at, last := last)) else None
      case Fires(at) =>
        if w.terminated || w.stopped || at < w.deadline then None
        else
          var sinceLastActive := at - w.last;
          if sinceLastActive > w.timeout then Some(w.(now := at, terminated := true))
          else Some(w.(now := at, deadline := at + (w.timeout - sinceLastActive)))
      case TunnelDone(at) => Some(w.(now := at, stopped := true))
  }

  function Run(w: Watch, events: seq<Event>): Option<Watch> {
    if events == [] then Some(w)
    else
      match Run(w, events[..|events| - 1])
      case None => None
      case Some(v) => Do(v, events[|events| - 1])
  }

  function Max(a: int, b: int): int {
    if a < b then b else a
  }

  ghost predicate Inv(w: Watch) {
    && w.start <= w.now && w.last <= w.now
    && w.start + w.timeout <= Max(w.deadline, w.now)
    && w.deadline <= Max(w.start, w.last) + w.timeout
    && (w.terminated ==> w.start + w.timeout <= w.now)
  }

  lemma {:induction false} RunKeepsInv(w: Watch, events: seq<Event>)
    requires Inv(w) && Run(w, events).Some?
    ensures Inv(Run(w, events).value)
    ensures Run(w, events).value.timeout == w.timeout && Run(w, events).value.start == w.start
    decreases |events|
  {
    if events == [] {
    } else {
      RunKeepsInv(w, events[..|events| - 1]);
    }
  }

  /** For every activity pattern: a tunnel is terminated only by a firing at which it was inactive for
      strictly more than the timeout and at least the timeout had passed since its start; the armed
      deadline never exceeds the last activity (or the start) plus the timeout; so any firing strictly
      behind that instant terminates it. */
  lemma TerminatesExactlyWhenIdle(timeout: nat, start: int, last: int, events: seq<Event>, at: int)
    requires last <= start && Run(Start(timeout, start, last), events).Some?
    ensures var w := Run(Start(timeout, start, last), events).value;
            var fired := Do(w, Fires(at));
            && w.deadline <= Max(start, w.last) + timeout
            && (fired.Some? ==> !w.terminated && !w.stopped && w.deadline <= at)
            && (fired.Some? ==> (fired.value.terminated <==> at - w.last > timeout))
            && (fired.Some? && fired.value.terminated ==> at >= start + timeout)
            && (w.now <= at && !w.terminated && !w.stopped && Max(start, w.last) + timeout < at ==>
                  fired.Some? && fired.value.terminated)
  {
    RunKeepsInv(Start(timeout, start, last), events);
  }

  // ----- in terms of the activity alone -----

  /** The k-th event is a firing more than the timeout behind every activity reported until then. */
  ghost predicate IdleFiring(w: Watch, events: seq<Event>, k: nat) {
    && k < |events| && events[k].Fires? && w.last + w.timeout < events[k].at
    && forall j :: 0 <= j < k && events[j].Activity? ==> events[j].last + w.timeout < events[k].at
  }

  /** What LastActive() returns is the latest activity reported. */
  ghost predicate IsLatest(w: Watch, events: seq<Event>, last: int) {
    && w.last <= last && (forall j :: 0 <= j < |events| && events[j].Activity? ==> events[j].last <= last)
    && (last == w.last || exists j :: 0 <= j < |events| && events[j].Activity? && events[j].last == last)
  }

  lemma {:induction false} LastIsLatest(w: Watch, events: seq<Event>)
    requires Run(w, events).Some?
    ensures IsLatest(w, events, Run(w, events).value.last) && Run(w, events).value.timeout == w.timeout
    decreases |events|
  {
    if events == [] {
    } else {
      var n := |events| - 1;
      LastIsLatest(w, events[..n]);
      LatestStep(w, events, Run(w, events[..n]).value.last, Run(w, events).value.last);
    }
  }

  lemma LatestStep(w: Watch, events: seq<Event>, was: int, last: int)
    requires events != [] && IsLatest(w, events[..|events| - 1], was) && was <= last
    requires last == if events[|events| - 1].Activity? then events[|events| - 1].last else was
    ensures IsLatest(w, events, last)
  {
    var n := |events| - 1;
    assert forall j :: 0 <= j < n ==> events[..n][j] == events[j];
    if last != w.last && !events[n].Activity? {
      var j :| 0 <= j < n && events[..n][j].Activity? && events[..n][j].last == last;
      assert events[j].last == last;
    }
  }

  lemma FiringIsIdle(w: Watch, events: seq<Event>)
    requires events != [] && Run(w, events).Some?
    ensures var v := Run(w, events[..|events| - 1]).value;
            Run(w, events).value.terminated <==> v.terminated || IdleFiring(w, events, |events| - 1)
  {
    var n := |events| - 1;
    var v := Run(w, events[..n]).value;
    LastIsLatest(w, events[..n]);
    assert forall j :: 0 <= j < n ==> events[..n][j] == events[j];
    if events[n].Fires? && events[n].at - v.last <= w.timeout && v.last != w.last {
      var j :| 0 <= j < n && events[..n][j].Activity? && events[..n][j].last == v.last;
      assert events[j].last + w.timeout >= events[n].at;
    }
  }

  lemma SameFiring(w: Watch, events: seq<Event>, n: nat, k: nat)
    requires k < n <= |events|
    ensures IdleFiring(w, events[..n], k) <==> IdleFiring(w, events, k)
  {
    assert forall j :: 0 <= j <= k ==> events[..n][j] == events[j];
  }

  /** For every pattern of activity and firings, however late these come: the tunnel is terminated if and
      only if the timer fired at an instant that lay more than the timeout behind every activity so far.
      The deadlines that the loop arms do not matter. */
  lemma {:induction false} TerminatedIffIdle(w: Watch, events: seq<Event>)
    requires !w.terminated && Run(w, events).Some?
    ensures Run(w, events).value.terminated <==> exists k :: IdleFiring(w, events, k)
    decreases |events|
  {
    if events == [] {
    } else {
      var n := |events| - 1;
      TerminatedIffIdle(w, events[..n]);
      FiringIsIdle(w, events);
      forall k | 0 <= k < n ensures IdleFiring(w, events[..n], k) <==> IdleFiring(w, events, k) {
        SameFiring(w, events, n, k);
      }
      assert forall k :: IdleFiring(w, events[..n], k) ==> IdleFiring(w, events, k);
      assert forall k :: IdleFiring(w, events, k) ==> k == n || IdleFiring(w, events[..n], k);
    }
  }
}
