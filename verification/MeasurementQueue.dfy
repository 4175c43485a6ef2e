/** The measurement queue: producers, one consumer and a draining shutdown over a buffered channel
    (server/monitoring/measurement_queuing.go). Every interleaving is a list of steps. */
module MeasurementQueue {
  import opened Text

  type Measurement = string

  /** The consumer goroutine: at the select of `process`, saving, in saveAllEnqueuedMeasurements, saving
      there, or finished. */
  datatype Consumer = Listening | Saving(m: Measurement) | Draining | DrainSaving(m: Measurement) | Exited

  datatype Closer = NotCalled | WaitingForGoroutines | Returned

  /** `accepted` and `attempted` record the measurements that Notify accepted and that were given to
      SaveMeasurement; `mark` is how many were accepted when shutdown began. SaveMeasurement is given the
      context that Close cancels, and a database call under a cancelled context fails: `live` records for
      each attempt whether the context was live to its end. */
  datatype Queue = Queue(
    capacity: nat,
    channel: seq<Measurement>,
    consumer: Consumer,
    loggerDone: bool,
    cancelled: bool,
    closer: Closer,
    accepted: seq<Measurement>,
    attempted: seq<Measurement>,
    live: seq<bool>,
    mark: nat)
  {
    /** The i-th accepted measurement was attempted under a live context. */
    predicate SavedLive(i: nat) {
      i < |attempted| && i < |live| && live[i]
    }

    /** Nothing is queued and nothing is being saved. */
    predicate Idle() {
      channel == [] && InHand(consumer) == []
    }

    function Attempted(m: Measurement, next: Consumer): Queue {
      this.(consumer := next, attempted := attempted + [m], live := live + [!cancelled])
    }
  }

  datatype Step =
    | NotifySends(m: Measurement)
    | NotifyHandsOver(m: Measurement)
    | NotifyRejects
    | ConsumerTakes
    | ConsumerSaves
    | ConsumerSeesCancel
    | DrainEnds
    | LoggerStops
    | CloseCancels
    | CloseReturns

  function New(capacity: nat): Queue {
    Queue(capacity, [], Listening, false, false, NotCalled, [], [], [], 0)
  }

  /** One step of any goroutine; None when it is not enabled. A select with several ready cases may
      take any of them, so Notify may still send after the cancellation. */
  function Do(q: Queue, step: Step): Option<Queue> {
    match step
    case NotifySends(m) =>
      if |q.channel| < q.capacity then Some(q.(channel := q.channel + [m], accepted := q.accepted + [m])) else None
    case NotifyHandsOver(m) =>
      // a receive on an empty channel meets a waiting send
      if q.channel == [] && q.consumer.Listening? then
        Some(q.(consumer := Saving(m), accepted := q.accepted + [m]))
      else if q.channel == [] && q.consumer.Draining? then
        Some(q.(consumer := DrainSaving(m), accepted := q.accepted + [m]))
      else None
    case NotifyRejects => if q.cancelled then Some(q) else None
    case ConsumerTakes =>
      if q.channel == [] then None
      else if q.consumer.Listening? then Some(q.(consumer := Saving(q.channel[0]), channel := q.channel[1..]))
      else if q.consumer.Draining? then Some(q.(consumer := DrainSaving(q.channel[0]), channel := q.channel[1..]))
      else None
    case ConsumerSaves =>
      if q.consumer.Saving? then Some(q.Attempted(q.consumer.m, Listening))
      else if q.consumer.DrainSaving? then Some(q.Attempted(q.consumer.m, Draining))
      else None
    case ConsumerSeesCancel =>
      if q.consumer.Listening? && q.cancelled then Some(q.(consumer := Draining)) else None
    case DrainEnds =>
      if q.consumer.Draining? && q.channel == [] then Some(q.(consumer := Exited)) else None
    case LoggerStops => if q.cancelled then Some(q.(loggerDone := true)) else None
    case CloseCancels =>
      if q.closer.NotCalled? then
        Some(q.(closer := WaitingForGoroutines, cancelled := true, mark := |q.accepted|))
      else None
    case CloseReturns =>
      if q.closer.WaitingForGoroutines? && q.consumer.Exited? && q.loggerDone then Some(q.(closer := Returned))
      else None
  }

  function Run(q: Queue, steps: seq<Step>): Option<Queue> {
    if steps == [] then Some(q)
    else
      match Run(q, steps[..|steps| - 1])
      case None => None
      case Some(r) => Do(r, steps[|steps| - 1])
  }

  function InHand(c: Consumer): seq<Measurement> {
    if c.Saving? || c.DrainSaving? then [c.m] else []
  }

  ghost predicate Inv(q: Queue) {
    && q.accepted == q.attempted + (InHand(q.consumer) + q.channel)
    && |q.channel| <= q.capacity
    && q.cancelled == !q.closer.NotCalled?
    && (q.consumer.Draining? || q.consumer.DrainSaving? || q.consumer.Exited? ==> q.cancelled)
    && (q.cancelled ==> q.mark <= |q.accepted|)
    && (q.consumer.Exited? ==> q.mark <= |q.attempted|)
    && (q.closer.Returned? ==> q.consumer.Exited? && q.loggerDone)
    && |q.live| == |q.attempted| && (!q.cancelled ==> forall i :: 0 <= i < |q.live| ==> q.live[i])
  }

  lemma ProducerKeepsInv(q: Queue, step: Step, r: Queue)
    requires Inv(q) && Do(q, step) == Some(r) && (step.NotifySends? || step.NotifyHandsOver?)
    ensures Inv(r)
  {
    if step.NotifySends? {
      assert r.accepted == q.attempted + (InHand(q.consumer) + q.channel + [step.m]);
    }
  }

  lemma TakeKeepsInv(q: Queue, r: Queue)
    requires Inv(q) && Do(q, ConsumerTakes) == Some(r)
    ensures Inv(r)
  {
    assert q.channel == [q.channel[0]] + q.channel[1..];
  }

  lemma SaveKeepsInv(q: Queue, r: Queue)
    requires Inv(q) && Do(q, ConsumerSaves) == Some(r)
    ensures Inv(r)
  {
    var m := q.consumer.m;
    assert q.attempted + ([m] + q.channel) == q.attempted + [m] + q.channel;
  }

  lemma OtherKeepsInv(q: Queue, step: Step, r: Queue)
    requires Inv(q) && Do(q, step) == Some(r)
    requires !step.NotifySends? && !step.NotifyHandsOver? && !step.ConsumerTakes? && !step.ConsumerSaves?
    ensures Inv(r)
  {
  }

  lemma StepKeepsInv(q: Queue, step: Step, r: Queue)
    requires Inv(q) && Do(q, step) == Some(r)
    ensures Inv(r) && r.capacity == q.capacity
  {
    match step
    case NotifySends(_) => ProducerKeepsInv(q, step, r);
    case NotifyHandsOver(_) => ProducerKeepsInv(q, step, r);
    case ConsumerTakes => TakeKeepsInv(q, r);
    case ConsumerSaves => SaveKeepsInv(q, r);
    case _ => OtherKeepsInv(q, step, r);
  }

  lemma {:induction false} RunKeepsInv(capacity: nat, steps: seq<Step>)
    requires Run(New(capacity), steps).Some?
    ensures Inv(Run(New(capacity), steps).value) && Run(New(capacity), steps).value.capacity == capacity
  {
    if steps == [] {
    } else {
      var n := |steps| - 1;
      RunKeepsInv(capacity, steps[..n]);
      StepKeepsInv(Run(New(capacity), steps[..n]).value, steps[n], Run(New(capacity), steps).value);
    }
  }

  /** Under every interleaving: saves are attempted in the order of acceptance and each at most once, the
      channel never exceeds its capacity, and when Close returns everything accepted before shutdown
      began has been attempted. */
  lemma SavedInOrder(capacity: nat, steps: seq<Step>)
    requires Run(New(capacity), steps).Some?
    ensures var q := Run(New(capacity), steps).value;
            && q.attempted <= q.accepted
            && |q.channel| <= capacity
            && (q.closer.Returned? ==> q.mark <= |q.accepted| && q.accepted[..q.mark] <= q.attempted)
            && (q.closer.Returned? ==> q.consumer.Exited? && q.loggerDone)
  {
    RunKeepsInv(capacity, steps);
  }

  lemma CancelledStep(q: Queue, step: Step, r: Queue)
    requires Do(q, step) == Some(r)
    ensures r.cancelled <==> q.cancelled || step == CloseCancels
    ensures step == NotifyRejects || step == LoggerStops || step == ConsumerSeesCancel ==> q.cancelled
  {
  }

  lemma InLonger(steps: seq<Step>, step: Step)
    requires steps != []
    ensures step in steps <==> step in steps[..|steps| - 1] || step == steps[|steps| - 1]
  {
    assert steps == steps[..|steps| - 1] + [steps[|steps| - 1]];
  }

  /** Notify turns a measurement down, and the goroutines stop, only after Close was called. */
  lemma {:induction false} CancelledByClose(capacity: nat, steps: seq<Step>)
    requires Run(New(capacity), steps).Some?
    ensures Run(New(capacity), steps).value.cancelled <==> CloseCancels in steps
    ensures NotifyRejects in steps || LoggerStops in steps || ConsumerSeesCancel in steps ==> CloseCancels in steps
  {
    if steps == [] {
    } else {
      var n := |steps| - 1;
      CancelledByClose(capacity, steps[..n]);
      CancelledStep(Run(New(capacity), steps[..n]).value, steps[n], Run(New(capacity), steps).value);
      InLonger(steps, NotifyRejects);
      InLonger(steps, LoggerStops);
      InLonger(steps, ConsumerSeesCancel);
      InLonger(steps, CloseCancels);
    }
  }

  // ----- what is saved -----

  lemma RunStep(q: Queue, steps: seq<Step>, k: nat, r: Queue, t: Queue)
    requires k < |steps| && Run(q, steps[..k]) == Some(r) && Do(r, steps[k]) == Some(t)
    ensures Run(q, steps[..k + 1]) == Some(t)
  {
    assert steps[..k + 1][..k] == steps[..k];
  }

  lemma {:induction false} PrefixRuns(q: Queue, steps: seq<Step>, k: nat)
    requires k <= |steps| && Run(q, steps).Some?
    ensures Run(q, steps[..k]).Some?
    decreases |steps|
  {
    if k == |steps| {
      assert steps[..k] == steps;
    } else {
      PrefixRuns(q, steps[..|steps| - 1], k);
      assert steps[..|steps| - 1][..k] == steps[..k];
    }
  }

  predicate Accepts(step: Step) {
    step.NotifySends? || step.NotifyHandsOver?
  }

  /** What has happened since the shutdown began in state `q`: nothing was attempted under a live context,
      and more was accepted exactly if `late`. */
  ghost predicate Since(q: Queue, r: Queue, late: bool) {
    && r.cancelled && |r.live| == |r.attempted| >= |q.attempted|
    && (forall i :: 0 <= i < |r.live| ==> (r.live[i] <==> i < |q.attempted|))
    && (if late then |r.accepted| > |q.accepted| else |r.accepted| == |q.accepted|)
  }

  lemma SinceStep(q: Queue, r: Queue, late: bool, step: Step, t: Queue)
    requires Since(q, r, late) && Do(r, step) == Some(t)
    ensures Since(q, t, late || Accepts(step))
  {
  }

  /** Some measurement was accepted after step `c`. */
  predicate AcceptsAfter(steps: seq<Step>, c: nat) {
    exists k :: c < k < |steps| && Accepts(steps[k])
  }

  lemma {:induction false} SinceClose(capacity: nat, steps: seq<Step>, c: nat)
    requires Run(New(capacity), steps).Some? && c < |steps| && steps[c] == CloseCancels
    ensures Run(New(capacity), steps[..c]).Some?
    ensures Since(Run(New(capacity), steps[..c]).value, Run(New(capacity), steps).value, AcceptsAfter(steps, c))
    decreases |steps|
  {
    PrefixRuns(New(capacity), steps, c);
    var n := |steps| - 1;
    if c == n {
      RunKeepsInv(capacity, steps[..c]);
      SinceCancel(Run(New(capacity), steps[..c]).value, Run(New(capacity), steps).value);
      assert !AcceptsAfter(steps, c);
    } else {
      SinceClose(capacity, steps[..n], c);
      assert steps[..n][..c] == steps[..c];
      AcceptsOneMore(steps, c);
      SinceStep(Run(New(capacity), steps[..c]).value, Run(New(capacity), steps[..n]).value,
                AcceptsAfter(steps[..n], c), steps[n], Run(New(capacity), steps).value);
    }
  }

  lemma SinceCancel(q: Queue, r: Queue)
    requires Inv(q) && Do(q, CloseCancels) == Some(r)
    ensures Since(q, r, false)
  {
  }

  lemma AcceptsOneMore(steps: seq<Step>, c: nat)
    requires c < |steps| - 1
    ensures AcceptsAfter(steps, c) <==> AcceptsAfter(steps[..|steps| - 1], c) || Accepts(steps[|steps| - 1])
  {
    var n := |steps| - 1;
    if AcceptsAfter(steps[..n], c) {
      var k :| c < k < n && Accepts(steps[..n][k]);
      assert Accepts(steps[k]);
    }
    if AcceptsAfter(steps, c) {
      var k :| c < k < |steps| && Accepts(steps[k]);
      assert k < n ==> Accepts(steps[..n][k]);
    }
  }

  /** Under every interleaving, an accepted measurement is saved under a live context exactly when its save
      had ended when Close was called: what was queued or being saved then is attempted under the
      cancelled context. */
  lemma SavedIffDoneBeforeClose(capacity: nat, steps: seq<Step>, c: nat, i: nat)
    requires Run(New(capacity), steps).Some? && c < |steps| && steps[c] == CloseCancels
    ensures Run(New(capacity), steps[..c]).Some?
    ensures Run(New(capacity), steps).value.SavedLive(i) <==> i < |Run(New(capacity), steps[..c]).value.attempted|
  {
    SinceClose(capacity, steps, c);
  }

  /** So everything that was accepted is saved exactly when the queue was idle when Close was called and
      accepted nothing afterwards. */
  lemma AllSavedIffIdle(capacity: nat, steps: seq<Step>, c: nat)
    requires Run(New(capacity), steps).Some? && c < |steps| && steps[c] == CloseCancels
    ensures Run(New(capacity), steps[..c]).Some?
    ensures var q := Run(New(capacity), steps).value;
            (forall i :: 0 <= i < |q.accepted| ==> q.SavedLive(i)) <==>
            Run(New(capacity), steps[..c]).value.Idle() && !AcceptsAfter(steps, c)
  {
    SinceClose(capacity, steps, c);
    RunKeepsInv(capacity, steps[..c]);
    var before, q := Run(New(capacity), steps[..c]).value, Run(New(capacity), steps).value;
    AllLiveIff(before, q);
    AcceptedIff(before);
  }

  lemma AllLiveIff(before: Queue, q: Queue)
    requires |q.live| == |q.attempted| >= |before.attempted|
    requires forall i :: 0 <= i < |q.live| ==> (q.live[i] <==> i < |before.attempted|)
    ensures (forall i :: 0 <= i < |q.accepted| ==> q.SavedLive(i)) <==> |q.accepted| <= |before.attempted|
  {
    if |q.accepted| > |before.attempted| {
      assert !q.SavedLive(|before.attempted|);
    }
  }

  lemma AcceptedIff(q: Queue)
    requires Inv(q)
    ensures |q.accepted| >= |q.attempted|
    ensures |q.accepted| == |q.attempted| <==> q.Idle()
  {
  }

  /** No capacity makes Notify's `true` a promise to save: a measurement that is being saved when Close is
      called is accepted, and its save is cut off. */
  function CutOff(m: Measurement): seq<Step> {
    [NotifyHandsOver(m), CloseCancels, ConsumerSaves, ConsumerSeesCancel, DrainEnds, LoggerStops, CloseReturns]
  }

  lemma CutOffIsNotSaved(capacity: nat, m: Measurement)
    ensures var q := Run(New(capacity), CutOff(m));
            q.Some? && q.value.closer.Returned? && q.value.accepted == [m] && !q.value.SavedLive(0)
  {
    var q, steps := New(capacity), CutOff(m);
    CutOffSaves(capacity, m);
    var r := q.(cancelled := true, closer := WaitingForGoroutines, accepted := [m], attempted := [m], live := [false],
                mark := 1);
    RunStep(q, steps, 3, r, r.(consumer := Draining));
    RunStep(q, steps, 4, r.(consumer := Draining), r.(consumer := Exited));
    RunStep(q, steps, 5, r.(consumer := Exited), r.(consumer := Exited, loggerDone := true));
    RunStep(q, steps, 6, r.(consumer := Exited, loggerDone := true),
            r.(consumer := Exited, loggerDone := true, closer := Returned));
    assert steps[..7] == steps;
  }

  lemma CutOffSaves(capacity: nat, m: Measurement)
    ensures Run(New(capacity), CutOff(m)[..3]) ==
            Some(New(capacity).(cancelled := true, closer := WaitingForGoroutines, accepted := [m], attempted := [m],
                                live := [false], mark := 1))
  {
    var q, steps := New(capacity), CutOff(m);
    var r := q.(consumer := Saving(m), accepted := [m]);
    var s := r.(cancelled := true, closer := WaitingForGoroutines, mark := 1);
    assert [] + [m] == [m] && [] + [false] == [false];
    RunStep(q, steps, 0, q, r);
    RunStep(q, steps, 1, r, s);
    RunStep(q, steps, 2, s, s.(consumer := Listening, attempted := [m], live := [false]));
  }

  // ----- what is attempted -----

  /** Everything that Notify accepted has been attempted whenever Close has returned. */
  ghost predicate AttemptsAll(capacity: nat) {
    forall steps :: Run(New(capacity), steps).Some? && Run(New(capacity), steps).value.closer.Returned? ==>
                      Run(New(capacity), steps).value.attempted == Run(New(capacity), steps).value.accepted
  }

  /** The drain finishes, and only then a producer's select picks the send. */
  function LateNotify(m: Measurement): seq<Step> {
    [CloseCancels, ConsumerSeesCancel, DrainEnds, NotifySends(m), LoggerStops, CloseReturns]
  }

  lemma LateNotifyIsNotAttempted(capacity: nat, m: Measurement)
    requires capacity > 0
    ensures var q := Run(New(capacity), LateNotify(m));
            q.Some? && q.value.closer.Returned? && q.value.accepted == [m] && q.value.attempted == []
  {
    var q, steps := New(capacity), LateNotify(m);
    var r := q.(cancelled := true, closer := WaitingForGoroutines);
    RunStep(q, steps, 0, q, r);
    RunStep(q, steps, 1, r, r.(consumer := Draining));
    RunStep(q, steps, 2, r.(consumer := Draining), r.(consumer := Exited));
    var s := r.(consumer := Exited, channel := [m], accepted := [m]);
    assert [] + [m] == [m];
    RunStep(q, steps, 3, r.(consumer := Exited), s);
    RunStep(q, steps, 4, s, s.(loggerDone := true));
    RunStep(q, steps, 5, s.(loggerDone := true), s.(loggerDone := true, closer := Returned));
    assert steps[..6] == steps;
  }

  /** Everything accepted is at least attempted exactly for an unbuffered queue; with a buffer a measurement
      may be accepted that nobody takes out any more. */
  lemma AttemptsAllIffUnbuffered(capacity: nat)
    ensures AttemptsAll(capacity) <==> capacity == 0
  {
    if capacity == 0 {
      forall steps | Run(New(0), steps).Some? && Run(New(0), steps).value.closer.Returned?
        ensures Run(New(0), steps).value.attempted == Run(New(0), steps).value.accepted
      {
        RunKeepsInv(0, steps);
      }
    } else {
      LateNotifyIsNotAttempted(capacity, "m");
    }
  }
}
