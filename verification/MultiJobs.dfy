/** Sequential execution of a job on several clients: the executor loop, the clients, the listener and
    the goroutines that hand results over an unbuffered channel (server/api_helper_jobs.go,
    server/client_listener.go, server/server.go). */
module MultiJobs {
  import opened Text

  /** Why createAndRunJob failed: ErrClientNotConnected, or any other error. */
  datatype Failure = NotConnected | OtherError

  /** Where the executor is. `Top(i)` is the loop head for client i, `Calling(i)` inside createAndRunJob,
      `Waiting(i)` at the channel receive; the deferred calls run in `Ending` and `Ended`. */
  datatype Executor = Top(i: nat) | Calling(i: nat) | Waiting(i: nat) | Ending | Ended | Gone

  /** What became of the job sent to a client. `Reported` is on its way to the listener, `Offered` is held
      by a goroutine that sends it to the channel, `Lost` could not be saved or had no channel. */
  datatype Job = Unsent | Running | Reported(failed: bool) | Offered(failed: bool) | Received | Lost

  datatype Event =
    | Started(client: nat)
    | StartFailed(client: nat, why: Failure)
    | Result(client: nat, failed: bool)
    | Closed

  /** `lossy`: a start may be reported as failed although the client runs the job. */
  datatype Config = Config(clients: nat, abortOnErr: bool, lossy: bool)

  datatype State = State(
    executor: Executor,
    jobs: seq<Job>,
    registered: bool,
    closed: bool,
    panicked: bool,
    log: seq<Event>)

  datatype Step =
    | NewIdFails
    | SendJob
    | ClientAccepts
    | StartReturns
    | StartReturnsError(why: Failure)
    | LoopEnds
    | ClientReports(i: nat, failed: bool)
    | ListenerHandles(i: nat, saved: bool)
    | Rendezvous(i: nat)
    | CloseChannel
    | Unregister
    | SendOnClosed(i: nat)

  function Init(cfg: Config): State {
    State(Top(0), seq(cfg.clients, _ => Unsent), true, false, false, [])
  }

  /** After an error or a failed result: abort, or go on with the next client. */
  function Next(cfg: Config, i: nat, aborts: bool): Executor {
    if cfg.abortOnErr && aborts then Ending else Top(i + 1)
  }

  /** One step of any thread; None when it is not enabled. */
  function Do(cfg: Config, s: State, step: Step): Option<State> {
    match step
    case NewIdFails =>
      if s.executor.Top? && s.executor.i < cfg.clients then Some(s.(executor := Ending)) else None
    case SendJob =>
      if s.executor.Top? && s.executor.i < cfg.clients then
        Some(s.(executor := Calling(s.executor.i), log := s.log + [Started(s.executor.i)]))
      else None
    case ClientAccepts =>
      if s.executor.Calling? && s.executor.i < |s.jobs| && s.jobs[s.executor.i] == Unsent then
        Some(s.(jobs := s.jobs[s.executor.i := Running]))
      else None
    case StartReturns =>
      if s.executor.Calling? && s.executor.i < |s.jobs| && s.jobs[s.executor.i] != Unsent then
        Some(s.(executor := Waiting(s.executor.i)))
      else None
    case StartReturnsError(why) =>
      if s.executor.Calling? && s.executor.i < |s.jobs| && (cfg.lossy || s.jobs[s.executor.i] == Unsent) then
        Some(s.(executor := Next(cfg, s.executor.i, why == OtherError),
                log := s.log + [StartFailed(s.executor.i, why)]))
      else None
    case LoopEnds =>
      if s.executor == Top(cfg.clients) then Some(s.(executor := Ending)) else None
    case ClientReports(i, failed) =>
      if i < |s.jobs| && s.jobs[i] == Running then Some(s.(jobs := s.jobs[i := Reported(failed)])) else None
    case ListenerHandles(i, saved) =>
      if i < |s.jobs| && s.jobs[i].Reported? then
        Some(s.(jobs := s.jobs[i := if saved && s.registered then Offered(s.jobs[i].failed) else Lost]))
      else None
    case Rendezvous(i) =>
      if s.executor.Waiting? && i < |s.jobs| && s.jobs[i].Offered? && !s.closed then
        Some(s.(executor := Next(cfg, s.executor.i, s.jobs[i].failed),
                jobs := s.jobs[i := Received],
                log := s.log + [Result(i, s.jobs[i].failed)]))
      else None
    case CloseChannel =>
      if s.executor.Ending? then Some(s.(executor := Ended, closed := true, log := s.log + [Closed])) else None
    case Unregister =>
      if s.executor.Ended? then Some(s.(executor := Gone, registered := false)) else None
    case SendOnClosed(i) =>
      if i < |s.jobs| && s.jobs[i].Offered? && s.closed then Some(s.(panicked := true)) else None
  }

  function Run(cfg: Config, s: State, steps: seq<Step>): Option<State> {
    if steps == [] then Some(s)
    else
      match Run(cfg, s, steps[..|steps| - 1])
      case None => None
      case Some(t) => Do(cfg, t, steps[|steps| - 1])
  }

  // ----- the sequential program it implements -----

  /** A loop without channels and threads: start a client, take its result, go on or stop. */
  datatype Phase = Ready(next: nat) | Busy(client: nat) | Stopping | Shut

  function Replay(cfg: Config, log: seq<Event>): Option<Phase> {
    if log == [] then Some(Ready(0))
    else
      match Replay(cfg, log[..|log| - 1])
      case None => None
      case Some(phase) => ReplayOne(cfg, phase, log[|log| - 1])
  }

  function ReplayOne(cfg: Config, phase: Phase, e: Event): Option<Phase> {
    match e
    case Started(c) => if phase == Ready(c) && c < cfg.clients then Some(Busy(c)) else None
    case StartFailed(c, why) =>
      if phase != Busy(c) then None
      else Some(if cfg.abortOnErr && why == OtherError then Stopping else Ready(c + 1))
    case Result(c, failed) =>
      if phase != Busy(c) then None
      else Some(if cfg.abortOnErr && failed then Stopping else Ready(c + 1))
    case Closed => if phase.Ready? || phase.Stopping? then Some(Shut) else None
  }

  /** A job was started and its result has not come back. */
  predicate Outstanding(s: State, i: nat) {
    i < |s.jobs| && (s.jobs[i].Running? || s.jobs[i].Reported? || s.jobs[i].Offered?)
  }

  ghost predicate Safe(cfg: Config, s: State) {
    && Replay(cfg, s.log).Some?
    && (forall i, j :: Outstanding(s, i) && Outstanding(s, j) ==> i == j)
    && (s.closed ==> forall i :: !Outstanding(s, i))
    && !s.panicked
  }

  /** No job is left running by a start that is reported as failed. */
  predicate Honest(cfg: Config) {
    !cfg.lossy || cfg.clients == 0
  }

  /** The invariant: only the current client's job is in flight, and the log is where the executor is. */
  ghost predicate Inv(cfg: Config, s: State) {
    && |s.jobs| == cfg.clients && !s.panicked
    && s.closed == (s.executor.Ended? || s.executor.Gone?)
    && s.registered == !s.executor.Gone?
    && (forall i :: Outstanding(s, i) ==> (s.executor.Calling? || s.executor.Waiting?) && i == s.executor.i)
    && InStep(cfg, s)
  }

  ghost predicate InStep(cfg: Config, s: State) {
    match s.executor
    case Top(i) => i <= cfg.clients && Replay(cfg, s.log) == Some(Ready(i)) && UnsentFrom(s.jobs, i)
    case Calling(i) =>
      && i < cfg.clients && Replay(cfg, s.log) == Some(Busy(i)) && UnsentFrom(s.jobs, i + 1)
      && i < |s.jobs| && s.jobs[i] != Received
    case Waiting(i) =>
      && i < cfg.clients && Replay(cfg, s.log) == Some(Busy(i)) && UnsentFrom(s.jobs, i + 1)
      && i < |s.jobs| && s.jobs[i] != Received && s.jobs[i] != Unsent
    case Ending => exists p :: Replay(cfg, s.log) == Some(p) && (p.Ready? || p.Stopping?)
    case _ => Replay(cfg, s.log) == Some(Shut)
  }

  ghost predicate UnsentFrom(jobs: seq<Job>, i: nat) {
    forall j :: i <= j < |jobs| ==> jobs[j] == Unsent
  }

  lemma ReplayAppend(cfg: Config, log: seq<Event>, e: Event)
    ensures Replay(cfg, log + [e]) ==
            match Replay(cfg, log) case None => None case Some(p) => ReplayOne(cfg, p, e)
  {
    assert (log + [e])[..|log|] == log;
  }

  /** A start is reported as failed although its job is under way. */
  predicate LeavesJob(s: State, step: Step) {
    step.StartReturnsError? && s.executor.Calling? && Outstanding(s, s.executor.i)
  }

  lemma HonestLeavesNone(cfg: Config, s: State, step: Step)
    requires Honest(cfg) && Inv(cfg, s) && Do(cfg, s, step).Some?
    ensures !LeavesJob(s, step)
  {
  }

  lemma ExecutorKeepsInv(cfg: Config, s: State, step: Step, t: State)
    requires Inv(cfg, s) && Do(cfg, s, step) == Some(t) && !LeavesJob(s, step)
    requires !step.ClientReports? && !step.ListenerHandles? && !step.Rendezvous?
    ensures Inv(cfg, t)
  {
    if |t.log| > |s.log| {
      ReplayAppend(cfg, s.log, t.log[|s.log|]);
    }
    assert step.SendOnClosed? ==> Outstanding(s, step.i);
    assert forall i :: Outstanding(t, i) ==> Outstanding(s, i) || (step.ClientAccepts? && i == s.executor.i);
  }

  lemma ReportKeepsInv(cfg: Config, s: State, step: Step, t: State)
    requires Inv(cfg, s) && Do(cfg, s, step) == Some(t) && (step.ClientReports? || step.ListenerHandles?)
    ensures Inv(cfg, t)
  {
    assert Outstanding(s, step.i);
    assert forall i :: Outstanding(t, i) ==> Outstanding(s, i);
  }

  lemma RendezvousKeepsInv(cfg: Config, s: State, i: nat, t: State)
    requires Inv(cfg, s) && Do(cfg, s, Rendezvous(i)) == Some(t)
    ensures Inv(cfg, t)
  {
    assert Outstanding(s, i);
    assert forall j :: Outstanding(t, j) ==> Outstanding(s, j) && j != i;
    ReplayAppend(cfg, s.log, Result(i, s.jobs[i].failed));
  }

  /** Reporting a result, saving it and handing it over keep the invariant. */
  lemma ResultKeepsInv(cfg: Config, s: State, step: Step, t: State)
    requires Inv(cfg, s) && Do(cfg, s, step) == Some(t)
    requires step.ClientReports? || step.ListenerHandles? || step.Rendezvous?
    ensures Inv(cfg, t)
  {
    if step.Rendezvous? {
      RendezvousKeepsInv(cfg, s, step.i, t);
    } else {
      ReportKeepsInv(cfg, s, step, t);
    }
  }

  lemma StepKeepsInv(cfg: Config, s: State, step: Step, t: State)
    requires Inv(cfg, s) && Do(cfg, s, step) == Some(t) && !LeavesJob(s, step)
    ensures Inv(cfg, t)
  {
    if step.ClientReports? || step.ListenerHandles? || step.Rendezvous? {
      ResultKeepsInv(cfg, s, step, t);
    } else {
      ExecutorKeepsInv(cfg, s, step, t);
    }
  }

  lemma {:induction false} RunKeepsInv(cfg: Config, steps: seq<Step>)
    requires Honest(cfg) && Run(cfg, Init(cfg), steps).Some?
    ensures Inv(cfg, Run(cfg, Init(cfg), steps).value)
  {
    if steps == [] {
    } else {
      var n := |steps| - 1;
      RunKeepsInv(cfg, steps[..n]);
      HonestLeavesNone(cfg, Run(cfg, Init(cfg), steps[..n]).value, steps[n]);
      StepKeepsInv(cfg, Run(cfg, Init(cfg), steps[..n]).value, steps[n], Run(cfg, Init(cfg), steps).value);
    }
  }

  /** Under every interleaving the protocol is the sequential loop: clients are started in list order
      and only after the previous one is done, a result is that of the client just started, nothing is
      started after an abort, at most one job is outstanding, none when the channel is closed, and no
      goroutine sends on the closed channel. This needs that a failed start leaves no job running, and
      that is exactly what it needs. */
  lemma SafeIffStartsAreHonest(cfg: Config)
    ensures (forall steps :: Run(cfg, Init(cfg), steps).Some? ==> Safe(cfg, Run(cfg, Init(cfg), steps).value))
            <==> Honest(cfg)
  {
    if Honest(cfg) {
      forall steps | Run(cfg, Init(cfg), steps).Some? ensures Safe(cfg, Run(cfg, Init(cfg), steps).value) {
        RunKeepsInv(cfg, steps);
      }
    } else {
      LateResultPanics(cfg);
    }
  }

  /** The client runs the job and reports it, but the reply to the start request is lost: the executor
      moves on and closes the channel under the goroutine that holds the result. */
  function LateResult(cfg: Config): seq<Step> {
    [SendJob, ClientAccepts, ClientReports(0, false), ListenerHandles(0, true), StartReturnsError(OtherError)] +
    Leave(cfg) + [CloseChannel, SendOnClosed(0)]
  }

  /** A step that ends the loop, unless the error has ended it. */
  function Leave(cfg: Config): seq<Step> {
    if cfg.abortOnErr then [] else if cfg.clients == 1 then [LoopEnds] else [NewIdFails]
  }

  lemma RunAppend(cfg: Config, s: State, steps: seq<Step>, step: Step)
    ensures Run(cfg, s, steps + [step]) ==
            match Run(cfg, s, steps) case None => None case Some(t) => Do(cfg, t, step)
  {
    assert (steps + [step])[..|steps|] == steps;
  }

  lemma RunStep(cfg: Config, s: State, steps: seq<Step>, t: State, step: Step, u: State)
    requires Run(cfg, s, steps) == Some(t) && Do(cfg, t, step) == Some(u)
    ensures Run(cfg, s, steps + [step]) == Some(u)
  {
    RunAppend(cfg, s, steps, step);
  }

  /** The first half: the executor is still in its call, and a goroutine holds the result. */
  lemma LateOffer(cfg: Config)
    requires cfg.clients > 0
    ensures Run(cfg, Init(cfg), [SendJob] + [ClientAccepts] + [ClientReports(0, false)] + [ListenerHandles(0, true)]) ==
            Some(Init(cfg).(executor := Calling(0), jobs := Init(cfg).jobs[0 := Offered(false)], log := [Started(0)]))
  {
    var s := Init(cfg);
    var t := s.(executor := Calling(0), log := [Started(0)]);
    var jobs := s.jobs;
    assert [] + [SendJob] == [SendJob] && [] + [Started(0)] == [Started(0)];
    RunStep(cfg, s, [], s, SendJob, t);
    RunStep(cfg, s, [SendJob], t, ClientAccepts, t.(jobs := jobs[0 := Running]));
    assert jobs[0 := Running][0 := Reported(false)] == jobs[0 := Reported(false)];
    RunStep(cfg, s, [SendJob] + [ClientAccepts], t.(jobs := jobs[0 := Running]), ClientReports(0, false),
            t.(jobs := jobs[0 := Reported(false)]));
    assert jobs[0 := Reported(false)][0 := Offered(false)] == jobs[0 := Offered(false)];
    RunStep(cfg, s, [SendJob] + [ClientAccepts] + [ClientReports(0, false)], t.(jobs := jobs[0 := Reported(false)]),
            ListenerHandles(0, true), t.(jobs := jobs[0 := Offered(false)]));
  }

  /** The second half: the executor leaves the loop, */
  lemma LateLeave(cfg: Config, s: State, past: seq<Step>, t: State)
    requires cfg.clients > 0 && Run(cfg, s, past) == Some(t) && t.executor == Next(cfg, 0, true)
    ensures Run(cfg, s, past + Leave(cfg)) == Some(t.(executor := Ending))
  {
    if cfg.abortOnErr {
      assert past + [] == past;
    } else {
      RunStep(cfg, s, past, t, Leave(cfg)[0], t.(executor := Ending));
    }
  }

  /** and closes the channel under the goroutine. */
  lemma LateClose(cfg: Config, s: State, past: seq<Step>, t: State)
    requires Run(cfg, s, past) == Some(t) && t.executor.Ending? && t.jobs != [] && t.jobs[0].Offered?
    ensures Run(cfg, s, past + [CloseChannel] + [SendOnClosed(0)]).Some?
    ensures Run(cfg, s, past + [CloseChannel] + [SendOnClosed(0)]).value.panicked
  {
    var u := t.(executor := Ended, closed := true, log := t.log + [Closed]);
    RunStep(cfg, s, past, t, CloseChannel, u);
    RunStep(cfg, s, past + [CloseChannel], u, SendOnClosed(0), u.(panicked := true));
  }

  lemma LateResultPanics(cfg: Config)
    requires cfg.lossy && cfg.clients > 0
    ensures Run(cfg, Init(cfg), LateResult(cfg)).Some?
    ensures Run(cfg, Init(cfg), LateResult(cfg)).value.panicked
  {
    var s := Init(cfg);
    var a := [SendJob] + [ClientAccepts] + [ClientReports(0, false)] + [ListenerHandles(0, true)];
    LateOffer(cfg);
    var t := Run(cfg, s, a).value;
    var u := t.(executor := Next(cfg, 0, true), log := t.log + [StartFailed(0, OtherError)]);
    RunStep(cfg, s, a, t, StartReturnsError(OtherError), u);
    var b := a + [StartReturnsError(OtherError)];
    LateLeave(cfg, s, b, u);
    LateClose(cfg, s, b + Leave(cfg), u.(executor := Ending));
    assert b + Leave(cfg) + [CloseChannel] + [SendOnClosed(0)] == LateResult(cfg);
  }

  // ----- run by run -----

  /** Safe, and every job under way is that of the client just started. */
  ghost predicate Tidy(cfg: Config, s: State) {
    && Safe(cfg, s)
    && forall i :: Outstanding(s, i) ==> (s.executor.Calling? || s.executor.Waiting?) && i == s.executor.i
  }

  ghost predicate TidyAt(cfg: Config, steps: seq<Step>, k: nat)
    requires k <= |steps|
  {
    Run(cfg, Init(cfg), steps[..k]).Some? && Tidy(cfg, Run(cfg, Init(cfg), steps[..k]).value)
  }

  ghost predicate LeavesAt(cfg: Config, steps: seq<Step>, k: nat)
    requires k < |steps|
  {
    Run(cfg, Init(cfg), steps[..k]).Some? && LeavesJob(Run(cfg, Init(cfg), steps[..k]).value, steps[k])
  }

  lemma {:induction false} PrefixRuns(cfg: Config, s: State, steps: seq<Step>, k: nat)
    requires k <= |steps| && Run(cfg, s, steps).Some?
    ensures Run(cfg, s, steps[..k]).Some?
    decreases |steps|
  {
    if k == |steps| {
      assert steps[..k] == steps;
    } else {
      PrefixRuns(cfg, s, steps[..|steps| - 1], k);
      assert steps[..|steps| - 1][..k] == steps[..k];
    }
  }

  lemma NextOfRun(cfg: Config, s: State, steps: seq<Step>, k: nat)
    requires k < |steps| && Run(cfg, s, steps).Some?
    ensures Run(cfg, s, steps[..k]).Some? && Run(cfg, s, steps[..k + 1]).Some?
    ensures Do(cfg, Run(cfg, s, steps[..k]).value, steps[k]) == Run(cfg, s, steps[..k + 1])
  {
    PrefixRuns(cfg, s, steps, k);
    PrefixRuns(cfg, s, steps, k + 1);
    assert steps[..k + 1][..k] == steps[..k];
  }

  lemma {:induction false} NoJobLeftKeepsInv(cfg: Config, steps: seq<Step>, k: nat)
    requires Run(cfg, Init(cfg), steps).Some? && k <= |steps|
    requires forall j :: 0 <= j < k ==> !LeavesAt(cfg, steps, j)
    ensures Run(cfg, Init(cfg), steps[..k]).Some? && Inv(cfg, Run(cfg, Init(cfg), steps[..k]).value)
    decreases k
  {
    if k == 0 {
    } else {
      NoJobLeftKeepsInv(cfg, steps, k - 1);
      NextOfRun(cfg, Init(cfg), steps, k - 1);
      assert !LeavesAt(cfg, steps, k - 1);
      StepKeepsInv(cfg, Run(cfg, Init(cfg), steps[..k - 1]).value, steps[k - 1],
                   Run(cfg, Init(cfg), steps[..k]).value);
    }
  }

  lemma LeavingIsUntidy(cfg: Config, s: State, step: Step, t: State)
    requires Do(cfg, s, step) == Some(t) && LeavesJob(s, step)
    ensures !Tidy(cfg, t)
  {
    assert Outstanding(t, s.executor.i);
  }

  /** Every run, of any configuration: it is tidy all the time if and only if no start that failed has left a
      job under way. */
  lemma TidyIffNoJobLeft(cfg: Config, steps: seq<Step>)
    requires Run(cfg, Init(cfg), steps).Some?
    ensures (forall k :: 0 <= k <= |steps| ==> TidyAt(cfg, steps, k)) <==>
            (forall k :: 0 <= k < |steps| ==> !LeavesAt(cfg, steps, k))
  {
    if forall k :: 0 <= k <= |steps| ==> TidyAt(cfg, steps, k) {
      forall k | 0 <= k < |steps| ensures !LeavesAt(cfg, steps, k) {
        assert TidyAt(cfg, steps, k + 1);
        NextOfRun(cfg, Init(cfg), steps, k);
        if LeavesAt(cfg, steps, k) {
          LeavingIsUntidy(cfg, Run(cfg, Init(cfg), steps[..k]).value, steps[k],
                          Run(cfg, Init(cfg), steps[..k + 1]).value);
        }
      }
    } else if forall k :: 0 <= k < |steps| ==> !LeavesAt(cfg, steps, k) {
      forall k | 0 <= k <= |steps| ensures TidyAt(cfg, steps, k) {
        NoJobLeftKeepsInv(cfg, steps, k);
      }
    }
  }

  /** No start fails in these steps. */
  ghost predicate NoFailedStart(steps: seq<Step>) {
    forall k :: 0 <= k < |steps| ==> !steps[k].StartReturnsError?
  }

  ghost predicate Panics(cfg: Config, s: State, steps: seq<Step>) {
    NoFailedStart(steps) && Run(cfg, s, steps).Some? && Run(cfg, s, steps).value.panicked
  }

  lemma {:induction false} NoFailedStartKeepsInv(cfg: Config, s: State, steps: seq<Step>)
    requires Inv(cfg, s) && NoFailedStart(steps) && Run(cfg, s, steps).Some?
    ensures Inv(cfg, Run(cfg, s, steps).value)
    decreases |steps|
  {
    if steps == [] {
    } else {
      var n := |steps| - 1;
      NoFailedStartKeepsInv(cfg, s, steps[..n]);
      StepKeepsInv(cfg, Run(cfg, s, steps[..n]).value, steps[n], Run(cfg, s, steps).value);
    }
  }

  /** The program can panic without a further failed start. */
  ghost predicate CanPanic(cfg: Config, s: State) {
    exists steps :: Panics(cfg, s, steps)
  }

  lemma CanPanicBefore(cfg: Config, s: State, step: Step, t: State)
    requires Do(cfg, s, step) == Some(t) && !step.StartReturnsError? && CanPanic(cfg, t)
    ensures CanPanic(cfg, s)
  {
    var steps :| Panics(cfg, t, steps);
    RunAfterStep(cfg, s, step, t, steps);
    assert Panics(cfg, s, [step] + steps);
  }

  lemma ClosedPanics(cfg: Config, s: State, i: nat)
    requires s.closed && i < |s.jobs| && s.jobs[i].Offered?
    ensures CanPanic(cfg, s)
  {
    var t := s.(panicked := true);
    assert Panics(cfg, t, []);
    CanPanicBefore(cfg, s, SendOnClosed(i), t);
  }

  /** The executor closes the channel under the goroutine that holds a result. */
  lemma OfferedPanics(cfg: Config, s: State, i: nat)
    requires i < |s.jobs| && s.jobs[i].Offered?
    requires s.executor.Ending? || (s.executor.Top? && s.executor.i <= cfg.clients)
    ensures CanPanic(cfg, s)
  {
    var t := s.(executor := Ending);
    var u := t.(executor := Ended, closed := true, log := t.log + [Closed]);
    ClosedPanics(cfg, u, i);
    CanPanicBefore(cfg, t, CloseChannel, u);
    if s.executor.Top? {
      CanPanicBefore(cfg, s, if s.executor.i < cfg.clients then NewIdFails else LoopEnds, t);
    }
  }

  lemma ReportedPanics(cfg: Config, s: State, i: nat)
    requires i < |s.jobs| && s.jobs[i].Reported? && s.registered
    requires s.executor.Ending? || (s.executor.Top? && s.executor.i <= cfg.clients)
    ensures CanPanic(cfg, s)
  {
    var t := s.(jobs := s.jobs[i := Offered(s.jobs[i].failed)]);
    OfferedPanics(cfg, t, i);
    CanPanicBefore(cfg, s, ListenerHandles(i, true), t);
  }

  lemma LeftJobPanics(cfg: Config, s: State, i: nat)
    requires Outstanding(s, i) && s.registered
    requires s.executor.Ending? || (s.executor.Top? && s.executor.i <= cfg.clients)
    ensures CanPanic(cfg, s)
  {
    if s.jobs[i].Offered? {
      OfferedPanics(cfg, s, i);
    } else if s.jobs[i].Reported? {
      ReportedPanics(cfg, s, i);
    } else {
      var t := s.(jobs := s.jobs[i := Reported(false)]);
      ReportedPanics(cfg, t, i);
      CanPanicBefore(cfg, s, ClientReports(i, false), t);
    }
  }

  /** In a run that has left no job so far, the next step leaves one if and only if the program can then panic
      without a further failed start. */
  lemma PanicsIffJobLeft(cfg: Config, steps: seq<Step>, k: nat)
    requires Run(cfg, Init(cfg), steps).Some? && k < |steps|
    requires forall j :: 0 <= j < k ==> !LeavesAt(cfg, steps, j)
    ensures Run(cfg, Init(cfg), steps[..k + 1]).Some?
    ensures LeavesAt(cfg, steps, k) <==> CanPanic(cfg, Run(cfg, Init(cfg), steps[..k + 1]).value)
  {
    NoJobLeftKeepsInv(cfg, steps, k);
    NextOfRun(cfg, Init(cfg), steps, k);
    var s, t := Run(cfg, Init(cfg), steps[..k]).value, Run(cfg, Init(cfg), steps[..k + 1]).value;
    if LeavesAt(cfg, steps, k) {
      LeftJobPanics(cfg, t, s.executor.i);
    } else {
      StepKeepsInv(cfg, s, steps[k], t);
      forall more ensures !Panics(cfg, t, more) {
        if Panics(cfg, t, more) {
          NoFailedStartKeepsInv(cfg, t, more);
        }
      }
    }
  }

  // ----- when the run can end -----

  /** The executor waits, or is about to wait, for a result that was lost on the way. */
  predicate Stuck(s: State) {
    (s.executor.Calling? || s.executor.Waiting?) && s.executor.i < |s.jobs| && s.jobs[s.executor.i] == Lost
  }

  /** No new failure: ids can be generated, starts succeed, results can be saved. */
  predicate Smooth(step: Step) {
    !step.NewIdFails? && !step.StartReturnsError? && (step.ListenerHandles? ==> step.saved)
  }

  /** These steps take `s` to the end: the channel is closed and unregistered. */
  ghost predicate Ends(cfg: Config, s: State, steps: seq<Step>) {
    Run(cfg, s, steps).Some? && Run(cfg, s, steps).value.executor.Gone?
  }

  ghost predicate AllSmooth(steps: seq<Step>) {
    forall k :: 0 <= k < |steps| ==> Smooth(steps[k])
  }

  lemma StuckStays(cfg: Config, s: State, step: Step, t: State)
    requires Honest(cfg) && Inv(cfg, s) && Stuck(s) && Do(cfg, s, step) == Some(t)
    ensures Stuck(t)
  {
    assert step.Rendezvous? ==> Outstanding(s, step.i);
  }

  lemma {:induction false} StuckForever(cfg: Config, s: State, steps: seq<Step>)
    requires Honest(cfg) && Inv(cfg, s) && Stuck(s) && Run(cfg, s, steps).Some?
    ensures Inv(cfg, Run(cfg, s, steps).value) && Stuck(Run(cfg, s, steps).value)
    decreases |steps|
  {
    if steps == [] {
    } else {
      var n := |steps| - 1;
      StuckForever(cfg, s, steps[..n]);
      HonestLeavesNone(cfg, Run(cfg, s, steps[..n]).value, steps[n]);
      StepKeepsInv(cfg, Run(cfg, s, steps[..n]).value, steps[n], Run(cfg, s, steps).value);
      StuckStays(cfg, Run(cfg, s, steps[..n]).value, steps[n], Run(cfg, s, steps).value);
    }
  }

  lemma {:induction false} RunAfterStep(cfg: Config, s: State, step: Step, t: State, steps: seq<Step>)
    requires Do(cfg, s, step) == Some(t)
    ensures Run(cfg, s, [step] + steps) == Run(cfg, t, steps)
    decreases |steps|
  {
    if steps == [] {
      assert [step] + steps == [] + [step];
      RunAppend(cfg, s, [], step);
    } else {
      var n := |steps| - 1;
      assert [step] + steps == ([step] + steps[..n]) + [steps[n]];
      RunAfterStep(cfg, s, step, t, steps[..n]);
      RunAppend(cfg, s, [step] + steps[..n], steps[n]);
    }
  }

  /** What the threads do next when nothing fails. */
  function NextStep(cfg: Config, s: State): Step {
    match s.executor
    case Top(i) => if i < cfg.clients then SendJob else LoopEnds
    case Calling(i) => if i < |s.jobs| && s.jobs[i] == Unsent then ClientAccepts else StartReturns
    case Waiting(i) =>
      if i < |s.jobs| && s.jobs[i] == Running then ClientReports(i, false)
      else if i < |s.jobs| && s.jobs[i].Reported? then ListenerHandles(i, true)
      else Rendezvous(i)
    case Ending => CloseChannel
    case _ => Unregister
  }

  /** How much is left to do. */
  function Rank(cfg: Config, s: State): int {
    match s.executor
    case Top(i) => 10 * (cfg.clients - i) + 5
    case Calling(i) => 10 * (cfg.clients - i) + if i < |s.jobs| && s.jobs[i] == Unsent then 4 else 3
    case Waiting(i) =>
      10 * (cfg.clients - i) +
      if i < |s.jobs| && s.jobs[i] == Running then 2 else if i < |s.jobs| && s.jobs[i].Reported? then 1 else 0
    case Ending => 2
    case Ended => 1
    case Gone => 0
  }

  lemma NextStepWorks(cfg: Config, s: State)
    requires Honest(cfg) && Inv(cfg, s) && !Stuck(s) && !s.executor.Gone?
    ensures var t := Do(cfg, s, NextStep(cfg, s));
            t.Some? && !Stuck(t.value) && 0 <= Rank(cfg, t.value) < Rank(cfg, s)
    ensures Smooth(NextStep(cfg, s))
  {
  }

  lemma {:induction false} Finish(cfg: Config, s: State) returns (steps: seq<Step>)
    requires Honest(cfg) && Inv(cfg, s) && !Stuck(s)
    ensures Ends(cfg, s, steps) && AllSmooth(steps)
    decreases Rank(cfg, s)
  {
    if s.executor.Gone? {
      steps := [];
    } else {
      NextStepWorks(cfg, s);
      var step := NextStep(cfg, s);
      var t := Do(cfg, s, step).value;
      HonestLeavesNone(cfg, s, step);
      StepKeepsInv(cfg, s, step, t);
      var rest := Finish(cfg, t);
      RunAfterStep(cfg, s, step, t, rest);
      steps := [step] + rest;
    }
  }

  /** In every reachable state of an honest run: if no awaited result was lost, the run can still end without
      any further failure; if one was, it cannot end at all, and the channel stays registered for ever. */
  lemma EndsIffNotLost(cfg: Config, past: seq<Step>)
    requires Honest(cfg) && Run(cfg, Init(cfg), past).Some?
    ensures var s := Run(cfg, Init(cfg), past).value;
            && (!Stuck(s) <==> exists steps :: Ends(cfg, s, steps))
            && (!Stuck(s) <==> exists steps :: Ends(cfg, s, steps) && AllSmooth(steps))
  {
    var s := Run(cfg, Init(cfg), past).value;
    RunKeepsInv(cfg, past);
    if Stuck(s) {
      forall steps | Run(cfg, s, steps).Some? ensures !Ends(cfg, s, steps) {
        StuckForever(cfg, s, steps);
      }
    } else {
      var steps := Finish(cfg, s);
    }
  }

  // ----- what the sequential program promises -----

  /** In a log of the sequential program, what follows an abort is at most the closing. */
  lemma {:induction false} NothingStartsAfterAbort(cfg: Config, log: seq<Event>, k: nat, l: nat)
    requires Replay(cfg, log).Some? && k < l < |log| && cfg.abortOnErr
    requires (log[k].StartFailed? && log[k].why == OtherError) || (log[k].Result? && log[k].failed)
    ensures log[l] == Closed
    decreases |log|
  {
    ReplayPrefix(cfg, log, k + 1);
    assert log[..k + 1][..k] == log[..k];
    StaysStopped(cfg, log, k + 1, l);
  }

  lemma {:induction false} ReplayPrefix(cfg: Config, log: seq<Event>, k: nat)
    requires Replay(cfg, log).Some? && k <= |log|
    ensures Replay(cfg, log[..k]).Some?
    decreases |log|
  {
    if k < |log| {
      ReplayPrefix(cfg, log[..|log| - 1], k);
      assert log[..|log| - 1][..k] == log[..k];
    } else {
      assert log[..k] == log;
    }
  }

  lemma {:induction false} StaysStopped(cfg: Config, log: seq<Event>, from: nat, l: nat)
    requires Replay(cfg, log).Some? && from <= l < |log|
    requires Replay(cfg, log[..from]).Some?
    requires Replay(cfg, log[..from]).value.Stopping? || Replay(cfg, log[..from]).value.Shut?
    ensures log[l] == Closed
    decreases l - from
  {
    ReplayPrefix(cfg, log, from + 1);
    assert log[..from + 1][..from] == log[..from];
    if from == l {
    } else {
      StaysStopped(cfg, log, from + 1, l);
    }
  }

  /** Starts come in list order without gaps, and every result or error answers the latest start. */
  lemma {:induction false} StartsInOrder(cfg: Config, log: seq<Event>, k: nat)
    requires Replay(cfg, log).Some? && k < |log|
    ensures log[k].Started? ==> log[k].client == CountStarts(log[..k]) && log[k].client < cfg.clients
    ensures log[k].Result? || log[k].StartFailed? ==>
              k > 0 && log[k - 1] == Started(log[k].client) && log[k].client + 1 == CountStarts(log[..k])
  {
    ReplayPrefix(cfg, log, k + 1);
    assert log[..k + 1][..k] == log[..k];
    ReplayCounts(cfg, log[..k]);
  }

  function CountStarts(log: seq<Event>): nat {
    if log == [] then 0
    else CountStarts(log[..|log| - 1]) + if log[|log| - 1].Started? then 1 else 0
  }

  lemma {:induction false} ReplayCounts(cfg: Config, log: seq<Event>)
    requires Replay(cfg, log).Some?
    ensures match Replay(cfg, log).value
            case Ready(i) => CountStarts(log) == i
            case Busy(i) => CountStarts(log) == i + 1 && log != [] && log[|log| - 1] == Started(i)
            case _ => true
  {
    if log == [] {
    } else {
      ReplayCounts(cfg, log[..|log| - 1]);
    }
  }

  // ----- a run ends for a reason -----

  /** Every client was started, or an error or a failed result has ended the run that was to abort on it. */
  ghost predicate Done(cfg: Config, log: seq<Event>) {
    || CountStarts(log) == cfg.clients
    || (cfg.abortOnErr && log != [] && Aborts(log[|log| - 1]))
  }

  predicate Aborts(e: Event) {
    (e.Result? && e.failed) || (e.StartFailed? && e.why == OtherError)
  }

  ghost predicate Reasoned(cfg: Config, s: State) {
    match s.executor
    case Top(i) => CountStarts(s.log) == i <= cfg.clients
    case Calling(i) => CountStarts(s.log) == i + 1 <= cfg.clients
    case Waiting(i) => CountStarts(s.log) == i + 1 <= cfg.clients
    case Ending => Done(cfg, s.log)
    case _ => s.log != [] && s.log[|s.log| - 1] == Closed && Done(cfg, s.log[..|s.log| - 1])
  }

  lemma CountAppend(log: seq<Event>, e: Event)
    ensures (log + [e])[..|log|] == log
    ensures CountStarts(log + [e]) == CountStarts(log) + if e.Started? then 1 else 0
  {
    assert (log + [e])[..|log|] == log;
  }

  lemma QuietStepIsReasoned(cfg: Config, s: State, step: Step, t: State)
    requires Reasoned(cfg, s) && Do(cfg, s, step) == Some(t) && !step.NewIdFails? && t.log == s.log
    ensures Reasoned(cfg, t)
  {
  }

  lemma StepIsReasoned(cfg: Config, s: State, step: Step, t: State)
    requires Reasoned(cfg, s) && Do(cfg, s, step) == Some(t) && !step.NewIdFails?
    ensures Reasoned(cfg, t)
  {
    if step.SendJob? || step.StartReturnsError? || step.Rendezvous? || step.CloseChannel? {
      CountAppend(s.log, t.log[|s.log|]);
    } else {
      QuietStepIsReasoned(cfg, s, step, t);
    }
  }

  lemma {:induction false} RunIsReasoned(cfg: Config, steps: seq<Step>)
    requires Run(cfg, Init(cfg), steps).Some? && NewIdFails !in steps
    ensures Reasoned(cfg, Run(cfg, Init(cfg), steps).value)
  {
    if steps == [] {
    } else {
      var n := |steps| - 1;
      RunIsReasoned(cfg, steps[..n]);
      StepIsReasoned(cfg, Run(cfg, Init(cfg), steps[..n]).value, steps[n], Run(cfg, Init(cfg), steps).value);
    }
  }

  /** Every run of any configuration in which ids can be generated: once the executor has left the loop, it has
      started every client, or it was to abort on errors and the last thing before the closing was a failed
      result or a start that failed otherwise than for want of a connection. */
  lemma EndsForAReason(cfg: Config, steps: seq<Step>)
    requires Run(cfg, Init(cfg), steps).Some? && NewIdFails !in steps
    ensures var s := Run(cfg, Init(cfg), steps).value;
            var log := if s.log != [] && s.log[|s.log| - 1] == Closed then s.log[..|s.log| - 1] else s.log;
            s.executor.Ending? || s.executor.Ended? || s.executor.Gone? ==>
              || CountStarts(log) == cfg.clients
              || (&& cfg.abortOnErr && log != []
                  && ((log[|log| - 1].Result? && log[|log| - 1].failed) ||
                      (log[|log| - 1].StartFailed? && log[|log| - 1].why == OtherError)))
  {
    RunIsReasoned(cfg, steps);
    RunLogsClosing(cfg, steps);
  }

  lemma StepLogsClosing(cfg: Config, s: State, step: Step, t: State)
    requires Do(cfg, s, step) == Some(t) && (!s.executor.Ended? && !s.executor.Gone? ==> Closed !in s.log)
    ensures !t.executor.Ended? && !t.executor.Gone? ==> Closed !in t.log
  {
  }

  /** The closing is logged when the channel is closed, and not before. */
  lemma {:induction false} RunLogsClosing(cfg: Config, steps: seq<Step>)
    requires Run(cfg, Init(cfg), steps).Some?
    ensures var s := Run(cfg, Init(cfg), steps).value; !s.executor.Ended? && !s.executor.Gone? ==> Closed !in s.log
  {
    if steps == [] {
    } else {
      var n := |steps| - 1;
      RunLogsClosing(cfg, steps[..n]);
      StepLogsClosing(cfg, Run(cfg, Init(cfg), steps[..n]).value, steps[n], Run(cfg, Init(cfg), steps).value);
    }
  }

  /** Once the channel is unregistered, no further result is handed to a goroutine. */
  lemma {:induction false} NothingOfferedAfterUnregister(cfg: Config, s: State, steps: seq<Step>, i: nat)
    requires s.executor.Gone? && !s.registered && Run(cfg, s, steps).Some? && i < |s.jobs|
    ensures var t := Run(cfg, s, steps).value;
            t.executor.Gone? && !t.registered && |t.jobs| == |s.jobs| && (t.jobs[i].Offered? ==> s.jobs[i].Offered?)
    decreases |steps|
  {
    if steps == [] {
    } else {
      NothingOfferedAfterUnregister(cfg, s, steps[..|steps| - 1], i);
    }
  }
}
