/** What every run of the executor guarantees, read off its invariant. */
module ExecutorTheorems {
  import opened Lists
  import opened ExecutorSpec
  import opened ExecutorMachine
  import opened ExecutorSafety

  ghost predicate Reachable<H(!new)>(s: Sys<H>) {
    exists s0: Sys<H>, run: seq<Action<H>> :: Initial(s0) && Legal(s0, run) && Exec(s0, run) == s
  }

  lemma ReachableInv<H(!new)>(s: Sys<H>)
    requires Reachable(s)
    ensures Inv(s)
  {
    var s0: Sys<H>, run: seq<Action<H>> :| Initial(s0) && Legal(s0, run) && Exec(s0, run) == s;
    InitialInv(s0);
    RunKeeps(s0, run);
  }

  /** The well-formedness conditions in the guards of the machine's actions exclude no step. */
  lemma GuardsExcludeNothing<H(!new)>(s: Sys<H>, t: nat)
    requires Reachable(s)
    ensures QueueKnown(s.core)
    ensures t in s.threads && s.threads[t].stack != [] ==> s.threads[t].Top().task in s.core.headers
    ensures Present(s, t) && s.threads[t].Now() != NoCall ==> s.threads[t].Now().task in s.core.headers
  {
    ReachableInv(s);
    QueueFacts(s);
    if t in s.threads && s.threads[t].stack != [] {
      TopIsClaimed(s, t);
    }
    if Present(s, t) && s.threads[t].Now() != NoCall {
      CallTaskKnown(s, t);
    }
  }

  // ---- What a section leaves alone ----

  /** Admissions only grow, and only while RUNNING. */
  ghost predicate Grows<H>(s: Sys<H>, r: Sys<H>) {
    s.admitted <= r.admitted && (r.admitted != s.admitted ==> r.core.mode == Running)
  }

  /** Nothing is aborted, and stopping begins only when nothing is outstanding. */
  ghost predicate Gentle<H>(s: Sys<H>, r: Sys<H>) {
    r.aborted == s.aborted &&
    (r.core.mode.AtLeastStopping() ==> s.core.mode.AtLeastStopping() || s.core.outstanding <= 0)
  }

  /** An abort of a runtime at work, or a deadline that passes before its drain is over. */
  predicate Forces<H(==)>(s: Sys<H>, a: Action<H>) {
    || (a == ShutdownCall(true) && s.core.initialized && !s.core.mode.AtLeastStopping())
    || (a == ShutdownIter(true) && s.core.mode == Draining && !Drained(s.core))
  }

  ghost predicate Calm<H>(s: Sys<H>, r: Sys<H>) {
    Grows(s, r) && Gentle(s, r) && r.bodies == s.bodies
  }

  lemma EnqueueIsCalm<H>(s: Sys<H>, t: nat)
    requires Inv(s) && Enabled(s, EnqueueTry(t))
    ensures Calm(s, TryEnqueue(s, t))
  {
    hide Inv;
  }

  lemma CancelIsCalm<H>(s: Sys<H>, h: H)
    requires h in s.core.headers
    ensures Calm(s, CancelAny(s, h)) && CancelAny(s, h).core.mode == s.core.mode
  {
  }

  lemma WaitIsCalm<H>(s: Sys<H>, t: nat)
    requires Enabled(s, WaitTry(t))
    ensures Calm(s, TryWait(s, t))
  {
    hide CancelAny;
    CancelIsCalm(s, s.threads[t].Now().task);
  }

  lemma LoopIsCalm<H>(s: Sys<H>, t: nat)
    requires Enabled(s, WorkerLoop(t))
    ensures Calm(s, RunWorkerLoop(s, t))
  {
  }

  lemma BeginIsGentle<H>(s: Sys<H>, t: nat)
    requires Enabled(s, Begin(t))
    ensures Grows(s, BeginTask(s, t)) && Gentle(s, BeginTask(s, t))
  {
  }

  lemma StopIsCalm<H>(s: Sys<H>)
    requires QueueKnown(s.core)
    ensures var r := StopAndAbort(s);
      Grows(s, r) && r.bodies == s.bodies && (s.core.queue == [] ==> r.aborted == s.aborted)
  {
    hide AbortQueued;
  }

  lemma ShutdownIsCalm<H>(s: Sys<H>, abort: bool)
    requires Inv(s) && QueueKnown(s.core)
    ensures Grows(s, CallShutdown(s, abort)) && CallShutdown(s, abort).bodies == s.bodies
    ensures s.shut == NoShutdown && !Forces(s, ShutdownCall(abort)) ==> Gentle(s, CallShutdown(s, abort))
  {
    hide StopAndAbort, Inv, QueueKnown;
    StopIsCalm(s);
    LifecycleFacts(s);
  }

  lemma LifecycleFacts<H>(s: Sys<H>)
    requires Inv(s)
    ensures s.shut == NoShutdown ==> s.core.mode != Draining
    ensures !s.core.initialized ==> s.core.queue == [] && s.core.outstanding == 0
    ensures s.core.mode.AtLeastStopping() ==> s.core.queue == []
  {
    assert Lifecycle(s.core, LiveWorkers(s.threads), s.shut);
    hide ClaimsFit, SitesFit, Tasks, Counting, Order, Dropped, ClaimLog, Bodies, ThreadShapes;
  }

  lemma IterationIsCalm<H>(s: Sys<H>, timedOut: bool)
    requires QueueKnown(s.core)
    ensures Grows(s, IterateShutdown(s, timedOut)) && IterateShutdown(s, timedOut).bodies == s.bodies
    ensures !Forces(s, ShutdownIter(timedOut)) ==> Gentle(s, IterateShutdown(s, timedOut))
  {
    hide StopAndAbort;
    StopIsCalm(s);
  }

  lemma OthersAreCalm<H>(s: Sys<H>, a: Action<H>)
    requires Enabled(s, a)
    ensures match a
      case Initialise(workers, capacity) => Calm(s, InitialiseExecutor(s, workers, capacity))
      case StartCall(t, h) => Calm(s, BeginStart(s, t, h))
      case WaitCall(t, h) => Calm(s, SetCall(s, t, Waiting(h, false)))
      case Finish(t) => Calm(s, FinishTask(s, t))
      case End(t) => Calm(s, EndTask(s, t))
      case _ => true
  {
  }

  /** Every section lets the admissions only grow; only `Begin` starts a body. */
  lemma StepGrows<H>(s: Sys<H>, a: Action<H>)
    requires Inv(s) && Enabled(s, a)
    ensures Grows(s, Apply(s, a))
    ensures a.Begin? || Apply(s, a).bodies == s.bodies
    ensures !Forces(s, a) ==> Gentle(s, Apply(s, a))
  {
    hide Inv, InitialiseExecutor, BeginStart, TryEnqueue, SetCall, TryWait, CancelAny, RunWorkerLoop, BeginTask,
      FinishTask, EndTask, CallShutdown, IterateShutdown, FinishShutdown;
    JoinIsStopping(s);
    match a {
      case Initialise(_, _) => OthersAreCalm(s, a);
      case StartCall(_, _) => OthersAreCalm(s, a);
      case EnqueueTry(t) => EnqueueIsCalm(s, t);
      case WaitCall(_, _) => OthersAreCalm(s, a);
      case WaitTry(t) => WaitIsCalm(s, t);
      case Cancel(h) => CancelIsCalm(s, h);
      case WorkerLoop(t) => LoopIsCalm(s, t);
      case Begin(t) => BeginIsGentle(s, t);
      case Finish(_) => OthersAreCalm(s, a);
      case End(_) => OthersAreCalm(s, a);
      case Wake(_) =>
      case ShutdownCall(abort) => ShutdownIsCalm(s, abort);
      case ShutdownIter(timedOut) => IterationIsCalm(s, timedOut);
      case ShutdownFinal => FinalIsCalm(s);
      case ShutdownWake =>
      case Reset =>
    }
  }

  lemma JoinIsStopping<H>(s: Sys<H>)
    requires Inv(s)
    ensures s.shut == ShutJoin ==> s.core.mode == Stopping
  {
    hide ClaimsFit, SitesFit, Tasks, Counting, Order, Dropped, ClaimLog, Bodies, ThreadShapes;
  }

  lemma FinalIsCalm<H>(s: Sys<H>)
    requires s.core.mode == Stopping
    ensures Calm(s, FinishShutdown(s))
  {
  }

  // ---- Accounting ----

  /** The tasks on some worker's stack that are not terminal yet. */
  ghost function ClaimedLive<H>(s: Sys<H>): set<H> {
    set t, i | t in s.threads && 0 <= i < |s.threads[t].stack| && s.threads[t].stack[i].phase in {Claimed, InBody}
      :: s.threads[t].stack[i].task
  }

  lemma ClaimedLiveIs<H>(s: Sys<H>)
    requires Inv(s)
    ensures ClaimedLive(s) == set h | h in s.claims && h in s.core.headers && s.core.headers[h].state < 2
  {
    hide Tasks, Counting, Lifecycle, Order, Dropped, ClaimLog, Bodies, SitesFit;
    var live := set h | h in s.claims && h in s.core.headers && s.core.headers[h].state < 2;
    forall h | h in live
      ensures h in ClaimedLive(s)
    {
      var (t, i) := s.claims[h];
      assert s.threads[t].stack[i].task == h;
    }
    forall h | h in ClaimedLive(s)
      ensures h in live
    {
      var t, i :| t in s.threads && 0 <= i < |s.threads[t].stack| && s.threads[t].stack[i].phase in {Claimed, InBody}
        && s.threads[t].stack[i].task == h;
      assert s.threads[t].stack[i].task in s.claims;
    }
  }

  /** `outstanding` counts the queued tasks and the claimed ones that are not terminal. */
  lemma OutstandingIsExact<H(!new)>(s: Sys<H>)
    requires Reachable(s)
    ensures s.core.outstanding == |s.core.queue| + |ClaimedLive(s)|
  {
    ReachableInv(s);
    ClaimedLiveIs(s);
    CountByParts(s, ClaimedLive(s));
  }

  lemma PartsOfAdmitted<H>(s: Sys<H>, h: H, live: set<H>)
    requires Inv(s)
    requires live == set h | h in s.claims && h in s.core.headers && s.core.headers[h].state < 2
    ensures h in s.admitted <==> h in s.core.settled || h in s.core.queue || h in live
    ensures !(h in s.core.queue && h in live)
    ensures !(h in s.core.settled && (h in s.core.queue || h in live))
  {
    hide ClaimsFit, SitesFit, Lifecycle, Order, Dropped, ClaimLog, Bodies, ThreadShapes;
  }

  lemma CountByParts<H>(s: Sys<H>, live: set<H>)
    requires Inv(s)
    requires live == set h | h in s.claims && h in s.core.headers && s.core.headers[h].state < 2
    ensures s.core.outstanding == |s.core.queue| + |live|
  {
    var admitted, settled, queued := (set h | h in s.admitted), (set h | h in s.core.settled), (set h | h in s.core.queue);
    NoDupSize(s.admitted);
    NoDupSize(s.core.settled);
    NoDupSize(s.core.queue);
    assert s.core.outstanding == |s.admitted| - |s.core.settled|;
    forall h
      ensures h in admitted <==> h in settled || h in queued || h in live
      ensures !(h in queued && h in live) && !(h in settled && (h in queued || h in live))
    {
      PartsOfAdmitted(s, h, live);
    }
    hide Inv;
    SumOfParts(admitted, settled, queued, live);
  }

  lemma SumOfParts<H>(all: set<H>, a: set<H>, b: set<H>, c: set<H>)
    requires forall h :: h in all ==> h in a || h in b || h in c
    requires a <= all && b <= all && c <= all
    requires a !! b && a !! c && b !! c
    ensures |all| == |a| + |b| + |c|
  {
    assert all == a + (b + c);
    assert |b + c| == |b| + |c|;
  }

  /** Each admitted task is counted down exactly once, when it becomes terminal. */
  lemma CountedDownOnce<H(!new)>(s: Sys<H>)
    requires Reachable(s)
    ensures NoDup(s.core.settled)
    ensures forall h :: h in s.core.settled ==> h in s.admitted && h in s.core.headers && s.core.headers[h].state >= 2
    ensures forall h :: h in s.admitted ==> h in s.core.headers && (s.core.headers[h].state >= 2 ==> h in s.core.settled)
    ensures s.core.outstanding == |s.admitted| - |s.core.settled|
  {
    ReachableInv(s);
  }

  /** The `> 0` guard of the counter never suppresses a decrement. */
  lemma GuardNeverSuppresses<H(!new)>(s: Sys<H>, a: Action<H>, h: H)
    requires Reachable(s) && Enabled(s, a)
    requires h in s.admitted && h in s.core.headers && s.core.headers[h].state < 2
    ensures s.core.outstanding > 0
    ensures var r := Apply(s, a);
      h in r.core.headers && (r.core.headers[h].state >= 2 <==> h in r.core.settled)
  {
    hide Apply;
    ReachableInv(s);
    CounterCovers(s, h);
    StepKeeps(s, a);
    StepGrows(s, a);
  }

  // ---- Order ----

  /** Claims happen in admission order; only cancelled and aborted tasks are skipped. */
  lemma ClaimsFollowAdmissions<H(!new)>(s: Sys<H>)
    requires Reachable(s)
    ensures s.claimed + s.core.queue == Without(s.admitted, s.cancelled + s.aborted)
    ensures forall h :: h in s.cancelled + s.aborted ==>
      h in s.core.headers && s.core.headers[h].state == 3 && h !in s.claimed && h !in s.core.queue
  {
    ReachableInv(s);
    forall h | h in s.cancelled + s.aborted
      ensures h in s.core.headers && s.core.headers[h].state == 3 && h !in s.claimed && h !in s.core.queue
    {
      assert h in s.claimed ==> h !in s.cancelled + s.aborted;
    }
  }

  // ---- Bodies ----

  /** No body runs twice, and none of a task that was cancelled or aborted while queued. */
  lemma BodiesRunAtMostOnce<H(!new)>(s: Sys<H>)
    requires Reachable(s)
    ensures NoDup(s.bodies)
    ensures forall h :: h in s.bodies ==> h in s.claimed && h !in s.cancelled && h !in s.aborted
  {
    ReachableInv(s);
    forall h | h in s.bodies
      ensures h in s.claimed && h !in s.cancelled && h !in s.aborted
    {
      assert h in s.claimed;
      assert h !in s.cancelled + s.aborted;
    }
  }

  /** A body begins only on a task that was neither cancelled nor overtaken by a stop. */
  lemma BodiesBeginClean<H>(s: Sys<H>, a: Action<H>, h: H)
    requires Inv(s) && Enabled(s, a)
    requires h !in s.bodies && h in Apply(s, a).bodies
    ensures h in s.core.headers && s.core.headers[h] == Header(0, false)
    ensures !s.core.mode.AtLeastStopping()
    ensures h in Apply(s, a).core.headers && Apply(s, a).core.headers[h] == Header(1, false)
  {
    StepGrows(s, a);
    assert a.Begin? by { hide Apply; }
    TopTask(s, a.t);
    hide Inv;
  }

  /** h is over in r and in the same state as in s. */
  ghost predicate StillOver<H>(s: Sys<H>, r: Sys<H>, h: H)
    requires h in s.core.headers
  {
    h in r.core.headers && r.core.headers[h].state == s.core.headers[h].state
  }

  /** One step never moves a task out of a terminal state. */
  lemma StepKeepsTerminal<H>(s: Sys<H>, a: Action<H>, h: H)
    requires Inv(s) && Enabled(s, a)
    requires h in s.core.headers && s.core.headers[h].state >= 2
    ensures StillOver(s, Apply(s, a), h)
  {
    hide *;
    match a {
      case EnqueueTry(t) => SharedKeepsTerminal(s, a, h);
      case WaitTry(t) => SharedKeepsTerminal(s, a, h);
      case Cancel(c) => SharedKeepsTerminal(s, a, h);
      case ShutdownCall(abort) => SharedKeepsTerminal(s, a, h);
      case ShutdownIter(timedOut) => SharedKeepsTerminal(s, a, h);
      case _ => LocalKeepsTerminal(s, a, h);
    }
  }

  lemma SharedKeepsTerminal<H>(s: Sys<H>, a: Action<H>, h: H)
    requires Inv(s) && Enabled(s, a) && (a.EnqueueTry? || a.WaitTry? || a.Cancel? || a.ShutdownCall? || a.ShutdownIter?)
    requires h in s.core.headers && s.core.headers[h].state >= 2
    ensures StillOver(s, Apply(s, a), h)
  {
    hide Inv, TryEnqueue, TryWait, CancelAny, CallShutdown, IterateShutdown, StopAndAbort;
    StopKeepsTerminal(s, h);
    match a {
      case EnqueueTry(t) => EnqueueKeepsTerminal(s, t, h);
      case WaitTry(t) => WaitKeepsTerminal(s, t, h);
      case Cancel(c) => CancelKeepsTerminal(s, c, h);
      case ShutdownCall(abort) => ShutdownKeepsTerminal(s, abort, false, h);
      case ShutdownIter(timedOut) => ShutdownKeepsTerminal(s, false, timedOut, h);
    }
  }

  lemma LocalKeepsTerminal<H>(s: Sys<H>, a: Action<H>, h: H)
    requires Inv(s) && Enabled(s, a) && !(a.EnqueueTry? || a.WaitTry? || a.Cancel? || a.ShutdownCall? || a.ShutdownIter?)
    requires h in s.core.headers && s.core.headers[h].state >= 2
    ensures StillOver(s, Apply(s, a), h)
  {
    hide Inv, InitialiseExecutor, BeginStart, SetCall, RunWorkerLoop, BeginTask, FinishTask, EndTask, FinishShutdown,
      QueueKnown;
    if a.Begin? || a.Finish? || a.End? {
      TopTask(s, a.t);
    }
    match a {
      case Wake(_) =>
      case ShutdownWake =>
      case Reset =>
      case _ => OthersKeepTerminal(s, a, h);
    }
  }

  lemma OthersKeepTerminal<H>(s: Sys<H>, a: Action<H>, h: H)
    requires Enabled(s, a) && h in s.core.headers && s.core.headers[h].state >= 2
    requires a.Finish? ==> s.core.headers[s.threads[a.t].Top().task].state == 1
    ensures match a
      case Initialise(workers, capacity) => StillOver(s, InitialiseExecutor(s, workers, capacity), h)
      case StartCall(t, c) => StillOver(s, BeginStart(s, t, c), h)
      case WaitCall(t, c) => StillOver(s, SetCall(s, t, Waiting(c, false)), h)
      case WorkerLoop(t) => StillOver(s, RunWorkerLoop(s, t), h)
      case Begin(t) => StillOver(s, BeginTask(s, t), h)
      case Finish(t) => StillOver(s, FinishTask(s, t), h)
      case End(t) => StillOver(s, EndTask(s, t), h)
      case ShutdownFinal => StillOver(s, FinishShutdown(s), h)
      case _ => true
  {
  }

  lemma ShutdownKeepsTerminal<H>(s: Sys<H>, abort: bool, timedOut: bool, h: H)
    requires QueueKnown(s.core) && h in s.core.headers && StillOver(s, StopAndAbort(s), h)
    ensures StillOver(s, CallShutdown(s, abort), h)
    ensures StillOver(s, IterateShutdown(s, timedOut), h)
  {
    hide StopAndAbort;
  }

  lemma EnqueueKeepsTerminal<H>(s: Sys<H>, t: nat, h: H)
    requires Inv(s) && Enabled(s, EnqueueTry(t))
    requires h in s.core.headers && s.core.headers[h].state >= 2
    ensures h in TryEnqueue(s, t).core.headers && TryEnqueue(s, t).core.headers[h] == s.core.headers[h]
  {
    hide Inv;
    StartingTask(s, t);
  }

  lemma WaitKeepsTerminal<H>(s: Sys<H>, t: nat, h: H)
    requires Enabled(s, WaitTry(t))
    requires h in s.core.headers && s.core.headers[h].state >= 2
    ensures h in TryWait(s, t).core.headers && TryWait(s, t).core.headers[h].state == s.core.headers[h].state
  {
    hide CancelAny;
    CancelKeepsTerminal(s, s.threads[t].Now().task, h);
  }

  lemma CancelKeepsTerminal<H>(s: Sys<H>, c: H, h: H)
    requires c in s.core.headers && h in s.core.headers && s.core.headers[h].state >= 2
    ensures var r := CancelAny(s, c); h in r.core.headers && r.core.headers[h].state == s.core.headers[h].state
  {
  }

  lemma StopKeepsTerminal<H>(s: Sys<H>, h: H)
    requires Inv(s) && h in s.core.headers && s.core.headers[h].state >= 2
    ensures QueueKnown(s.core)
    ensures h in StopAndAbort(s).core.headers && StopAndAbort(s).core.headers[h] == s.core.headers[h]
  {
    hide Inv, AbortQueued;
    QueueFacts(s);
    AbortQueuedFacts(s.core.(mode := Stopping));
  }

  /** A terminal state is final, and a task that ended without its body never runs it. */
  lemma {:induction false} TerminalIsForever<H>(s: Sys<H>, run: seq<Action<H>>, h: H)
    requires Inv(s) && Legal(s, run)
    requires h in s.core.headers && s.core.headers[h].state >= 2
    ensures var r := Exec(s, run);
      && h in r.core.headers && r.core.headers[h].state == s.core.headers[h].state
      && (h in r.bodies ==> h in s.bodies)
    decreases |run|
  {
    if run != [] {
      var s1 := Apply(s, run[0]);
      StepKeepsTerminal(s, run[0], h);
      StepKeeps(s, run[0]);
      if h !in s.bodies && h in s1.bodies {
        BodiesBeginClean(s, run[0], h);
        assert false;
      }
      hide Apply, Inv;
      TerminalIsForever(s1, run[1..], h);
    }
  }

  // ---- Shutdown ----

  /** Once STOPPED, every admitted task is terminal, nothing is queued and no stack holds a task. */
  lemma StoppedMeansQuiet<H(!new)>(s: Sys<H>)
    requires Reachable(s) && s.core.mode == Stopped
    ensures s.core.queue == [] && s.core.outstanding == 0
    ensures forall h :: h in s.admitted ==> h in s.core.headers && s.core.headers[h].state >= 2
    ensures forall t :: t in s.threads ==> s.threads[t].stack == []
  {
    ReachableInv(s);
    NoWorkersNoClaims(s);
    forall h | h in s.admitted
      ensures h in s.core.headers && s.core.headers[h].state >= 2
    {
      AllSettledWhenUncounted(s, h);
    }
  }

  /** The final reset of the counters throws away no task. */
  lemma FinalResetDiscardsNothing<H(!new)>(s: Sys<H>)
    requires Reachable(s) && Enabled(s, ShutdownFinal)
    ensures s.core.outstanding == 0 && s.core.queue == [] && s.core.live == 0
    ensures Apply(s, ShutdownFinal).core ==
            s.core.(mode := Stopped, initialized := false, capacity := 0)
  {
    ReachableInv(s);
    FinishShutdownKeeps(s);
  }

  /** A forced stop adds the queued tasks to the aborted ones. */
  lemma ForcedAborts<H>(s: Sys<H>, a: Action<H>)
    requires Inv(s) && Enabled(s, a) && Forces(s, a)
    ensures Apply(s, a).aborted == s.aborted + set h | h in s.core.queue
  {
    QueueFacts(s);
    DrainHasNoCaller(s);
    hide Inv, AbortQueued;
  }

  lemma DrainHasNoCaller<H>(s: Sys<H>)
    requires Inv(s)
    ensures s.shut == NoShutdown ==> s.core.mode != Draining
  {
    LifecycleFacts(s);
  }

  lemma QueuedNotAborted<H>(s: Sys<H>)
    requires Inv(s) && s.core.queue != []
    ensures s.core.queue[0] in s.core.queue && s.core.queue[0] !in s.aborted
  {
    assert s.core.queue[0] in s.core.queue;
    assert s.core.queue[0] !in s.cancelled + s.aborted;
  }

  /** A section aborts tasks if and only if it forces a stop while tasks are queued. */
  lemma AbortsIff<H>(s: Sys<H>, a: Action<H>)
    requires Inv(s) && Enabled(s, a)
    ensures Apply(s, a).aborted != s.aborted <==> Forces(s, a) && s.core.queue != []
  {
    hide Inv, Apply, Enabled, Forces;
    StepGrows(s, a);
    if Forces(s, a) {
      ForcedAborts(s, a);
      if s.core.queue != [] {
        QueuedNotAborted(s);
      }
    }
  }

  ghost predicate OverWhenStopping<H>(s: Sys<H>) {
    s.core.mode.AtLeastStopping() ==>
      forall h :: h in s.admitted ==> h in s.core.headers && s.core.headers[h].state >= 2
  }

  lemma OverWhenStoppingStep<H>(s: Sys<H>, a: Action<H>)
    requires Inv(s) && Enabled(s, a) && OverWhenStopping(s)
    requires !Forces(s, a)
    ensures OverWhenStopping(Apply(s, a))
  {
    hide Apply, Enabled, Inv;
    StepGrows(s, a);
    var r := Apply(s, a);
    if r.core.mode.AtLeastStopping() {
      forall h | h in r.admitted
        ensures h in r.core.headers && r.core.headers[h].state >= 2
      {
        assert h in s.admitted;
        if !s.core.mode.AtLeastStopping() {
          AllSettledWhenUncounted(s, h);
        }
        StepKeepsTerminal(s, a, h);
      }
    }
  }

  /** No step of the run forces a stop. */
  ghost predicate Unforced<H>(s: Sys<H>, run: seq<Action<H>>)
    requires Legal(s, run)
    decreases |run|
  {
    run == [] || (!Forces(s, run[0]) && Unforced(Apply(s, run[0]), run[1..]))
  }

  /** A run in which nothing forces a stop aborts nothing and stops only with every task terminal. */
  lemma {:induction false} DrainAbortsNothing<H>(s: Sys<H>, run: seq<Action<H>>)
    requires Inv(s) && Legal(s, run) && OverWhenStopping(s) && Unforced(s, run)
    ensures Exec(s, run).aborted == s.aborted
    ensures OverWhenStopping(Exec(s, run))
    decreases |run|
  {
    if run != [] {
      hide Apply, Inv, OverWhenStopping, Enabled, Forces;
      AbortsIff(s, run[0]);
      OverWhenStoppingStep(s, run[0]);
      StepKeeps(s, run[0]);
      DrainAbortsNothing(Apply(s, run[0]), run[1..]);
    }
  }
}
