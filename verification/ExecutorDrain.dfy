/**
 Draining (bin/runtime/async_runtime.c:1889-1926, 2115-2140): a waiter no longer assists, so
 the workers can all end up waiting for a task that none of them will take.
 */
module ExecutorDrain {
  import opened Lists
  import opened ExecutorSpec
  import opened ExecutorMachine
  import opened ExecutorSafety
  import opened ExecutorTheorems
  import opened ExecutorSleep
  import opened ExecutorOversleep

  /** The drain has nothing left to run. */
  predicate NothingLeft<H(==)>(s: Sys<H>) {
    s.core.queue == [] && s.claims == map[]
  }

  /** Every worker still alive is asleep, and there is one. */
  ghost predicate WorkersAsleep<H>(s: Sys<H>) {
    LiveWorkers(s.threads) != {} && LiveWorkers(s.threads) <= s.asleep
  }

  ghost predicate Idle<H>(s: Sys<H>, t: nat) {
    Present(s, t) && s.threads[t].Now() == NoCall && s.threads[t].stack == []
  }

  /** Blocked in wait under a claimed task. */
  ghost predicate BlockedInWait<H>(s: Sys<H>, t: nat) {
    Present(s, t) && s.threads[t].Now().Waiting? && s.threads[t].stack != []
  }

  /** A worker asleep while DRAINING is idle, which means the queue is empty, or blocked in wait. */
  lemma DrainingSleeper<H(!new)>(s: Sys<H>, t: nat)
    requires Reachable(s) && s.core.mode == Draining && t in s.asleep && t in LiveWorkers(s.threads)
    ensures Idle(s, t) <==> !BlockedInWait(s, t)
    ensures Idle(s, t) ==> s.core.queue == []
    ensures Present(s, t) && (Idle(s, t) <==> s.threads[t].Now() == NoCall)
  {
    ReachableSleepers(s);
    ThreadAt(s, t);
    assert Justified(s, s.threads[t]);
    hide Inv, Sleepers;
  }

  /** With a task still queued, every worker asleep is blocked in wait under a task of its own. */
  lemma QueuedMeansBlocked<H(!new)>(s: Sys<H>, t: nat)
    requires Reachable(s) && s.core.mode == Draining && s.core.queue != []
    requires t in s.asleep && t in LiveWorkers(s.threads)
    ensures BlockedInWait(s, t)
  {
    DrainingSleeper(s, t);
  }

  /**
   Once all workers of a draining runtime are asleep, the drain is finished if and only if
   every one of them is idle.
   */
  lemma DrainFinishedIff<H(!new)>(s: Sys<H>)
    requires Reachable(s) && s.core.mode == Draining && WorkersAsleep(s)
    ensures NothingLeft(s) <==> forall t :: t in LiveWorkers(s.threads) ==> Idle(s, t)
  {
    ReachableInv(s);
    forall t | t in LiveWorkers(s.threads)
      ensures t in s.threads && Present(s, t)
      ensures NothingLeft(s) ==> Idle(s, t)
      ensures Idle(s, t) ==> s.core.queue == [] && s.threads[t].stack == []
    {
      DrainingSleeper(s, t);
      if NothingLeft(s) {
        NoClaimNoStack(s, t);
      }
    }
    if forall t :: t in LiveWorkers(s.threads) ==> Idle(s, t) {
      var t :| t in LiveWorkers(s.threads);
      assert Idle(s, t);
      if s.claims != map[] {
        var h :| h in s.claims;
        ClaimHolder(s, h);
        HolderHasStack(s, h);
        assert false;
      }
    }
  }

  lemma NoClaimNoStack<H>(s: Sys<H>, t: nat)
    requires Inv(s) && s.claims == map[] && t in s.threads
    ensures s.threads[t].stack == []
  {
    if s.threads[t].stack != [] {
      TopTask(s, t);
      assert false;
    }
  }

  lemma HolderHasStack<H>(s: Sys<H>, h: H)
    requires Inv(s) && h in s.claims
    ensures s.claims[h].0 in s.threads && s.threads[s.claims[h].0].stack != []
  {
  }

  /** When the drain has nothing left, its caller is not asleep and its next pass ends the drain. */
  lemma FinishedDrainGoesOn<H(!new)>(s: Sys<H>)
    requires Reachable(s) && s.core.mode == Draining && NothingLeft(s)
    ensures !s.shutAsleep && Drained(s.core)
  {
    ReachableSleepers(s);
    OutstandingIsExact(s);
    assert ClaimedLive(s) == {} by {
      ClaimedLiveIs(s);
    }
    hide Inv;
  }

  // ---- A drain that does not end ----

  /** Thread t waits, under a task of its own, for an admitted task that is not over and that it does not cancel. */
  ghost predicate HeldUp<H>(s: Sys<H>, t: nat) {
    && BlockedInWait(s, t)
    && var h := s.threads[t].Now().task;
    && h in s.core.headers && h in s.admitted && s.core.headers[h].state < 2
    && !Propagates(s, t, h)
  }

  /** Tasks are queued, and every live worker is held up. */
  ghost predicate Stalled<H>(s: Sys<H>) {
    && s.core.mode == Draining && s.core.queue != []
    && forall t :: t in LiveWorkers(s.threads) ==> HeldUp(s, t)
  }

  /** Neither a cancel, nor another shutdown call, nor a deadline. */
  predicate Undisturbed<H(==)>(a: Action<H>) {
    !a.Cancel? && !a.ShutdownCall? && a != ShutdownIter(true)
  }

  /** No admitted task has moved: same queue, same claims, same headers, no new body. */
  ghost predicate NoProgress<H(!new)>(s: Sys<H>, r: Sys<H>) {
    && r.core.mode == s.core.mode && r.core.queue == s.core.queue && r.core.outstanding == s.core.outstanding
    && r.claims == s.claims && r.admitted == s.admitted && r.bodies == s.bodies
    && LiveWorkers(r.threads) == LiveWorkers(s.threads)
    && (forall h :: h in s.admitted && h in s.core.headers ==> h in r.core.headers && r.core.headers[h] == s.core.headers[h])
  }

  /** Thread t, blocked in wait, stands where it stood. */
  ghost predicate SameWait<H>(s: Sys<H>, r: Sys<H>, t: nat) {
    BlockedInWait(s, t) ==>
      && BlockedInWait(r, t) && r.threads[t].stack == s.threads[t].stack
      && r.threads[t].Now().task == s.threads[t].Now().task
  }

  ghost predicate Steady<H(!new)>(s: Sys<H>, r: Sys<H>) {
    NoProgress(s, r) && forall t :: t in LiveWorkers(s.threads) ==> SameWait(s, r, t)
  }

  lemma StillHeldUp<H(!new)>(s: Sys<H>, r: Sys<H>, t: nat)
    requires Inv(s) && NoProgress(s, r) && HeldUp(s, t) && SameWait(s, r, t)
    ensures HeldUp(r, t)
  {
    TopTask(s, t);
    ClaimsAdmitted(s, s.threads[t].Top().task);
    hide Inv, LiveWorkers;
  }

  lemma ClaimsAdmitted<H>(s: Sys<H>, h: H)
    requires Inv(s) && h in s.claims
    ensures h in s.admitted
  {
  }

  lemma SteadyStalled<H(!new)>(s: Sys<H>, r: Sys<H>)
    requires Inv(s) && Stalled(s) && Steady(s, r)
    ensures Stalled(r)
  {
    hide Inv, LiveWorkers, HeldUp, SameWait;
    forall t | t in LiveWorkers(r.threads)
      ensures HeldUp(r, t)
    {
      StillHeldUp(s, r, t);
    }
  }

  /** The thread of a section that runs no wait or start pass is not one of a stalled drain's workers. */
  lemma NobodyFree<H(!new)>(s: Sys<H>, t: nat)
    requires Inv(s) && Stalled(s) && Free(s, t)
    ensures !s.threads[t].worker && s.threads[t].stack == []
  {
    ThreadAt(s, t);
    if t in LiveWorkers(s.threads) {
      assert false;
    }
  }

  lemma CallSteady<H(!new)>(s: Sys<H>, t: nat, c: Call<H>)
    requires Inv(s) && Present(s, t)
    requires BlockedInWait(s, t) ==> c.Waiting? && c.task == s.threads[t].Now().task
    ensures Steady(s, SetCall(s, t, c))
  {
    hide Inv, LiveWorkers;
    CallWorkers(s, t, c);
  }

  lemma CallWorkers<H>(s: Sys<H>, t: nat, c: Call<H>)
    requires Present(s, t)
    ensures LiveWorkers(SetCall(s, t, c).threads) == LiveWorkers(s.threads)
  {
  }

  lemma StartSteady<H(!new)>(s: Sys<H>, t: nat, h: H)
    requires Inv(s) && Stalled(s) && Enabled(s, StartCall(t, h))
    ensures Steady(s, BeginStart(s, t, h))
  {
    CallSteady(s, t, Starting(h, false));
    hide Inv, LiveWorkers, Stalled;
  }

  lemma RefuseSteady<H(!new)>(s: Sys<H>, t: nat, h: H)
    requires Inv(s) && Present(s, t) && s.threads[t].Now().Starting? && h in s.core.headers && h !in s.admitted
    ensures Steady(s, Refuse(s, t, h))
  {
    CallSteady(s, t, NoCall);
    hide Inv, LiveWorkers;
  }

  lemma EnqueueSteady<H(!new)>(s: Sys<H>, t: nat)
    requires Inv(s) && Stalled(s) && Enabled(s, EnqueueTry(t))
    ensures Steady(s, TryEnqueue(s, t))
  {
    hide Inv, Refuse, SetCall, Claim, Admit, Sleep, Steady, HeldUp;
    StartingTask(s, t);
    RefuseSteady(s, t, s.threads[t].Now().task);
    CallSteady(s, t, Starting(s.threads[t].Now().task, false));
  }

  /** A worker's wait pass goes back to sleep; a client's returns or goes back to sleep. */
  lemma WaitSteady<H(!new)>(s: Sys<H>, t: nat)
    requires Inv(s) && Stalled(s) && Enabled(s, WaitTry(t))
    ensures Steady(s, TryWait(s, t))
  {
    hide Inv, SetCall, Claim, CancelAny, Steady;
    var h := s.threads[t].Now().task;
    WaitingWorker(s, t);
    if !BlockedInWait(s, t) {
      CallSteady(s, t, NoCall);
    }
    CallSteady(s, t, Waiting(h, false));
    SleepSteady(s, SetCall(s, t, Waiting(h, false)), t);
  }

  lemma WaitingWorker<H(!new)>(s: Sys<H>, t: nat)
    requires Inv(s) && Stalled(s) && Enabled(s, WaitTry(t))
    ensures s.threads[t].stack != [] ==> HeldUp(s, t)
  {
    ThreadAt(s, t);
    if s.threads[t].stack != [] {
      assert t in LiveWorkers(s.threads);
    }
  }

  lemma SleepSteady<H(!new)>(s: Sys<H>, r: Sys<H>, t: nat)
    requires Steady(s, r)
    ensures Steady(s, Sleep(r, t))
  {
    hide LiveWorkers;
  }

  lemma AwakeSteady<H(!new)>(s: Sys<H>, asleep: set<nat>, shutAsleep: bool)
    ensures Steady(s, s.(asleep := asleep, shutAsleep := shutAsleep))
  {
    hide LiveWorkers;
  }

  lemma DrainModes<H>(s: Sys<H>)
    requires Inv(s) && s.core.mode == Draining
    ensures s.core.initialized && s.shut != ShutJoin
  {
    hide ClaimsFit, SitesFit, Tasks, Counting, Order, Dropped, ClaimLog, Bodies, ThreadShapes;
  }

  /** A stalled drain stays stalled through every section that is not a cancel, a shutdown call or a deadline. */
  lemma StepStalled<H(!new)>(s: Sys<H>, a: Action<H>)
    requires Inv(s) && Stalled(s) && Enabled(s, a) && Undisturbed(a)
    ensures Stalled(Apply(s, a)) && NoProgress(s, Apply(s, a))
  {
    StepSteady(s, a);
    hide Inv, Apply, Enabled;
    SteadyStalled(s, Apply(s, a));
  }

  lemma StepSteady<H(!new)>(s: Sys<H>, a: Action<H>)
    requires Inv(s) && Stalled(s) && Enabled(s, a) && Undisturbed(a)
    ensures Steady(s, Apply(s, a))
  {
    hide Inv, Steady, HeldUp, LiveWorkers, TryEnqueue, TryWait, BeginStart, StopAndAbort;
    DrainModes(s);
    match a {
      case StartCall(t, h) => StartSteady(s, t, h);
      case EnqueueTry(t) => EnqueueSteady(s, t);
      case WaitTry(t) => WaitSteady(s, t);
      case WorkerLoop(t) => NobodyFree(s, t);
      case Begin(t) => NobodyFree(s, t);
      case Finish(t) => NobodyFree(s, t);
      case End(t) => NobodyFree(s, t);
      case Wake(t) => AwakeSteady(s, s.asleep - {t}, s.shutAsleep);
      case ShutdownIter(_) => AwakeSteady(s, s.asleep, true);
      case ShutdownWake => AwakeSteady(s, s.asleep, false);
      case _ =>
    }
  }

  lemma NoProgressYet<H(!new)>(s: Sys<H>, m: Sys<H>, r: Sys<H>)
    requires NoProgress(s, m) && NoProgress(m, r)
    ensures NoProgress(s, r)
  {
    hide LiveWorkers;
  }

  /**
   A stalled drain never ends by itself: over any run without a cancel, a further shutdown
   call or a deadline, no task is taken, begun or finished.
   */
  lemma {:induction false} StalledForever<H(!new)>(s: Sys<H>, run: seq<Action<H>>)
    requires Inv(s) && Stalled(s) && Legal(s, run) && forall a :: a in run ==> Undisturbed(a)
    ensures Stalled(Exec(s, run)) && NoProgress(s, Exec(s, run))
    decreases |run|
  {
    if run != [] {
      hide Inv, Stalled, Apply, Enabled, NoProgress, Undisturbed;
      assert run[0] in run;
      assert forall a :: a in run[1..] ==> a in run;
      StepStalled(s, run[0]);
      StepKeeps(s, run[0]);
      StalledForever(Apply(s, run[0]), run[1..]);
      NoProgressYet(s, Apply(s, run[0]), Exec(s, run));
    } else {
      hide Stalled;
    }
  }

  // ---- A run that stalls ----

  /** One worker runs the body of task 10, which has started 20; the client waits for 10. */
  function Busy(mode: Mode, shut: Shutdown, shutAsleep: bool, call: Call<nat>, asleep: set<nat>): Sys<nat> {
    Sys(Core(mode, true, 4, [20], 2, 1, map[10 := Header(1, false), 20 := Header(0, false)], []),
        map[0 := Thread(false, false, [], [Waiting(10, false)]),
            1 := Thread(true, false, [Frame(10, InBody)], [NoCall, call])],
        asleep, shut, shutAsleep, [10, 20], [10], {}, {}, [10], map[10 := (1, 0)], map[])
  }

  /** The body waits for its queued child when a drain begins. */
  function StallStage(i: nat): Sys<nat> {
    var on20 := Call<nat>.Waiting(20, false);
    match i
    case 0 => Stage(8)
    case 1 => Busy(Running, NoShutdown, false, on20, {})
    case 2 => Busy(Draining, ShutLoop, false, on20, {})
    case 3 => Busy(Draining, ShutLoop, false, on20, {1})
    case 4 => Busy(Draining, ShutLoop, true, on20, {1})
    case _ => Busy(Draining, ShutLoop, true, on20, {0, 1})
  }

  function StallMove(i: nat): Action<nat> {
    match i
    case 0 => WaitCall(1, 20)
    case 1 => ShutdownCall(false)
    case 2 => WaitTry(1)
    case 3 => ShutdownIter(false)
    case _ => WaitTry(0)
  }

  ghost predicate StallLeads(i: nat) {
    Enabled(StallStage(i), StallMove(i)) && Apply(StallStage(i), StallMove(i)) == StallStage(i + 1)
  }

  lemma Stall0()
    ensures StallLeads(0)
  {
    hide InitialiseExecutor, BeginStart, TryEnqueue, TryWait, CancelAny, RunWorkerLoop, BeginTask, FinishTask,
      EndTask, CallShutdown, IterateShutdown, FinishShutdown, StopAndAbort, Claim, Admit, Refuse;
    SameThreads(Apply(StallStage(0), StallMove(0)).threads, StallStage(1).threads);
  }

  lemma Stall1()
    ensures StallLeads(1)
  {
    hide InitialiseExecutor, BeginStart, TryEnqueue, TryWait, CancelAny, RunWorkerLoop, BeginTask, FinishTask,
      EndTask, IterateShutdown, FinishShutdown, StopAndAbort, Claim, Admit, Refuse;
    SameThreads(Apply(StallStage(1), StallMove(1)).threads, StallStage(2).threads);
  }

  lemma Stall2()
    ensures StallLeads(2)
  {
    hide InitialiseExecutor, BeginStart, TryEnqueue, CancelAny, RunWorkerLoop, BeginTask, FinishTask, EndTask,
      CallShutdown, IterateShutdown, FinishShutdown, StopAndAbort, Claim, Admit, Refuse;
    SameThreads(Apply(StallStage(2), StallMove(2)).threads, StallStage(3).threads);
  }

  lemma Stall3()
    ensures StallLeads(3)
  {
    hide InitialiseExecutor, BeginStart, TryEnqueue, TryWait, CancelAny, RunWorkerLoop, BeginTask, FinishTask,
      EndTask, CallShutdown, FinishShutdown, StopAndAbort, Claim, Admit, Refuse;
    SameThreads(Apply(StallStage(3), StallMove(3)).threads, StallStage(4).threads);
  }

  lemma Stall4()
    ensures StallLeads(4)
  {
    hide InitialiseExecutor, BeginStart, TryEnqueue, CancelAny, RunWorkerLoop, BeginTask, FinishTask, EndTask,
      CallShutdown, IterateShutdown, FinishShutdown, StopAndAbort, Claim, Admit, Refuse;
    SameThreads(Apply(StallStage(4), StallMove(4)).threads, StallStage(5).threads);
  }

  lemma {:induction false} StallReachable(i: nat)
    requires i <= 5
    ensures Reachable(StallStage(i))
  {
    hide Apply, Enabled, Stage, Busy, StallMove, Reachable;
    if i == 0 {
      StageReachable(8);
    } else {
      StallReachable(i - 1);
      match i - 1 {
        case 0 => Stall0();
        case 1 => Stall1();
        case 2 => Stall2();
        case 3 => Stall3();
        case _ => Stall4();
      }
      StepReachable(StallStage(i - 1), StallMove(i - 1));
    }
  }

  lemma BusyStalls(asleep: set<nat>)
    ensures Stalled(Busy(Draining, ShutLoop, true, Waiting(20, false), asleep))
  {
    var s := Busy(Draining, ShutLoop, true, Waiting(20, false), asleep);
    assert HeldUp(s, 1);
    assert forall t :: t in LiveWorkers(s.threads) ==> t == 1;
  }

  /**
   A body waits for its queued child when a drain begins: every thread is asleep, the
   shutdown caller too, and only a cancel, another shutdown call or a deadline can end it.
   */
  lemma DrainStalls() returns (s: Sys<nat>)
    ensures Reachable(s) && Stalled(s)
    ensures s.core.mode == Draining && s.core.queue == [20] && s.asleep == s.threads.Keys && s.shutAsleep
  {
    hide Reachable, Stalled;
    s := StallStage(5);
    StallReachable(5);
    BusyStalls({0, 1});
  }
}
