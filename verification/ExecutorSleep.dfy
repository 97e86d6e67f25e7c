/**
 Why a thread asleep on the executor's condition variable is right to sleep
 (bin/runtime/async_runtime.c:1567-1590, 1741-1775, 1889-1926, 2093-2141).
 `ExecutorOversleep` says when a waiter sleeps on a task that is over all the same.
 */
module ExecutorSleep {
  import opened ExecutorSpec
  import opened ExecutorMachine
  import opened ExecutorSafety
  import opened ExecutorTheorems

  /**
   A worker in its main loop has nothing to take; a producer sees a full queue; a waiter's
   task is not over, or is about to be announced by the frame that still holds it, or was
   never admitted, or was cancelled by this waiter itself just before it slept.
   */
  ghost predicate Justified<H>(s: Sys<H>, th: Thread<H>) {
    th.Shaped() &&
    match th.Now()
    case NoCall =>
      th.worker && th.stack == [] && s.core.queue == [] && s.core.initialized && !s.core.mode.AtLeastStopping()
    case Starting(h, inLoop) =>
      inLoop && |s.core.queue| >= s.core.capacity && s.core.mode == Running
    case Waiting(h, selfCancelled) =>
      && !s.core.mode.AtLeastStopping()
      && h in s.core.headers
      && (selfCancelled || s.core.headers[h].state < 2 || h !in s.admitted || h in s.claims)
      && (selfCancelled ==> h in s.cancelled)
      && (s.core.mode == Running && th.worker && th.stack != [] && th.Top().task != h ==> s.core.queue == [])
  }

  /** The shutdown caller sleeps only while it still has something to wait for. */
  ghost predicate ShutdownJustified<H>(s: Sys<H>) {
    && s.shut == ShutLoop
    && (s.core.mode == Stopping ==> s.core.live > 0)
    && (s.core.mode == Draining ==> s.core.outstanding > 0 || s.core.queue != [] || s.claims != map[])
  }

  ghost predicate Sleepers<H>(s: Sys<H>) {
    && (forall t :: t in s.asleep ==> t in s.threads && Justified(s, s.threads[t]))
    && (s.shutAsleep ==> ShutdownJustified(s))
  }

  /** A thread that goes to sleep after its section looked and found no reason to go on. */
  lemma SleepJustified<H>(s: Sys<H>, t: nat)
    requires Sleepers(s) && t in s.threads && Justified(s, s.threads[t])
    ensures Sleepers(Sleep(s, t))
  {
  }

  /** Only thread t, which is awake, changes: everyone else's reason stands. */
  lemma CallSleepers<H>(s: Sys<H>, t: nat, c: Call<H>)
    requires Sleepers(s) && Present(s, t) && t !in s.asleep
    ensures Sleepers(SetCall(s, t, c))
  {
    var r := SetCall(s, t, c);
    forall u | u in r.asleep
      ensures u in r.threads && Justified(r, r.threads[u])
    {
      assert Justified(s, s.threads[u]);
    }
  }

  lemma BeginStartSleepers<H>(s: Sys<H>, t: nat, h: H)
    requires Sleepers(s) && Enabled(s, StartCall(t, h))
    ensures Sleepers(BeginStart(s, t, h))
  {
    var r := BeginStart(s, t, h);
    forall u | u in r.asleep
      ensures u in r.threads && Justified(r, r.threads[u])
    {
      assert Justified(s, s.threads[u]);
    }
  }

  lemma RefuseSleepers<H>(s: Sys<H>, t: nat, h: H)
    requires Sleepers(s) && Present(s, t) && t !in s.asleep && h in s.core.headers && h !in s.admitted
    ensures Sleepers(Refuse(s, t, h))
  {
    var r := Refuse(s, t, h);
    forall u | u in r.asleep
      ensures u in r.threads && Justified(r, r.threads[u])
    {
      assert Justified(s, s.threads[u]);
    }
  }

  lemma EnqueueSleepers<H>(s: Sys<H>, t: nat)
    requires Inv(s) && Sleepers(s) && Enabled(s, EnqueueTry(t))
    ensures Sleepers(TryEnqueue(s, t))
  {
    hide Inv, Sleepers;
    StartingTask(s, t);
    var h := s.threads[t].Now().task;
    var s1 := SetCall(s, t, Starting(h, true));
    RefuseSleepers(s, t, h);
    CallSleepers(s, t, Starting(h, false));
    CallSleepers(s, t, Starting(h, true));
    assert s1.threads[t].Now() == Starting(h, true);
    if |s.core.queue| >= s.core.capacity && s.core.mode == Running {
      SleepJustified(s1, t);
    }
    EnqueueBroadcasts(s, t);
  }

  /** Admitting or assisting ends with a broadcast. */
  lemma EnqueueBroadcasts<H>(s: Sys<H>, t: nat)
    requires Present(s, t)
    ensures forall h :: Sleepers(Admit(s, t, h))
    ensures s.core.queue != [] ==> Sleepers(Claim(s, t))
    ensures forall c :: s.core.queue != [] ==> Present(SetCall(s, t, c), t) && Sleepers(Claim(SetCall(s, t, c), t))
  {
  }

  lemma CancelSleepers<H>(s: Sys<H>, h: H)
    requires h in s.core.headers
    ensures var r := CancelAny(s, h);
      && Sleepers(r) && r.asleep == {} && r.threads == s.threads && r.core.mode == s.core.mode
      && h in r.core.headers && (CancelRemoves(s.core, h) ==> h in r.cancelled)
      && (!CancelRemoves(s.core, h) ==> r.core.headers[h].state == s.core.headers[h].state && r.admitted == s.admitted && r.claims == s.claims)
  {
  }

  /** A waiter that does not assist has a reason to sleep. */
  lemma WaiterJustified<H>(s: Sys<H>, t: nat, h: H, self: bool)
    requires Sleepers(s) && Present(s, t) && t !in s.asleep && h in s.core.headers
    requires !s.core.mode.AtLeastStopping()
    requires s.core.headers[h].state < 2 || self
    requires self ==> h in s.cancelled
    requires var th := s.threads[t];
      !(s.core.mode == Running && th.worker && th.stack != [] && th.Top().task != h && s.core.queue != [])
    ensures Sleepers(Sleep(SetCall(s, t, Waiting(h, self)), t))
  {
    CallSleepers(s, t, Waiting(h, self));
    var s1 := SetCall(s, t, Waiting(h, self));
    assert s1.threads[t].Now() == Waiting(h, self);
    assert Justified(s1, s1.threads[t]);
    hide Sleepers, SetCall;
    SleepJustified(s1, t);
  }

  lemma WaitSleepers<H>(s: Sys<H>, t: nat)
    requires Sleepers(s) && Enabled(s, WaitTry(t))
    ensures Sleepers(TryWait(s, t))
  {
    hide Sleepers, CancelAny, SetCall, Sleep, Claim;
    var th := s.threads[t];
    var h := th.Now().task;
    CallSleepers(s, t, NoCall);
    if !(s.core.headers[h].state >= 2 || s.core.mode.AtLeastStopping()) {
      CancelSleepers(s, h);
      var s1 := if Propagates(s, t, h) then CancelAny(s, h) else s;
      var self := Propagates(s, t, h) && CancelRemoves(s.core, h);
      if s.core.mode == Running && th.worker && th.stack != [] && th.Top().task != h && s1.core.queue != [] {
        EnqueueBroadcasts(s1, t);
      } else {
        WaiterJustified(s1, t, h, self);
      }
    }
  }

  lemma LoopSleepers<H>(s: Sys<H>, t: nat)
    requires Sleepers(s) && Enabled(s, WorkerLoop(t))
    ensures Sleepers(RunWorkerLoop(s, t))
  {
    if s.core.queue == [] && s.core.initialized && !s.core.mode.AtLeastStopping() {
      SleepJustified(s, t);
    }
  }

  /** What a reason to sleep depends on. */
  lemma StillJustified<H>(s: Sys<H>, r: Sys<H>, h: H, th: Thread<H>)
    requires Justified(s, th)
    requires r.core.queue == s.core.queue && r.core.capacity == s.core.capacity && r.core.mode == s.core.mode
    requires r.core.initialized == s.core.initialized && r.admitted == s.admitted && r.cancelled == s.cancelled
    requires r.claims == s.claims && h in r.claims
    requires r.core.headers.Keys == s.core.headers.Keys
    requires forall x :: x in s.core.headers && x != h ==> r.core.headers[x] == s.core.headers[x]
    ensures Justified(r, th)
  {
  }

  lemma BeginCoreFrame<H>(c: Core<H>, h: H)
    requires h in c.headers
    ensures var r := BeginCore(c, h);
      && r.queue == c.queue && r.capacity == c.capacity && r.mode == c.mode && r.initialized == c.initialized
      && r.live == c.live && r.headers.Keys == c.headers.Keys
      && (forall x :: x in c.headers && x != h ==> r.headers[x] == c.headers[x])
  {
  }

  lemma BeginFrame<H>(s: Sys<H>, t: nat)
    requires Enabled(s, Begin(t))
    ensures var r := BeginTask(s, t); var h := s.threads[t].Top().task;
      && r.core.queue == s.core.queue && r.core.capacity == s.core.capacity && r.core.mode == s.core.mode
      && r.core.initialized == s.core.initialized && r.admitted == s.admitted && r.cancelled == s.cancelled
      && r.claims == s.claims && r.core.headers.Keys == s.core.headers.Keys
      && (forall x :: x in s.core.headers && x != h ==> r.core.headers[x] == s.core.headers[x])
      && r.asleep == s.asleep && r.shut == s.shut && r.shutAsleep == s.shutAsleep && r.core.live == s.core.live
      && (forall u :: u in s.threads && u != t ==> u in r.threads && r.threads[u] == s.threads[u])
  {
    hide BeginCore, RunsBody;
    BeginCoreFrame(s.core, s.threads[t].Top().task);
  }

  /** Starting or skipping a body does not broadcast, but the claim it belongs to remains. */
  lemma BeginSleepers<H>(s: Sys<H>, t: nat)
    requires Inv(s) && Sleepers(s) && Enabled(s, Begin(t))
    ensures Sleepers(BeginTask(s, t))
  {
    hide Inv, BeginTask, Justified;
    TopTask(s, t);
    BeginFrame(s, t);
    var r := BeginTask(s, t);
    var h := s.threads[t].Top().task;
    forall u | u in r.asleep
      ensures u in r.threads && Justified(r, r.threads[u])
    {
      StillJustified(s, r, h, s.threads[u]);
    }
    assert r.claims != map[];
  }

  /** What StopAndAbort does to the sleepers and to the fields that the shutdown loop reads. */
  lemma StopWakes<H>(s: Sys<H>)
    requires QueueKnown(s.core)
    ensures var r := StopAndAbort(s);
      && r.asleep == {} && !r.shutAsleep && r.core.mode == Stopping && r.core.live == s.core.live && r.shut == s.shut
  {
    hide AbortQueued;
    AbortMode(s.core.(mode := Stopping));
  }

  /** Leaving the shutdown loop, or going to sleep in it, is not a sleeper's business. */
  lemma ShutSleepers<H>(s: Sys<H>, shut: Shutdown, shutAsleep: bool)
    requires Sleepers(s)
    requires shutAsleep ==> ShutdownJustified(s.(shut := shut))
    ensures Sleepers(s.(shut := shut, shutAsleep := shutAsleep))
  {
    var r := s.(shut := shut, shutAsleep := shutAsleep);
    forall t | t in r.asleep
      ensures t in r.threads && Justified(r, r.threads[t])
    {
      assert Justified(s, s.threads[t]);
    }
  }

  /** The shutdown loop goes on from `s1`: it leaves, stops the drain, or goes to sleep. */
  lemma IterateCases<H>(s: Sys<H>, timedOut: bool)
    requires Enabled(s, ShutdownIter(timedOut))
    ensures var s1 := if Drained(s.core) then StopAndAbort(s) else s; var r := IterateShutdown(s, timedOut);
      || r == s1.(shut := ShutJoin)
      || r == StopAndAbort(s)
      || r == s1.(shut := NoShutdown)
      || (r == s1.(shutAsleep := true) && !(s1.core.mode == Stopping && s1.core.live <= 0))
  {
    hide StopAndAbort, Drained, QueueKnown;
  }

  lemma IterationSleepers<H>(s: Sys<H>, timedOut: bool)
    requires Sleepers(s) && Inv(s) && Enabled(s, ShutdownIter(timedOut))
    ensures Sleepers(IterateShutdown(s, timedOut))
  {
    LoopModes(s);
    IterateCases(s, timedOut);
    if Drained(s.core) {
      StopWakes(s);
      DrainedSleepers(StopAndAbort(s));
      hide *;
    } else {
      RunningSleepers(s, timedOut);
    }
  }

  lemma RunningSleepers<H>(s: Sys<H>, timedOut: bool)
    requires Sleepers(s) && Enabled(s, ShutdownIter(timedOut)) && !Drained(s.core)
    requires s.core.mode == Draining || s.core.mode == Stopping
    ensures Sleepers(IterateShutdown(s, timedOut))
  {
    IterateCases(s, timedOut);
    StopWakes(s);
    DrainedSleepers(StopAndAbort(s));
    ShutSleepers(s, ShutJoin, false);
    ShutSleepers(s, NoShutdown, false);
    if s.core.mode == Stopping ==> s.core.live > 0 {
      ShutSleepers(s, ShutLoop, true);
    }
    hide Sleepers, IterateShutdown, ShutdownJustified, StopAndAbort;
  }

  /** After the broadcast of the drain's end nobody sleeps, except perhaps the shutdown caller. */
  lemma DrainedSleepers<H>(r: Sys<H>)
    requires r.asleep == {} && !r.shutAsleep && r.core.mode == Stopping && r.shut == ShutLoop
    ensures Sleepers(r) && Sleepers(r.(shut := ShutJoin)) && Sleepers(r.(shut := NoShutdown))
    ensures r.core.live > 0 ==> Sleepers(r.(shutAsleep := true))
  {
  }

  lemma {:induction false} AbortMode<H>(c: Core<H>)
    requires QueueKnown(c)
    ensures AbortQueued(c).mode == c.mode && AbortQueued(c).live == c.live
    decreases |c.queue|
  {
    if c.queue != [] {
      AbortMode(SetState(RequestCancel(Pop(c), c.queue[0]), c.queue[0], 3));
    }
  }

  lemma LoopModes<H>(s: Sys<H>)
    requires Inv(s)
    ensures s.shut == ShutLoop ==> s.core.mode == Draining || s.core.mode == Stopping
    ensures s.core.mode == Stopped ==> s.core.live == 0
  {
    hide ClaimsFit, SitesFit, Tasks, Counting, Order, Dropped, ClaimLog, Bodies, ThreadShapes;
  }

  lemma ResetSleepers<H>(s: Sys<H>)
    requires Sleepers(s) && Enabled(s, Reset)
    ensures Sleepers(s.(core := s.core.(mode := Running)))
  {
    forall t
      ensures t !in s.asleep
    {
      if t in s.asleep {
        assert false;
      }
    }
  }

  lemma ShutdownSleepers<H>(s: Sys<H>, abort: bool)
    requires Sleepers(s) && QueueKnown(s.core)
    ensures Sleepers(CallShutdown(s, abort))
  {
    hide AbortQueued;
  }

  lemma WakeSleepers<H>(s: Sys<H>, t: nat)
    requires Sleepers(s)
    ensures Sleepers(s.(asleep := s.asleep - {t})) && Sleepers(s.(shutAsleep := false))
  {
    assert forall u :: u in s.asleep - {t} ==> u in s.asleep;
  }

  /** Every section keeps every sleeper justified. */
  lemma StepSleepers<H>(s: Sys<H>, a: Action<H>)
    requires Inv(s) && Sleepers(s) && Enabled(s, a)
    ensures Sleepers(Apply(s, a))
  {
    hide Inv, Sleepers, InitialiseExecutor, BeginStart, TryEnqueue, SetCall, TryWait, CancelAny, RunWorkerLoop,
      BeginTask, FinishTask, EndTask, CallShutdown, IterateShutdown, FinishShutdown;
    match a {
      case Initialise(_, _) => BroadcastSleepers(s, a);
      case StartCall(t, h) => BeginStartSleepers(s, t, h);
      case EnqueueTry(t) => EnqueueSleepers(s, t);
      case WaitCall(t, h) => CallSleepers(s, t, Waiting(h, false));
      case WaitTry(t) => WaitSleepers(s, t);
      case Cancel(h) => CancelSleepers(s, h);
      case WorkerLoop(t) => LoopSleepers(s, t);
      case Begin(t) => BeginSleepers(s, t);
      case Finish(_) => BroadcastSleepers(s, a);
      case End(_) => BroadcastSleepers(s, a);
      case Wake(t) => WakeSleepers(s, t);
      case ShutdownCall(abort) => ShutdownSleepers(s, abort);
      case ShutdownIter(timedOut) => IterationSleepers(s, timedOut);
      case ShutdownFinal => BroadcastSleepers(s, a);
      case ShutdownWake => WakeSleepers(s, 0);
      case Reset => ResetSleepers(s);
    }
  }

  lemma BroadcastSleepers<H>(s: Sys<H>, a: Action<H>)
    requires Enabled(s, a)
    ensures match a
      case Initialise(workers, capacity) => Sleepers(InitialiseExecutor(s, workers, capacity))
      case Finish(t) => Sleepers(FinishTask(s, t))
      case End(t) => Sleepers(EndTask(s, t))
      case ShutdownFinal => Sleepers(FinishShutdown(s))
      case _ => true
  {
  }

  lemma {:induction false} RunSleepers<H>(s: Sys<H>, run: seq<Action<H>>)
    requires Inv(s) && Sleepers(s) && Legal(s, run)
    ensures Sleepers(Exec(s, run))
    decreases |run|
  {
    if run != [] {
      hide Inv, Sleepers, Apply, Enabled;
      StepSleepers(s, run[0]);
      StepKeeps(s, run[0]);
      RunSleepers(Apply(s, run[0]), run[1..]);
    }
  }

  lemma ReachableSleepers<H(!new)>(s: Sys<H>)
    requires Reachable(s)
    ensures Sleepers(s) && Inv(s)
  {
    var s0: Sys<H>, run: seq<Action<H>> :| Initial(s0) && Legal(s0, run) && Exec(s0, run) == s;
    assert Sleepers(s0);
    hide *;
    InitialInv(s0);
    RunSleepers(s0, run);
    RunKeeps(s0, run);
  }

  /** A worker asleep outside any task: the queue is empty and the runtime is not stopping. */
  lemma SleepingWorkerSeesEmptyQueue<H(!new)>(s: Sys<H>, t: nat)
    requires Reachable(s) && t in s.asleep && t in s.threads && s.threads[t].Shaped() && s.threads[t].Now() == NoCall
    ensures s.core.queue == [] && !s.core.mode.AtLeastStopping()
  {
    hide Inv;
    ReachableSleepers(s);
    assert Justified(s, s.threads[t]);
  }

  /** A producer asleep: the queue is full and the runtime is RUNNING. */
  lemma SleepingProducerSeesFullQueue<H(!new)>(s: Sys<H>, t: nat)
    requires Reachable(s) && t in s.asleep && t in s.threads && s.threads[t].Shaped() && s.threads[t].Now().Starting?
    ensures |s.core.queue| == s.core.capacity && s.core.mode == Running
  {
    ReachableSleepers(s);
    assert Justified(s, s.threads[t]);
    hide ClaimsFit, SitesFit, Tasks, Counting, Order, Dropped, ClaimLog, Bodies, ThreadShapes, Sleepers;
  }
}
