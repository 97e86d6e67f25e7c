/**
 Threads asleep in wait on a task that is already over
 (bin/runtime/async_runtime.c:1985-2004, 2093-2141): when that happens, and runs in which
 it does.
 */
module ExecutorOversleep {
  import opened Lists
  import opened ExecutorSpec
  import opened ExecutorMachine
  import opened ExecutorSafety
  import opened ExecutorTheorems
  import opened ExecutorSleep

  /** h is over and no frame holds it any more, so no section to come will announce it. */
  predicate Over<H(==)>(s: Sys<H>, h: H) {
    h in s.core.headers && s.core.headers[h].state >= 2 && h !in s.claims
  }

  /** The start of h has ended without admitting it. */
  predicate Refused<H(==)>(s: Sys<H>, h: H) {
    h in s.core.headers && h !in s.admitted && h !in s.sites
  }

  predicate Cancelled<H(==)>(s: Sys<H>, h: H) {
    h in s.core.headers && s.core.headers[h].state == 3
  }

  ghost predicate RefusedAreCancelled<H(!new)>(s: Sys<H>) {
    forall h :: Refused(s, h) ==> Cancelled(s, h)
  }

  // ---- Refused tasks are over in every reachable state ----

  ghost predicate SameKeys<H>(s: Sys<H>, r: Sys<H>) {
    r.sites == s.sites && r.core.headers.Keys == s.core.headers.Keys
  }

  lemma StopKeys<H>(s: Sys<H>)
    requires Inv(s)
    ensures QueueKnown(s.core)
    ensures SameKeys(s, StopAndAbort(s))
  {
    hide Inv, AbortQueued;
    QueueFacts(s);
    AbortQueuedFacts(s.core.(mode := Stopping));
  }

  lemma CancelKeys<H>(s: Sys<H>, h: H)
    requires h in s.core.headers
    ensures SameKeys(s, CancelAny(s, h))
  {
  }

  lemma WaitKeys<H>(s: Sys<H>, t: nat)
    requires Enabled(s, WaitTry(t))
    ensures SameKeys(s, TryWait(s, t))
  {
    hide CancelAny;
    CancelKeys(s, s.threads[t].Now().task);
  }

  lemma ShutdownKeys<H>(s: Sys<H>, abort: bool, timedOut: bool)
    requires QueueKnown(s.core) && SameKeys(s, StopAndAbort(s))
    ensures SameKeys(s, CallShutdown(s, abort)) && SameKeys(s, IterateShutdown(s, timedOut))
  {
    hide StopAndAbort;
  }

  lemma OtherKeys<H>(s: Sys<H>, a: Action<H>)
    requires Enabled(s, a)
    ensures match a
      case Initialise(workers, capacity) => SameKeys(s, InitialiseExecutor(s, workers, capacity))
      case WaitCall(t, c) => SameKeys(s, SetCall(s, t, Waiting(c, false)))
      case WorkerLoop(t) => SameKeys(s, RunWorkerLoop(s, t))
      case Begin(t) => SameKeys(s, BeginTask(s, t))
      case Finish(t) => SameKeys(s, FinishTask(s, t))
      case End(t) => SameKeys(s, EndTask(s, t))
      case ShutdownFinal => SameKeys(s, FinishShutdown(s))
      case _ => true
  {
  }

  /** Only a start adds a header or changes who is starting what. */
  lemma KeysStay<H>(s: Sys<H>, a: Action<H>)
    requires Inv(s) && Enabled(s, a) && !a.StartCall? && !a.EnqueueTry?
    ensures SameKeys(s, Apply(s, a))
  {
    hide Inv, StopAndAbort, InitialiseExecutor, SetCall, TryWait, CancelAny, RunWorkerLoop, BeginTask, FinishTask,
      EndTask, CallShutdown, IterateShutdown, FinishShutdown;
    StopKeys(s);
    match a {
      case WaitTry(t) => WaitKeys(s, t);
      case Cancel(h) => CancelKeys(s, h);
      case ShutdownCall(abort) => ShutdownKeys(s, abort, false);
      case ShutdownIter(timedOut) => ShutdownKeys(s, false, timedOut);
      case _ => OtherKeys(s, a);
    }
  }

  lemma EnqueueKeys<H>(s: Sys<H>, t: nat, h: H)
    requires Enabled(s, EnqueueTry(t))
    ensures var r := TryEnqueue(s, t);
      && r.core.headers.Keys == s.core.headers.Keys
      && (h in s.sites ==> h in r.sites || h in r.admitted || Cancelled(r, h))
  {
    hide Refuse, Admit;
    var c := s.threads[t].Now().task;
    StartEnds(s, t, c, h);
  }

  lemma StartEnds<H>(s: Sys<H>, t: nat, c: H, h: H)
    requires Present(s, t) && c in s.core.headers
    ensures var r := Refuse(s, t, c);
      r.core.headers.Keys == s.core.headers.Keys && (h in s.sites ==> h in r.sites || Cancelled(r, h))
    ensures var r := Admit(s, t, c);
      r.core.headers.Keys == s.core.headers.Keys && (h in s.sites ==> h in r.sites || h in r.admitted)
  {
  }

  lemma StartKeys<H>(s: Sys<H>, a: Action<H>, h: H)
    requires Inv(s) && Enabled(s, a)
    ensures var r := Apply(s, a);
      && (h in s.sites ==> h in r.sites || h in r.admitted || Cancelled(r, h))
      && (h in r.core.headers ==> h in s.core.headers || h in r.sites)
  {
    if a.EnqueueTry? {
      EnqueueKeys(s, a.t, h);
      hide Inv, TryEnqueue;
    } else if a.StartCall? {
      hide Inv;
    } else {
      KeysStay(s, a);
      hide Apply, Inv;
    }
  }

  lemma StepRefused<H>(s: Sys<H>, a: Action<H>, h: H)
    requires Inv(s) && Enabled(s, a) && Refused(Apply(s, a), h)
    requires Refused(s, h) ==> Cancelled(s, h)
    ensures Cancelled(Apply(s, a), h)
  {
    hide Apply, Inv, Enabled;
    StartKeys(s, a, h);
    StepGrows(s, a);
    if Refused(s, h) {
      StepKeepsTerminal(s, a, h);
    }
  }

  lemma {:induction false} RunRefused<H(!new)>(s: Sys<H>, run: seq<Action<H>>)
    requires Inv(s) && Legal(s, run) && RefusedAreCancelled(s)
    ensures RefusedAreCancelled(Exec(s, run))
    decreases |run|
  {
    if run != [] {
      hide Apply, Inv, Refused, Cancelled, Enabled;
      var r := Apply(s, run[0]);
      forall h | Refused(r, h)
        ensures Cancelled(r, h)
      {
        StepRefused(s, run[0], h);
      }
      StepKeeps(s, run[0]);
      RunRefused(r, run[1..]);
    }
  }

  /** A refused start leaves its task cancelled, and so it stays. */
  lemma RefusedIsCancelled<H(!new)>(s: Sys<H>, h: H)
    requires Reachable(s) && Refused(s, h)
    ensures Cancelled(s, h) && h !in s.claims
  {
    var s0: Sys<H>, run: seq<Action<H>> :| Initial(s0) && Legal(s0, run) && Exec(s0, run) == s;
    assert RefusedAreCancelled(s0);
    InitialInv(s0);
    RunRefused(s0, run);
    RunKeeps(s0, run);
    hide Legal, Exec;
  }

  // ---- Exactly when a waiter sleeps on a task that is over ----

  /**
   A thread asleep in wait sleeps on a task that is over, with nothing left to announce it,
   for exactly two reasons: it cancelled the task itself in the pass that put it to sleep,
   or the start of the task was refused.
   */
  lemma OversleepsIff<H(!new)>(s: Sys<H>, t: nat)
    requires Reachable(s) && t in s.asleep && t in s.threads && s.threads[t].Shaped() && s.threads[t].Now().Waiting?
    ensures var h := s.threads[t].Now().task;
      && h in s.core.headers
      && (Over(s, h) <==> s.threads[t].Now().selfCancelled || Refused(s, h))
      && !(s.threads[t].Now().selfCancelled && Refused(s, h))
  {
    ReachableSleepers(s);
    assert Justified(s, s.threads[t]);
    var h := s.threads[t].Now().task;
    if s.threads[t].Now().selfCancelled {
      assert h in s.cancelled + s.aborted;
    }
    if Refused(s, h) {
      RefusedIsCancelled(s, h);
    }
    hide ClaimsFit, SitesFit, Counting, Order, ClaimLog, Bodies, ThreadShapes, Sleepers, Lifecycle;
  }

  /** The wait pass cancels its task out of the queue and finds nothing else to assist with. */
  predicate CancelsThenSleeps<H(==)>(s: Sys<H>, t: nat, h: H)
    requires Present(s, t) && h in s.core.headers
  {
    && Propagates(s, t, h) && CancelRemoves(s.core, h)
    && !(s.core.mode == Running && |s.core.queue| > 1)
  }

  lemma RemovesOne<H>(s: Sys<H>, h: H)
    requires Inv(s) && h in s.core.headers && CancelRemoves(s.core, h)
    ensures h !in s.claims && |RemoveFirst(s.core.queue, h)| == |s.core.queue| - 1
  {
    RemoveFirstFacts(s.core.queue, h);
  }

  lemma CancelHeaders<H>(c: Core<H>, h: H)
    requires h in c.headers
    ensures var r := CancelLocked(c, h);
      && r.queue == (if CancelRemoves(c, h) then RemoveFirst(c.queue, h) else c.queue) && r.mode == c.mode
      && h in r.headers && r.headers[h].state == if CancelRemoves(c, h) then 3 else c.headers[h].state
  {
    hide RemoveFirst;
  }

  /** What the cancel of a wait pass leaves for the rest of the pass. */
  lemma CancelLeaves<H>(s: Sys<H>, h: H)
    requires Inv(s) && h in s.core.headers
    ensures var r := CancelAny(s, h); var removes := CancelRemoves(s.core, h);
      && (removes ==> Cancelled(r, h) && h !in r.claims && (r.core.queue == [] <==> |s.core.queue| == 1))
      && (!removes ==> h in r.core.headers && r.core.headers[h].state == s.core.headers[h].state)
      && r.threads == s.threads && r.core.mode == s.core.mode && r.asleep == {}
  {
    if CancelRemoves(s.core, h) {
      RemovesOne(s, h);
    }
    CancelHeaders(s.core, h);
    hide Inv, RemoveFirst, CancelLocked, CancelRemoves;
  }

  /** What a waiter on a stack may assume. */
  lemma WaiterFacts<H>(s: Sys<H>, t: nat, h: H)
    requires Inv(s) && Present(s, t) && h in s.core.headers
    ensures s.threads[t].stack != [] ==> s.threads[t].worker
    ensures s.core.mode.AtLeastStopping() ==> s.core.queue == []
  {
    ThreadAt(s, t);
    LifecycleFacts(s);
  }

  lemma SleepSets<H>(s: Sys<H>, t: nat, h: H, self: bool)
    requires Present(s, t) && h in s.core.headers
    ensures var r := Sleep(SetCall(s, t, Waiting(h, self)), t); t in r.asleep && (Over(r, h) <==> Over(s, h))
    ensures s.core.queue != [] ==> t !in Claim(SetCall(s, t, Waiting(h, self)), t).asleep
    ensures SetCall(s, t, NoCall).asleep == s.asleep
  {
  }

  /** A wait pass that propagates a cancel, by what the cancel leaves. */
  lemma PropagatingPass<H>(s: Sys<H>, t: nat, h: H)
    requires Enabled(s, WaitTry(t)) && h == s.threads[t].Now().task && Propagates(s, t, h)
    requires s.threads[t].worker && (s.core.mode.AtLeastStopping() ==> s.core.queue == [])
    requires var r := CancelAny(s, h); var removes := CancelRemoves(s.core, h);
      && (removes ==> Cancelled(r, h) && h !in r.claims && (r.core.queue == [] <==> |s.core.queue| == 1))
      && (!removes ==> h in r.core.headers && r.core.headers[h].state == s.core.headers[h].state)
      && r.threads == s.threads && r.core.mode == s.core.mode && r.asleep == {}
    requires var r := CancelAny(s, h); Present(r, t) && h in r.core.headers
    ensures var r := TryWait(s, t);
      t in r.asleep && Over(r, h) <==> CancelsThenSleeps(s, t, h)
  {
    hide CancelAny, Claim;
    var s1 := CancelAny(s, h);
    SleepSets(s1, t, h, CancelRemoves(s.core, h));
    SleepSets(s1, t, h, false);
  }

  /**
   A wait pass puts its thread to sleep on a task that is already over if and only if it
   passes a cancellation on to a queued task and the queue then holds nothing to assist with.
   */
  lemma FallsAsleepOnOverIff<H>(s: Sys<H>, t: nat)
    requires Inv(s) && Enabled(s, WaitTry(t))
    ensures var h, r := s.threads[t].Now().task, Apply(s, WaitTry(t));
      t in r.asleep && Over(r, h) <==> CancelsThenSleeps(s, t, h)
  {
    var h := s.threads[t].Now().task;
    WaiterFacts(s, t, h);
    SleepSets(s, t, h, false);
    if Propagates(s, t, h) {
      CancelLeaves(s, h);
      PropagatingPass(s, t, h);
    } else {
      hide Inv, SetCall, Sleep, Claim;
    }
  }

  /** The thread that starts the task t sleeps on. */
  lemma StrandStep<H>(s: Sys<H>, a: Action<H>, h: H)
    requires Inv(s) && Enabled(s, a) && !Refused(s, h) && Refused(Apply(s, a), h)
    ensures a.EnqueueTry? && s.threads[a.t].Now().Starting? && s.threads[a.t].Now().task == h
  {
    StartKeys(s, a, h);
    StepGrows(s, a);
    if !a.EnqueueTry? && !a.StartCall? {
      KeysStay(s, a);
      hide Apply, Inv;
    } else {
      hide Inv;
    }
  }

  /** If thread t sleeps before and after, it is the same thread. */
  ghost predicate Untouched<H>(s: Sys<H>, r: Sys<H>, t: nat) {
    t in s.asleep && t in s.threads && t in r.asleep ==> t in r.threads && r.threads[t] == s.threads[t]
  }

  lemma EnqueueLeaves<H>(s: Sys<H>, a: Action<H>, t: nat)
    requires Enabled(s, a)
    ensures match a
      case EnqueueTry(u) => Untouched(s, TryEnqueue(s, u), t)
      case StartCall(u, h) => Untouched(s, BeginStart(s, u, h), t)
      case WaitCall(u, h) => Untouched(s, SetCall(s, u, Waiting(h, false)), t)
      case Begin(u) => Untouched(s, BeginTask(s, u), t)
      case WorkerLoop(u) => Untouched(s, RunWorkerLoop(s, u), t)
      case _ => true
  {
  }

  lemma WaitLeaves<H>(s: Sys<H>, u: nat, t: nat)
    requires Enabled(s, WaitTry(u))
    ensures Untouched(s, TryWait(s, u), t)
  {
    hide CancelAny, Sleepers;
    CancelSleepers(s, s.threads[u].Now().task);
  }

  lemma ShutdownLeaves<H>(s: Sys<H>, abort: bool, timedOut: bool, t: nat)
    requires QueueKnown(s.core)
    ensures Untouched(s, CallShutdown(s, abort), t) && Untouched(s, IterateShutdown(s, timedOut), t)
  {
    hide AbortQueued;
  }

  /** A section runs in a thread that is awake. */
  lemma SleeperUntouched<H>(s: Sys<H>, a: Action<H>, t: nat)
    requires Enabled(s, a)
    ensures Untouched(s, Apply(s, a), t)
  {
    hide SetCall, TryEnqueue, BeginStart, TryWait, CancelAny, RunWorkerLoop, BeginTask, CallShutdown, IterateShutdown;
    match a {
      case WaitTry(u) => WaitLeaves(s, u, t);
      case Cancel(h) => CancelSleepers(s, h); hide Sleepers;
      case ShutdownCall(abort) => ShutdownLeaves(s, abort, false, t);
      case ShutdownIter(timedOut) => ShutdownLeaves(s, false, timedOut, t);
      case _ => EnqueueLeaves(s, a, t);
    }
  }

  /** A task that ends while a waiter stays asleep on it ended by having its start refused. */
  lemma StrandedByRefusal<H(!new)>(s: Sys<H>, a: Action<H>, t: nat)
    requires Reachable(s) && Enabled(s, a) && t in s.asleep && t in Apply(s, a).asleep
    requires t in s.threads && s.threads[t].Shaped() && s.threads[t].Now().Waiting?
    requires !Over(s, s.threads[t].Now().task) && Over(Apply(s, a), s.threads[t].Now().task)
    ensures a.EnqueueTry? && s.threads[a.t].Now().Starting? && s.threads[a.t].Now().task == s.threads[t].Now().task
    ensures Refused(Apply(s, a), s.threads[t].Now().task)
  {
    hide Reachable, Inv, Enabled, Apply, Over, Refused;
    ReachableInv(s);
    SleeperUntouched(s, a, t);
    StepReachable(s, a);
    OversleepsIff(s, t);
    OversleepsIff(Apply(s, a), t);
    StrandStep(s, a, s.threads[t].Now().task);
  }

  // ---- Runs that strand a waiter ----

  lemma {:induction false} ExtendRun<H>(s: Sys<H>, run: seq<Action<H>>, a: Action<H>)
    requires Legal(s, run) && Enabled(Exec(s, run), a)
    ensures Legal(s, run + [a]) && Exec(s, run + [a]) == Apply(Exec(s, run), a)
    decreases |run|
  {
    hide Apply, Enabled;
    if run == [] {
      assert run + [a] == [a];
      assert Legal(Apply(s, a), []);
    } else {
      assert (run + [a])[1..] == run[1..] + [a];
      ExtendRun(Apply(s, run[0]), run[1..], a);
    }
  }

  lemma StepReachable<H(!new)>(s: Sys<H>, a: Action<H>)
    requires Reachable(s) && Enabled(s, a)
    ensures Reachable(Apply(s, a))
  {
    hide Apply, Enabled;
    var s0: Sys<H>, run: seq<Action<H>> :| Initial(s0) && Legal(s0, run) && Exec(s0, run) == s;
    ExtendRun(s0, run, a);
    assert Exec(s0, run + [a]) == Apply(s, a);
  }

  /** A state of the run below: one client (0), one worker (1), capacity 4, no shutdown. */
  function At(queue: seq<nat>, outstanding: int, headers: map<nat, Header>, settled: seq<nat>,
              client: Call<nat>, stack: seq<Frame<nat>>, calls: seq<Call<nat>>, asleep: set<nat>,
              admitted: seq<nat>, sites: map<nat, (nat, nat)>): Sys<nat>
  {
    var claimed := if stack == [] then [] else [10];
    var bodies := if stack == [Frame(10, InBody)] then [10] else [];
    var claims: map<nat, (nat, nat)> := if stack == [] then map[] else map[10 := (1, 0)];
    var cancelled := if settled == [] then {} else {20};
    Sys(Core(Running, true, 4, queue, outstanding, 1, headers, settled),
        map[0 := Thread(false, false, [], [client]), 1 := Thread(true, false, stack, calls)],
        asleep, NoShutdown, false, admitted, claimed, cancelled, {}, bodies, claims, sites)
  }

  function Unstarted(): Sys<nat> {
    Sys(Core(Running, false, 0, [], 0, 0, map[], []), map[0 := Thread(false, false, [], [NoCall])],
        {}, NoShutdown, false, [], [], {}, {}, [], map[], map[])
  }

  /** The run, state by state: task 10 is started, begun and cancelled; its body starts 20 and waits for it. */
  function Stage(i: nat): Sys<nat> {
    var body := [Frame<nat>.Frame(10, InBody)];
    var on10 := Call<nat>.Waiting(10, false);
    var asked := map[10 := Header(1, true), 20 := Header(0, false)];
    var over := map[10 := Header(1, true), 20 := Header(3, true)];
    match i
    case 0 => Unstarted()
    case 1 => At([], 0, map[], [], NoCall, [], [NoCall], {}, [], map[])
    case 2 => At([], 0, map[10 := Header(0, false)], [], Starting(10, false), [], [NoCall], {}, [], map[10 := (0, 0)])
    case 3 => At([10], 1, map[10 := Header(0, false)], [], NoCall, [], [NoCall], {}, [10], map[])
    case 4 => At([10], 1, map[10 := Header(0, false)], [], on10, [], [NoCall], {}, [10], map[])
    case 5 => At([], 1, map[10 := Header(0, false)], [], on10, [Frame(10, Claimed)], [NoCall, NoCall], {}, [10], map[])
    case 6 => At([], 1, map[10 := Header(1, false)], [], on10, body, [NoCall, NoCall], {}, [10], map[])
    case 7 => At([], 1, map[10 := Header(1, false), 20 := Header(0, false)], [], on10, body, [NoCall, Starting(20, false)], {}, [10], map[20 := (1, 1)])
    case 8 => At([20], 2, map[10 := Header(1, false), 20 := Header(0, false)], [], on10, body, [NoCall, NoCall], {}, [10, 20], map[])
    case 9 => At([20], 2, asked, [], on10, body, [NoCall, NoCall], {}, [10, 20], map[])
    case 10 => At([20], 2, asked, [], on10, body, [NoCall, Waiting(20, false)], {}, [10, 20], map[])
    case 11 => At([], 1, over, [20], on10, body, [NoCall, Waiting(20, true)], {1}, [10, 20], map[])
    case _ => At([], 1, over, [20], on10, body, [NoCall, Waiting(20, true)], {0, 1}, [10, 20], map[])
  }

  function Move(i: nat): Action<nat> {
    match i
    case 0 => Initialise({1}, 4)
    case 1 => StartCall(0, 10)
    case 2 => EnqueueTry(0)
    case 3 => WaitCall(0, 10)
    case 4 => WorkerLoop(1)
    case 5 => Begin(1)
    case 6 => StartCall(1, 20)
    case 7 => EnqueueTry(1)
    case 8 => Cancel(10)
    case 9 => WaitCall(1, 20)
    case 10 => WaitTry(1)
    case _ => WaitTry(0)
  }

  lemma SameThreads(a: map<nat, Thread<nat>>, b: map<nat, Thread<nat>>)
    requires a.Keys == {0, 1} && b.Keys == {0, 1}
    requires a[0].worker == b[0].worker && a[0].exited == b[0].exited && a[0].stack == b[0].stack && a[0].calls == b[0].calls
    requires a[1].worker == b[1].worker && a[1].exited == b[1].exited && a[1].stack == b[1].stack && a[1].calls == b[1].calls
    ensures a == b
  {
  }

  lemma Move0()
    ensures Enabled(Stage(0), Move(0)) && Apply(Stage(0), Move(0)) == Stage(1)
  {
    hide BeginStart, TryEnqueue, TryWait, CancelAny, RunWorkerLoop, BeginTask, FinishTask, EndTask, CallShutdown,
      IterateShutdown, FinishShutdown, StopAndAbort, Claim, Admit, Refuse;
    SameThreads(Apply(Stage(0), Move(0)).threads, Stage(1).threads);
  }

  lemma Move1()
    ensures Enabled(Stage(1), Move(1)) && Apply(Stage(1), Move(1)) == Stage(2)
  {
    hide InitialiseExecutor, TryEnqueue, TryWait, CancelAny, RunWorkerLoop, BeginTask, FinishTask, EndTask,
      CallShutdown, IterateShutdown, FinishShutdown, StopAndAbort, Claim, Admit, Refuse;
    SameThreads(Apply(Stage(1), Move(1)).threads, Stage(2).threads);
  }

  lemma Move2()
    ensures Enabled(Stage(2), Move(2)) && Apply(Stage(2), Move(2)) == Stage(3)
  {
    hide InitialiseExecutor, BeginStart, TryWait, CancelAny, RunWorkerLoop, BeginTask, FinishTask, EndTask,
      CallShutdown, IterateShutdown, FinishShutdown, StopAndAbort, Claim, Refuse;
    SameThreads(Apply(Stage(2), Move(2)).threads, Stage(3).threads);
  }

  lemma Move3()
    ensures Enabled(Stage(3), Move(3)) && Apply(Stage(3), Move(3)) == Stage(4)
  {
    hide InitialiseExecutor, BeginStart, TryEnqueue, TryWait, CancelAny, RunWorkerLoop, BeginTask, FinishTask,
      EndTask, CallShutdown, IterateShutdown, FinishShutdown, StopAndAbort, Claim, Admit, Refuse;
    SameThreads(Apply(Stage(3), Move(3)).threads, Stage(4).threads);
  }

  lemma Move4()
    ensures Enabled(Stage(4), Move(4)) && Apply(Stage(4), Move(4)) == Stage(5)
  {
    hide InitialiseExecutor, BeginStart, TryEnqueue, TryWait, CancelAny, BeginTask, FinishTask, EndTask,
      CallShutdown, IterateShutdown, FinishShutdown, StopAndAbort, Admit, Refuse;
    SameThreads(Apply(Stage(4), Move(4)).threads, Stage(5).threads);
  }

  lemma BodyOfTenBegins()
    ensures 10 in Stage(5).core.headers && RunsBody(Stage(5).core, 10)
    ensures BeginCore(Stage(5).core, 10) == Stage(6).core
  {
    assert map[10 := Header(0, false)][10 := Header(1, false)] == map[10 := Header(1, false)];
  }

  lemma Move5()
    ensures Enabled(Stage(5), Move(5)) && Apply(Stage(5), Move(5)) == Stage(6)
  {
    hide BeginCore, RunsBody, InitialiseExecutor, BeginStart, TryEnqueue, TryWait, CancelAny, RunWorkerLoop,
      FinishTask, EndTask, CallShutdown, IterateShutdown, FinishShutdown, StopAndAbort, Claim, Admit, Refuse;
    BodyOfTenBegins();
    assert [Frame(10, Claimed)][0 := Frame(10, InBody)] == [Frame(10, InBody)];
    SameThreads(Apply(Stage(5), Move(5)).threads, Stage(6).threads);
  }

  lemma Move6()
    ensures Enabled(Stage(6), Move(6)) && Apply(Stage(6), Move(6)) == Stage(7)
  {
    hide InitialiseExecutor, TryEnqueue, TryWait, CancelAny, RunWorkerLoop, BeginTask, FinishTask, EndTask,
      CallShutdown, IterateShutdown, FinishShutdown, StopAndAbort, Claim, Admit, Refuse;
    SameThreads(Apply(Stage(6), Move(6)).threads, Stage(7).threads);
  }

  lemma Move7()
    ensures Enabled(Stage(7), Move(7)) && Apply(Stage(7), Move(7)) == Stage(8)
  {
    hide InitialiseExecutor, BeginStart, TryWait, CancelAny, RunWorkerLoop, BeginTask, FinishTask, EndTask,
      CallShutdown, IterateShutdown, FinishShutdown, StopAndAbort, Claim, Refuse;
    SameThreads(Apply(Stage(7), Move(7)).threads, Stage(8).threads);
  }

  lemma Move8()
    ensures Enabled(Stage(8), Move(8)) && Apply(Stage(8), Move(8)) == Stage(9)
  {
    hide InitialiseExecutor, BeginStart, TryEnqueue, TryWait, RunWorkerLoop, BeginTask, FinishTask, EndTask,
      CallShutdown, IterateShutdown, FinishShutdown, StopAndAbort, Claim, Admit, Refuse;
    SameThreads(Apply(Stage(8), Move(8)).threads, Stage(9).threads);
  }

  lemma Move9()
    ensures Enabled(Stage(9), Move(9)) && Apply(Stage(9), Move(9)) == Stage(10)
  {
    hide InitialiseExecutor, BeginStart, TryEnqueue, TryWait, CancelAny, RunWorkerLoop, BeginTask, FinishTask,
      EndTask, CallShutdown, IterateShutdown, FinishShutdown, StopAndAbort, Claim, Admit, Refuse;
    SameThreads(Apply(Stage(9), Move(9)).threads, Stage(10).threads);
  }

  /** The waiter takes its own task out of the queue ... */
  lemma CancelTwenty()
    ensures 20 in Stage(10).core.headers
    ensures CancelRemoves(Stage(10).core, 20)
    ensures CancelAny(Stage(10), 20) == Stage(10).(core := Stage(11).core, cancelled := {20})
  {
    assert RemoveFirst([20], 20) == [];
  }

  /** ... and goes to sleep. */
  lemma Move10()
    ensures Enabled(Stage(10), Move(10)) && Apply(Stage(10), Move(10)) == Stage(11)
  {
    hide InitialiseExecutor, BeginStart, TryEnqueue, RunWorkerLoop, BeginTask, FinishTask, EndTask, CallShutdown,
      IterateShutdown, FinishShutdown, StopAndAbort, Claim, Admit, Refuse, CancelAny;
    CancelTwenty();
    assert Propagates(Stage(10), 1, 20);
    SameThreads(Apply(Stage(10), Move(10)).threads, Stage(11).threads);
  }

  lemma Move11()
    ensures Enabled(Stage(11), Move(11)) && Apply(Stage(11), Move(11)) == Stage(12)
  {
    hide InitialiseExecutor, BeginStart, TryEnqueue, CancelAny, RunWorkerLoop, BeginTask, FinishTask, EndTask,
      CallShutdown, IterateShutdown, FinishShutdown, StopAndAbort, Claim, Admit, Refuse;
    SameThreads(Apply(Stage(11), Move(11)).threads, Stage(12).threads);
  }

  lemma {:induction false} StageReachable(i: nat)
    requires i <= 12
    ensures Reachable(Stage(i))
  {
    hide Apply, Enabled, Stage, Move;
    if i == 0 {
      StageZero();
    } else {
      StageReachable(i - 1);
      match i - 1 {
        case 0 => Move0();
        case 1 => Move1();
        case 2 => Move2();
        case 3 => Move3();
        case 4 => Move4();
        case 5 => Move5();
        case 6 => Move6();
        case 7 => Move7();
        case 8 => Move8();
        case 9 => Move9();
        case 10 => Move10();
        case _ => Move11();
      }
      StepReachable(Stage(i - 1), Move(i - 1));
    }
  }

  lemma StageZero()
    ensures Reachable(Stage(0))
  {
    assert Initial(Unstarted()) && Legal(Unstarted(), []) && Exec(Unstarted(), []) == Unstarted();
  }

  /**
   The waiter broadcasts before it sleeps, not after: a run in which every thread is asleep,
   no shutdown is running, and the task the worker waits for has long been over.
   */
  lemma EveryoneOversleeps() returns (s: Sys<nat>)
    ensures Reachable(s)
    ensures s.asleep == s.threads.Keys && s.asleep == {0, 1} && s.shut == NoShutdown
    ensures s.threads[1].Shaped() && s.threads[1].Now() == Waiting(20, true)
    ensures 20 in s.core.headers && s.core.headers[20].state == 3 && s.core.queue == []
  {
    s := Stage(12);
    StageReachable(12);
    hide Reachable;
  }

  /** A state of the second run: clients 0 and 1, worker 2, capacity 4, only task 20. */
  function On(mode: Mode, shut: Shutdown, headers: map<nat, Header>, starter: Call<nat>, waiter: Call<nat>,
              asleep: set<nat>, sites: map<nat, (nat, nat)>): Sys<nat>
  {
    Sys(Core(mode, true, 4, [], 0, 1, headers, []),
        map[0 := Thread(false, false, [], [starter]), 1 := Thread(false, false, [], [waiter]),
            2 := Thread(true, false, [], [NoCall])],
        asleep, shut, false, [], [], {}, {}, [], map[], sites)
  }

  /** The run, state by state: 20 is being started and awaited when a drain begins. */
  function Refusal(i: nat): Sys<nat> {
    var known := map[20 := Header(0, false)];
    var on20 := Call<nat>.Waiting(20, false);
    var site: map<nat, (nat, nat)> := map[20 := (0, 0)];
    match i
    case 0 => Sys(Core(Running, false, 0, [], 0, 0, map[], []),
                  map[0 := Thread(false, false, [], [NoCall]), 1 := Thread(false, false, [], [NoCall])],
                  {}, NoShutdown, false, [], [], {}, {}, [], map[], map[])
    case 1 => On(Running, NoShutdown, map[], NoCall, NoCall, {}, map[])
    case 2 => On(Running, NoShutdown, known, Starting(20, false), NoCall, {}, site)
    case 3 => On(Running, NoShutdown, known, Starting(20, false), on20, {}, site)
    case 4 => On(Running, NoShutdown, known, Starting(20, false), on20, {1}, site)
    case 5 => On(Draining, ShutLoop, known, Starting(20, false), on20, {}, site)
    case 6 => On(Draining, ShutLoop, known, Starting(20, false), on20, {1}, site)
    case _ => On(Draining, ShutLoop, map[20 := Header(3, false)], NoCall, on20, {1}, map[])
  }

  function RefusalMove(i: nat): Action<nat> {
    match i
    case 0 => Initialise({2}, 4)
    case 1 => StartCall(0, 20)
    case 2 => WaitCall(1, 20)
    case 3 => WaitTry(1)
    case 4 => ShutdownCall(false)
    case 5 => WaitTry(1)
    case _ => EnqueueTry(0)
  }

  lemma SameThree(a: map<nat, Thread<nat>>, b: map<nat, Thread<nat>>)
    requires a.Keys == {0, 1, 2} && b.Keys == {0, 1, 2}
    requires a[0].calls == b[0].calls && a[0] == b[0].(calls := a[0].calls)
    requires a[1].calls == b[1].calls && a[1] == b[1].(calls := a[1].calls)
    requires a[2].calls == b[2].calls && a[2] == b[2].(calls := a[2].calls)
    ensures a == b
  {
  }

  ghost predicate RefusalLeads(i: nat) {
    Enabled(Refusal(i), RefusalMove(i)) && Apply(Refusal(i), RefusalMove(i)) == Refusal(i + 1)
  }

  lemma Refusal0()
    ensures RefusalLeads(0)
  {
    hide BeginStart, TryEnqueue, TryWait, CancelAny, RunWorkerLoop, BeginTask, FinishTask, EndTask, CallShutdown,
      IterateShutdown, FinishShutdown, StopAndAbort, Claim, Admit, Refuse;
    SameThree(Apply(Refusal(0), RefusalMove(0)).threads, Refusal(1).threads);
  }

  lemma Refusal1()
    ensures RefusalLeads(1)
  {
    hide InitialiseExecutor, TryEnqueue, TryWait, CancelAny, RunWorkerLoop, BeginTask, FinishTask, EndTask,
      CallShutdown, IterateShutdown, FinishShutdown, StopAndAbort, Claim, Admit, Refuse;
    SameThree(Apply(Refusal(1), RefusalMove(1)).threads, Refusal(2).threads);
  }

  lemma Refusal2()
    ensures RefusalLeads(2)
  {
    hide InitialiseExecutor, BeginStart, TryEnqueue, TryWait, CancelAny, RunWorkerLoop, BeginTask, FinishTask,
      EndTask, CallShutdown, IterateShutdown, FinishShutdown, StopAndAbort, Claim, Admit, Refuse;
    SameThree(Apply(Refusal(2), RefusalMove(2)).threads, Refusal(3).threads);
  }

  lemma Refusal3()
    ensures RefusalLeads(3)
  {
    hide InitialiseExecutor, BeginStart, TryEnqueue, CancelAny, RunWorkerLoop, BeginTask, FinishTask, EndTask,
      CallShutdown, IterateShutdown, FinishShutdown, StopAndAbort, Claim, Admit, Refuse;
    SameThree(Apply(Refusal(3), RefusalMove(3)).threads, Refusal(4).threads);
  }

  lemma Refusal4()
    ensures RefusalLeads(4)
  {
    hide InitialiseExecutor, BeginStart, TryEnqueue, TryWait, CancelAny, RunWorkerLoop, BeginTask, FinishTask,
      EndTask, IterateShutdown, FinishShutdown, StopAndAbort, Claim, Admit, Refuse;
    SameThree(Apply(Refusal(4), RefusalMove(4)).threads, Refusal(5).threads);
  }

  lemma Refusal5()
    ensures RefusalLeads(5)
  {
    hide InitialiseExecutor, BeginStart, TryEnqueue, CancelAny, RunWorkerLoop, BeginTask, FinishTask, EndTask,
      CallShutdown, IterateShutdown, FinishShutdown, StopAndAbort, Claim, Admit, Refuse;
    SameThree(Apply(Refusal(5), RefusalMove(5)).threads, Refusal(6).threads);
  }

  lemma Refusal6()
    ensures RefusalLeads(6)
  {
    hide InitialiseExecutor, BeginStart, TryWait, CancelAny, RunWorkerLoop, BeginTask, FinishTask, EndTask,
      CallShutdown, IterateShutdown, FinishShutdown, StopAndAbort, Claim, Admit;
    SameThree(Apply(Refusal(6), RefusalMove(6)).threads, Refusal(7).threads);
  }

  lemma {:induction false} RefusalReachable(i: nat)
    requires i <= 7
    ensures Reachable(Refusal(i))
  {
    if i == 0 {
      assert Initial(Refusal(0)) && Legal(Refusal(0), []) && Exec(Refusal(0), []) == Refusal(0);
    } else {
      hide Apply, Enabled, Refusal, RefusalMove;
      RefusalReachable(i - 1);
      match i - 1 {
        case 0 => Refusal0();
        case 1 => Refusal1();
        case 2 => Refusal2();
        case 3 => Refusal3();
        case 4 => Refusal4();
        case 5 => Refusal5();
        case _ => Refusal6();
      }
      StepReachable(Refusal(i - 1), RefusalMove(i - 1));
    }
  }

  /** A refused start is stored without a broadcast: a run that leaves its waiter asleep, with nothing cancelled. */
  lemma RefusedStartOversleeps() returns (s: Sys<nat>)
    ensures Reachable(s)
    ensures s.threads.Keys == {0, 1, 2} && s.threads[1].Shaped() && s.threads[1].Now() == Waiting(20, false)
    ensures 1 in s.asleep && Over(s, 20) && Refused(s, 20) && s.cancelled == {} && s.core.mode == Draining
  {
    s := Refusal(7);
    RefusalReachable(7);
    hide Reachable;
  }
}
