/**
 Which terminal state a task ends in, and why (bin/runtime/async_runtime.c:1689-1728, 2010-2026).
 */
module ExecutorOutcomes {
  import opened Lists
  import opened ExecutorSpec
  import opened ExecutorMachine
  import opened ExecutorSafety
  import opened ExecutorTheorems
  import opened ExecutorOversleep

  predicate Working(m: Mode) {
    m == Running || m == Draining
  }

  /** Thread t ends the task on top of its stack: its body calls finish, or has returned without. */
  predicate Ends<H(==)>(s: Sys<H>, a: Action<H>, t: nat, h: H) {
    && Enabled(s, a) && (a == Finish(t) || a == End(t))
    && s.threads[t].stack != [] && s.threads[t].Top().task == h
    && h in s.core.headers && s.core.headers[h].state < 2
  }

  /**
   A task that its thread ends is finished if and only if no cancel was requested of it and
   the runtime is still RUNNING or DRAINING; otherwise it is cancelled.
   */
  lemma EndsFinishedIff<H>(s: Sys<H>, a: Action<H>, t: nat, h: H)
    requires Inv(s) && Ends(s, a, t, h)
    ensures h in Apply(s, a).core.headers
    ensures var before, after := s.core.headers[h], Apply(s, a).core.headers[h];
      && (after == Header(2, false) <==> !before.cancelRequested && Working(s.core.mode))
      && (after != Header(2, false) ==> after.state == 3)
      && after.cancelRequested == before.cancelRequested
  {
    hide Inv;
  }

  /** h ended in this section with no cancel requested, in a runtime at work, its body having run. */
  ghost predicate EndsCleanly<H>(s: Sys<H>, a: Action<H>, h: H) {
    exists t: nat :: Ends(s, a, t, h) && s.core.headers[h] == Header(1, false) && Working(s.core.mode) && h in s.bodies
  }

  predicate Finished<H(==)>(s: Sys<H>, h: H) {
    h in s.core.headers && s.core.headers[h].state == 2
  }

  // ---- A finished task ran its body ----

  /** Running and finished tasks have had their bodies begun. */
  predicate Ran<H(==)>(s: Sys<H>, h: H) {
    h in s.core.headers && 1 <= s.core.headers[h].state <= 2 ==> h in s.bodies
  }

  /** h keeps its state, or is waiting, or is cancelled. */
  predicate NotServed<H(==)>(s: Sys<H>, r: Sys<H>, h: H) {
    h in r.core.headers ==>
      || r.core.headers[h].state == 0 || r.core.headers[h].state == 3
      || (h in s.core.headers && r.core.headers[h].state == s.core.headers[h].state)
  }

  lemma StopServesNobody<H>(s: Sys<H>, h: H)
    requires Inv(s)
    ensures QueueKnown(s.core) && NotServed(s, StopAndAbort(s), h)
  {
    QueueFacts(s);
    hide Inv, AbortQueued;
    AbortQueuedFacts(s.core.(mode := Stopping));
  }

  lemma CancelServesNobody<H>(s: Sys<H>, c: H, h: H)
    requires c in s.core.headers
    ensures NotServed(s, CancelAny(s, c), h)
  {
  }

  lemma WaitServesNobody<H>(s: Sys<H>, t: nat, h: H)
    requires Enabled(s, WaitTry(t))
    ensures NotServed(s, TryWait(s, t), h)
  {
    hide CancelAny;
    CancelServesNobody(s, s.threads[t].Now().task, h);
  }

  lemma OthersServeNobody<H>(s: Sys<H>, a: Action<H>, h: H)
    requires Enabled(s, a)
    ensures match a
      case Initialise(workers, capacity) => NotServed(s, InitialiseExecutor(s, workers, capacity), h)
      case StartCall(t, c) => NotServed(s, BeginStart(s, t, c), h)
      case EnqueueTry(t) => NotServed(s, TryEnqueue(s, t), h)
      case WaitCall(t, c) => NotServed(s, SetCall(s, t, Waiting(c, false)), h)
      case WorkerLoop(t) => NotServed(s, RunWorkerLoop(s, t), h)
      case ShutdownFinal => NotServed(s, FinishShutdown(s), h)
      case _ => true
  {
  }

  lemma ShutdownServesNobody<H>(s: Sys<H>, abort: bool, timedOut: bool, h: H)
    requires QueueKnown(s.core) && NotServed(s, StopAndAbort(s), h)
    ensures NotServed(s, CallShutdown(s, abort), h) && NotServed(s, IterateShutdown(s, timedOut), h)
  {
    hide StopAndAbort;
  }

  lemma OnlyStacksServe<H>(s: Sys<H>, a: Action<H>, h: H)
    requires Inv(s) && Enabled(s, a) && !a.Begin? && !a.Finish? && !a.End?
    ensures NotServed(s, Apply(s, a), h)
  {
    hide Inv, NotServed, InitialiseExecutor, BeginStart, TryEnqueue, SetCall, TryWait, CancelAny, RunWorkerLoop,
      CallShutdown, IterateShutdown, FinishShutdown, StopAndAbort;
    StopServesNobody(s, h);
    match a {
      case WaitTry(t) => WaitServesNobody(s, t, h);
      case Cancel(c) => CancelServesNobody(s, c, h);
      case ShutdownCall(abort) => ShutdownServesNobody(s, abort, false, h);
      case ShutdownIter(timedOut) => ShutdownServesNobody(s, false, timedOut, h);
      case Wake(_) => SameHeaders(s, Apply(s, a), h);
      case ShutdownWake => SameHeaders(s, Apply(s, a), h);
      case Reset => SameHeaders(s, Apply(s, a), h);
      case _ => OthersServeNobody(s, a, h);
    }
  }

  lemma SameHeaders<H>(s: Sys<H>, r: Sys<H>, h: H)
    requires r.core.headers == s.core.headers
    ensures NotServed(s, r, h)
  {
  }

  /** A task comes to run when its body begins, and to be finished when that body ends cleanly. */
  lemma ServedStep<H>(s: Sys<H>, a: Action<H>, h: H)
    requires Inv(s) && Enabled(s, a) && Ran(s, h)
    ensures Ran(Apply(s, a), h)
    ensures Finished(Apply(s, a), h) <==> Finished(s, h) || EndsCleanly(s, a, h)
  {
    hide Inv, Apply, Enabled, EndsCleanly;
    StepGrows(s, a);
    if h in s.core.headers && s.core.headers[h].state >= 2 {
      StepKeepsTerminal(s, a, h);
    }
    if a.Begin? || a.Finish? || a.End? {
      ActsOnTop(s, a);
      StackStep(s, a, h);
    } else {
      OnlyStacksServe(s, a, h);
      NoEnd(s, a, h);
    }
  }

  lemma ActsOnTop<H>(s: Sys<H>, a: Action<H>)
    requires Inv(s) && Enabled(s, a) && (a.Begin? || a.Finish? || a.End?)
    ensures Present(s, a.t) && s.threads[a.t].stack != [] && s.threads[a.t].Top().task in s.core.headers
    ensures PhaseFits(s.threads[a.t].Top().phase, s.core.headers[s.threads[a.t].Top().task].state)
  {
    hide Inv;
    TopTask(s, a.t);
  }

  lemma StackStep<H>(s: Sys<H>, a: Action<H>, h: H)
    requires Enabled(s, a) && Ran(s, h) && (a.Begin? || a.Finish? || a.End?)
    requires Present(s, a.t) && s.threads[a.t].stack != [] && s.threads[a.t].Top().task in s.core.headers
    requires PhaseFits(s.threads[a.t].Top().phase, s.core.headers[s.threads[a.t].Top().task].state)
    ensures Ran(Apply(s, a), h)
    ensures Finished(Apply(s, a), h) <==> Finished(s, h) || EndsCleanly(s, a, h)
  {
    var t, top := a.t, s.threads[a.t].Top().task;
    hide EndsCleanly, Enabled;
    if a.Begin? {
      NoEnd(s, a, h);
      BeginStep(s, t, h);
    } else {
      EndStep(s, a, t, h);
      OneEnd(s, a, t, h);
    }
  }

  lemma BeginStep<H>(s: Sys<H>, t: nat, h: H)
    requires Enabled(s, Begin(t)) && Ran(s, h)
    requires s.core.headers[s.threads[t].Top().task].state == 0
    ensures Ran(BeginTask(s, t), h) && (Finished(BeginTask(s, t), h) <==> Finished(s, h))
  {
  }

  /** Ending the task on top changes that task alone, and settles it only once. */
  lemma EndStep<H>(s: Sys<H>, a: Action<H>, t: nat, h: H)
    requires Enabled(s, a) && (a == Finish(t) || a == End(t)) && Ran(s, h)
    requires s.core.headers[s.threads[t].Top().task].state >= 1
    requires a == Finish(t) ==> s.core.headers[s.threads[t].Top().task].state == 1
    ensures Ran(Apply(s, a), h)
    ensures
      Finished(Apply(s, a), h) <==>
      (Finished(s, h) || (h == s.threads[t].Top().task && s.core.headers[h] == Header(1, false) && Working(s.core.mode)))
  {
  }

  lemma OneEnd<H>(s: Sys<H>, a: Action<H>, t: nat, h: H)
    requires Enabled(s, a) && (a == Finish(t) || a == End(t)) && Ran(s, h)
    ensures EndsCleanly(s, a, h) <==>
      h == s.threads[t].Top().task && s.core.headers[h] == Header(1, false) && Working(s.core.mode)
  {
    if h == s.threads[t].Top().task && s.core.headers[h] == Header(1, false) {
      assert Ends(s, a, t, h);
    }
  }

  lemma NoEnd<H>(s: Sys<H>, a: Action<H>, h: H)
    requires !a.Finish? && !a.End?
    ensures !EndsCleanly(s, a, h)
  {
  }

  /** Somewhere along the run h ends cleanly. */
  ghost predicate EndsCleanlyIn<H>(s: Sys<H>, run: seq<Action<H>>, h: H)
    requires Legal(s, run)
    decreases |run|
  {
    run != [] && (EndsCleanly(s, run[0], h) || EndsCleanlyIn(Apply(s, run[0]), run[1..], h))
  }

  lemma {:induction false} FinishedAlong<H>(s: Sys<H>, run: seq<Action<H>>, h: H)
    requires Inv(s) && Legal(s, run) && Ran(s, h)
    ensures Ran(Exec(s, run), h)
    ensures Finished(Exec(s, run), h) <==> Finished(s, h) || EndsCleanlyIn(s, run, h)
    decreases |run|
  {
    if run != [] {
      hide Inv, Apply, Enabled, EndsCleanly, Ran, Finished;
      ServedStep(s, run[0], h);
      StepKeeps(s, run[0]);
      FinishedAlong(Apply(s, run[0]), run[1..], h);
    }
  }

  /**
   After any run a task is finished if and only if at some point of the run its thread ended
   it with its body begun, no cancel requested of it, and the runtime RUNNING or DRAINING.
   */
  lemma FinishedIff<H(!new)>(s: Sys<H>, run: seq<Action<H>>, h: H)
    requires Initial(s) && Legal(s, run)
    ensures Finished(Exec(s, run), h) <==> EndsCleanlyIn(s, run, h)
    ensures Finished(Exec(s, run), h) ==> h in Exec(s, run).bodies
  {
    InitialInv(s);
    hide Inv, Legal, Exec, EndsCleanlyIn;
    FinishedAlong(s, run, h);
  }

  // ---- Nothing is cancelled without a cause ----

  /** h was asked nothing, and is cancelled only because its start was refused. */
  predicate QuietTask<H(==)>(s: Sys<H>, h: H) {
    h in s.core.headers ==> !s.core.headers[h].cancelRequested && (s.core.headers[h].state <= 2 || Refused(s, h))
  }

  ghost predicate Quiet<H(!new)>(s: Sys<H>) {
    s.core.mode == Running && s.shut == NoShutdown && forall h :: QuietTask(s, h)
  }

  lemma QuietOthers<H(!new)>(s: Sys<H>, a: Action<H>, h: H)
    requires Enabled(s, a) && Quiet(s) && QuietTask(s, h)
    ensures match a
      case Initialise(workers, capacity) => QuietTask(InitialiseExecutor(s, workers, capacity), h)
      case StartCall(t, c) => QuietTask(BeginStart(s, t, c), h)
      case WaitCall(t, c) => QuietTask(SetCall(s, t, Waiting(c, false)), h)
      case WorkerLoop(t) => QuietTask(RunWorkerLoop(s, t), h)
      case _ => true
  {
  }

  lemma QuietEnqueue<H(!new)>(s: Sys<H>, t: nat, h: H)
    requires Inv(s) && Enabled(s, EnqueueTry(t)) && Quiet(s) && QuietTask(s, h)
    ensures QuietTask(TryEnqueue(s, t), h)
  {
    hide Inv;
    StartingTask(s, t);
  }

  lemma QuietStack<H(!new)>(s: Sys<H>, a: Action<H>, h: H)
    requires Inv(s) && Enabled(s, a) && Quiet(s) && QuietTask(s, h) && (a.Begin? || a.Finish? || a.End?)
    ensures QuietTask(Apply(s, a), h)
  {
    hide Inv;
    TopTask(s, a.t);
    assert QuietTask(s, s.threads[a.t].Top().task);
  }

  lemma QuietTaskStep<H(!new)>(s: Sys<H>, a: Action<H>, h: H)
    requires Inv(s) && Enabled(s, a) && Quiet(s) && !a.Cancel? && !a.ShutdownCall?
    ensures QuietTask(Apply(s, a), h)
  {
    hide Inv, InitialiseExecutor, BeginStart, TryEnqueue, SetCall, TryWait, RunWorkerLoop, BeginTask, FinishTask, EndTask;
    assert QuietTask(s, h);
    match a {
      case EnqueueTry(t) => QuietEnqueue(s, t, h);
      case WaitTry(t) => QuietWait(s, t);
      case Begin(t) => QuietStack(s, a, h);
      case Finish(t) => QuietStack(s, a, h);
      case End(t) => QuietStack(s, a, h);
      case _ => QuietOthers(s, a, h);
    }
  }

  lemma QuietModes<H(!new)>(s: Sys<H>, a: Action<H>)
    requires Enabled(s, a) && Quiet(s) && !a.Cancel? && !a.ShutdownCall?
    ensures Apply(s, a).core.mode == Running && Apply(s, a).shut == NoShutdown
  {
    hide TryWait;
    if a.WaitTry? {
      QuietWait(s, a.t);
    }
  }

  lemma QuietStep<H(!new)>(s: Sys<H>, a: Action<H>)
    requires Inv(s) && Enabled(s, a) && Quiet(s) && !a.Cancel? && !a.ShutdownCall?
    ensures Quiet(Apply(s, a))
  {
    hide Inv, Enabled, Apply, QuietTask;
    QuietModes(s, a);
    forall h
      ensures QuietTask(Apply(s, a), h)
    {
      QuietTaskStep(s, a, h);
    }
  }

  lemma QuietWait<H(!new)>(s: Sys<H>, t: nat)
    requires Quiet(s) && Enabled(s, WaitTry(t))
    ensures var r := TryWait(s, t);
      && r.core.headers == s.core.headers && r.core.mode == s.core.mode && r.shut == s.shut
      && r.admitted == s.admitted && r.sites == s.sites
  {
    if s.threads[t].stack != [] {
      assert QuietTask(s, s.threads[t].Top().task);
    }
    assert !Propagates(s, t, s.threads[t].Now().task);
    hide CancelAny;
  }

  lemma {:induction false} QuietAlong<H(!new)>(s: Sys<H>, run: seq<Action<H>>)
    requires Inv(s) && Legal(s, run) && Quiet(s)
    requires forall a :: a in run ==> !a.Cancel? && !a.ShutdownCall?
    ensures Quiet(Exec(s, run))
    decreases |run|
  {
    if run != [] {
      hide Inv, Apply, Enabled, Quiet;
      assert run[0] in run;
      assert forall a :: a in run[1..] ==> a in run;
      QuietStep(s, run[0]);
      StepKeeps(s, run[0]);
      QuietAlong(Apply(s, run[0]), run[1..]);
    }
  }

  /**
   Over every run without a cancel and without a shutdown call, every task that is over has
   run its body and is finished, unless its start was refused.
   */
  lemma QuietRunsFinish<H(!new)>(s: Sys<H>, run: seq<Action<H>>, h: H)
    requires Initial(s) && Legal(s, run) && forall a :: a in run ==> !a.Cancel? && !a.ShutdownCall?
    ensures var r := Exec(s, run);
      h in r.core.headers && r.core.headers[h].state >= 2 && !Refused(r, h) ==> Finished(r, h) && h in r.bodies
  {
    InitialInv(s);
    assert Quiet(s);
    FinishedIff(s, run, h);
    QuietAlong(s, run);
    assert QuietTask(Exec(s, run), h);
    hide Inv, Legal, Exec;
  }
}
