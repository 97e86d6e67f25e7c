/**
 What each section leaves behind, case by case: the shared fields, the calling thread and who is
 awake (bin/runtime/async_runtime.c:1534-1590, 1733-1780, 1866-1926, 2093-2143). The cases are
 those of the contracts in `Executor`.
 */
module ExecutorSections {
  import Lists
  import opened ExecutorSpec
  import opened ExecutorMachine
  import opened ExecutorSafety

  /** Storing a state counts down exactly on the way from below 2 to 2 or more, and never below 0. */
  lemma SetStateCases<H>(c: Core<H>, h: H, state: int)
    requires h in c.headers
    ensures var d, counts := SetState(c, h, state), c.headers[h].state < 2 && state >= 2 && c.outstanding >= 1;
      && d == c.(headers := c.headers[h := Header(state, c.headers[h].cancelRequested)],
                 outstanding := if counts then c.outstanding - 1 else c.outstanding,
                 settled := if counts then c.settled + [h] else c.settled)
  {
  }

  /** Starting up and shutting down leave an empty queue, a zero counter and the headers as they are. */
  lemma LifecycleCases<H>(c: Core<H>, workers: nat, capacity: nat)
    ensures InitialiseCore(c, workers, capacity) == Core(Running, true, capacity, [], 0, workers, c.headers, c.settled)
    ensures FinalCore(c) == Core(Stopped, false, 0, [], 0, 0, c.headers, c.settled)
  {
  }

  /** Thread t has claimed task h on top of what it held, and everyone is awake. */
  ghost predicate Claims<H>(s: Sys<H>, r: Sys<H>, t: nat, h: H) {
    && t in s.threads && t in r.threads && r.asleep == {} && !r.shutAsleep
    && r.threads[t].stack == s.threads[t].stack + [Frame(h, Claimed)]
    && r.claimed == s.claimed + [h]
  }

  /** Thread t makes this call now. */
  predicate Calls<H(==)>(r: Sys<H>, t: nat, c: Call<H>) {
    Present(r, t) && r.threads[t].Now() == c
  }

  /**
   Enqueue refuses before its first wait unless the runtime is up and RUNNING, and after a wait only
   when still full and no longer RUNNING; a full queue makes a pool worker run the oldest task and
   any other thread sleep; with room the task is admitted while RUNNING.
   */
  lemma EnqueueCases<H>(s: Sys<H>, t: nat)
    requires Enabled(s, EnqueueTry(t))
    ensures var c, r, h, inLoop := s.core, Apply(s, EnqueueTry(t)), s.threads[t].Now().task, s.threads[t].Now().inLoop;
      var full := |c.queue| >= c.capacity;
      if (!inLoop && (!c.initialized || c.capacity == 0 || c.mode != Running)) || (inLoop && full && c.mode != Running) then
        && r.core == c.(headers := c.headers[h := Header(3, c.headers[h].cancelRequested)])
        && Calls(r, t, NoCall) && r.admitted == s.admitted
      else if full && s.threads[t].worker && c.queue != [] then
        && r.core == c.(queue := c.queue[1..]) && Claims(s, r, t, c.queue[0])
        && r.threads[t].calls == s.threads[t].calls[|s.threads[t].stack| := Starting(h, false)] + [NoCall]
      else if full then
        r.core == c && Calls(r, t, Starting(h, true)) && r.asleep == s.asleep + {t}
      else if c.mode == Running then
        && r.core == c.(queue := c.queue + [h], outstanding := c.outstanding + 1)
        && Calls(r, t, NoCall) && r.admitted == s.admitted + [h] && r.asleep == {} && !r.shutAsleep
      else
        r.core == c && Calls(r, t, Starting(h, false)) && r.asleep == s.asleep
  {
  }

  /** A cancel requests, and takes a waiting task out of the queue; it wakes everyone and touches no other task. */
  lemma CancelCases<H>(s: Sys<H>, h: H, other: H)
    requires Inv(s) && h in s.core.headers
    ensures var c, r := s.core, Apply(s, Cancel(h));
      var taken := c.initialized && c.headers[h].state == 0 && h in c.queue;
      && h in r.core.headers && r.core.headers[h] == Header(if taken then 3 else c.headers[h].state, true)
      && (other != h ==> (other in r.core.headers <==> other in c.headers)
                         && (other in c.headers ==> r.core.headers[other] == c.headers[other]))
      && (!taken ==> r.core.queue == c.queue && r.cancelled == s.cancelled && r.core.outstanding == c.outstanding)
      && (taken ==> |r.core.queue| == |c.queue| - 1 && h !in r.core.queue && r.cancelled == s.cancelled + {h}
                    && r.core.outstanding == (if c.outstanding > 0 then c.outstanding - 1 else c.outstanding))
      && (other != h ==> (other in r.core.queue <==> other in c.queue))
      && r.asleep == {} && !r.shutAsleep && r.core.mode == c.mode && r.bodies == s.bodies
  {
    QueueFacts(s);
    Lists.RemoveFirstFacts(s.core.queue, h);
    hide Inv, Lists.RemoveFirst;
  }

  /**
   Wait ends for a task that is over and in a runtime that is stopping; otherwise it passes on a
   cancel of its own task, then helps if it is a pool worker inside a task while RUNNING and
   something is queued, and else sleeps.
   */
  lemma WaitCases<H>(s: Sys<H>, t: nat)
    requires Enabled(s, WaitTry(t))
    ensures var c, r, th, h := s.core, Apply(s, WaitTry(t)), s.threads[t], s.threads[t].Now().task;
      var passesOn := th.stack != [] && th.Top().task != h && th.Top().task in c.headers
                      && c.headers[th.Top().task].cancelRequested && !c.headers[h].cancelRequested;
      var c1 := if passesOn then CancelLocked(c, h) else c;
      if c.headers[h].state >= 2 || c.mode == Stopping || c.mode == Stopped then
        r.core == c && Calls(r, t, NoCall) && r.asleep == s.asleep
      else if c.mode == Running && th.worker && th.stack != [] && th.Top().task != h && c1.queue != [] then
        && r.core == c1.(queue := c1.queue[1..]) && Claims(s, r, t, c1.queue[0])
        && r.threads[t].calls == s.threads[t].calls[|s.threads[t].stack| := Waiting(h, false)] + [NoCall]
      else
        && r.core == c1 && Present(r, t) && r.threads[t].Now().Waiting? && r.threads[t].Now().task == h
        && r.asleep == (if passesOn then {} else s.asleep) + {t}
  {
    hide CancelLocked, CancelRemoves;
  }

  /** A worker takes the oldest task, leaves a runtime that is down or stopping, or sleeps. */
  lemma WorkerCases<H>(s: Sys<H>, t: nat)
    requires Enabled(s, WorkerLoop(t))
    ensures var c, r := s.core, Apply(s, WorkerLoop(t));
      if c.queue != [] then
        r.core == c.(queue := c.queue[1..]) && Claims(s, r, t, c.queue[0])
      else if !c.initialized || c.mode == Stopping || c.mode == Stopped then
        && r.core == c.(live := if c.live > 0 then c.live - 1 else c.live)
        && t in r.threads && r.threads[t] == s.threads[t].(exited := true) && r.asleep == {} && !r.shutAsleep
      else r.core == c && r.threads == s.threads && r.asleep == s.asleep + {t}
  {
  }

  /** A body begins exactly on a task that is not over, with no cancel requested, in a runtime that is not stopping. */
  lemma BeginCases<H>(s: Sys<H>, t: nat, h: H, was: Header, runs: bool)
    requires Enabled(s, Begin(t)) && h == s.threads[t].Top().task && was == s.core.headers[h]
    requires runs <==> was.state < 2 && !was.cancelRequested && (s.core.mode == Running || s.core.mode == Draining)
    ensures var c, r := s.core, BeginTask(s, t);
      && r == Apply(s, Begin(t)) && r.bodies == (if runs then s.bodies + [h] else s.bodies)
      && r.core == c.(headers := c.headers[h := was.(state := if runs then 1 else if was.state < 2 then 3 else was.state)],
                      outstanding := r.core.outstanding, settled := r.core.settled)
      && t in r.threads && r.threads[t].Shaped() && r.threads[t].stack != []
      && r.threads[t].Top() == Frame(h, if runs then InBody else Skipped)
      && r.asleep == s.asleep
  {
  }

  /** The last section of a task takes it off its thread's stack and wakes everyone. */
  lemma EndCases<H>(s: Sys<H>, t: nat)
    requires Enabled(s, End(t))
    ensures var r, n := Apply(s, End(t)), |s.threads[t].stack| - 1;
      && t in r.threads && r.threads[t].stack == s.threads[t].stack[..n] && r.threads[t].calls == s.threads[t].calls[..n + 1]
      && r.asleep == {} && !r.shutAsleep && r.core.queue == s.core.queue && r.core.mode == s.core.mode && r.bodies == s.bodies
  {
  }

  /** The core with everything queued cancelled and the mode STOPPING. */
  ghost predicate StoppedFrom<H>(c: Core<H>, d: Core<H>) {
    && d == c.(mode := Stopping, queue := [], outstanding := c.outstanding - |c.queue|,
               headers := d.headers, settled := c.settled + c.queue)
    && d.headers.Keys == c.headers.Keys
    && (forall h :: h in c.queue ==> h in d.headers && d.headers[h] == Header(3, true))
    && (forall h :: h in c.headers && h !in c.queue ==> d.headers[h] == c.headers[h])
  }

  lemma StopCases<H>(s: Sys<H>)
    requires Inv(s)
    ensures QueueKnown(s.core) && StoppedFrom(s.core, StopAndAbort(s).core)
    ensures StopAndAbort(s).asleep == {} && !StopAndAbort(s).shutAsleep
  {
    QueueFacts(s);
    hide Inv, AbortQueued;
    AbortQueuedFacts(s.core.(mode := Stopping));
  }

  /** Shutdown marks a runtime that never started as STOPPED, drains a RUNNING one unless told to abort, and else stops. */
  lemma ShutdownCallCases<H>(s: Sys<H>, abort: bool)
    requires Inv(s) && Enabled(s, ShutdownCall(abort))
    ensures var c, r := s.core, Apply(s, ShutdownCall(abort));
      if c.mode == Stopped then r == s
      else if !c.initialized then r.core == c.(mode := Stopped) && r.shut == s.shut
      else if !abort && c.mode == Running then r.core == c.(mode := Draining) && r.shut == ShutLoop && r.asleep == {}
      else StoppedFrom(c, r.core) && r.shut == ShutLoop && r.asleep == {}
  {
    StopCases(s);
    hide Inv, StopAndAbort, StoppedFrom;
    StopShape(s);
  }

  lemma StopShape<H>(s: Sys<H>)
    requires QueueKnown(s.core)
    ensures var r := StopAndAbort(s); r == s.(core := r.core, aborted := r.aborted, asleep := {}, shutAsleep := false)
  {
    hide StopCore;
  }

  /**
   The shutdown loop turns a finished drain into a stop, joins once the workers of a stop are gone,
   and at its deadline stops a drain or gives up; otherwise it sleeps.
   */
  lemma ShutdownLoopCases<H>(s: Sys<H>, timedOut: bool)
    requires Inv(s) && Enabled(s, ShutdownIter(timedOut))
    ensures var c, r := s.core, Apply(s, ShutdownIter(timedOut));
      var drained := c.mode == Draining && c.outstanding <= 0 && c.queue == [];
      var joins := (drained || c.mode == Stopping) && c.live <= 0;
      && (if drained || (timedOut && !joins && c.mode == Draining) then StoppedFrom(c, r.core) else r.core == c)
      && (if joins then r.shut == ShutJoin
          else if !timedOut then r.shut == ShutLoop && r.shutAsleep
          else if drained || c.mode != Draining then r.shut == NoShutdown
          else r.shut == ShutLoop && !r.shutAsleep)
  {
    StopCases(s);
    hide Inv, StopAndAbort;
    StopShape(s);
  }
}
