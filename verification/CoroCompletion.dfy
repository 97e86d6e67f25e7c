/**
 When a coroutine is done, what that excludes, and whom wake-ups and events reach
 (bin/runtime/async_runtime.c:895-986, 1042-1093).
 */
module CoroCompletion {
  import opened Lists
  import opened CoroSpec
  import opened CoroRuns

  /** Some step of h among ops reported completion, and h was not created again behind it. */
  predicate CompletesLast(ops: seq<Op>, h: Handle) {
    ops != [] && ((ops[0] == StepEnds(h, true) && New(h) !in ops[1..]) || CompletesLast(ops[1..], h))
  }

  lemma {:induction false} AbsentStays(w: World, ops: seq<Op>, h: Handle)
    requires Legal(w, ops) && h !in w.s.tasks && New(h) !in ops
    ensures h !in Exec(w, ops).s.tasks
    decreases |ops|
  {
    if ops != [] {
      assert ops[0] in ops;
      AbsentStep(w, ops[0], h);
      assert forall op :: op in ops[1..] ==> op in ops;
      AbsentStays(Step(w, ops[0]), ops[1..], h);
    }
  }

  lemma AbsentStep(w: World, op: Op, h: Handle)
    requires Enabled(w, op) && h !in w.s.tasks && op != New(h)
    ensures h !in Step(w, op).s.tasks
  {
  }

  predicate Done(s: Sched, h: Handle) {
    h in s.tasks && s.tasks[h].done
  }

  /** Creation makes a task unfinished, a step that reports completion makes it done, nothing else does either. */
  lemma DoneStep(w: World, op: Op, h: Handle)
    requires Enabled(w, op) && h in Step(w, op).s.tasks
    ensures Done(Step(w, op).s, h) <==> op != New(h) && (Done(w.s, h) || op == StepEnds(h, true))
  {
  }

  lemma {:induction false} DoneAlong(w: World, ops: seq<Op>, h: Handle)
    requires Legal(w, ops) && h in Exec(w, ops).s.tasks
    ensures Done(Exec(w, ops).s, h) <==> CompletesLast(ops, h) || (Done(w.s, h) && New(h) !in ops)
    decreases |ops|
  {
    if ops != [] {
      hide Step, Enabled, Done;
      var w1, rest := Step(w, ops[0]), ops[1..];
      assert forall op :: op in ops <==> op == ops[0] || op in rest;
      DoneAlong(w1, rest, h);
      if h in w1.s.tasks {
        DoneStep(w, ops[0], h);
      } else if New(h) !in rest {
        AbsentStays(w1, rest, h);
        assert false;
      }
      NotDoneUnlessThere(w1.s, h);
    }
  }

  lemma NotDoneUnlessThere(s: Sched, h: Handle)
    ensures h !in s.tasks ==> !Done(s, h)
  {
  }

  /** After any run a live task is done if and only if a step of it reported completion since it was last created. */
  lemma DoneIff(ops: seq<Op>, h: Handle)
    requires Legal(START, ops) && h in Exec(START, ops).s.tasks
    ensures Exec(START, ops).s.tasks[h].done <==> CompletesLast(ops, h)
  {
    DoneAlong(START, ops, h);
    hide Exec, Legal, CompletesLast;
  }

  // ---- What done excludes ----

  /** Waking, binding or sending an event to a done task changes nothing in the scheduler. */
  lemma DoneIsInert(w: World, h: Handle, token: int, kind: int, result: int)
    requires Done(w.s, h)
    ensures Step(w, Wake(h, token, kind, result)).s == w.s
    ensures Step(w, Bind(h, token)).s == w.s
    ensures Resolve(w.s, token) == h ==> Step(w, Op.Event(token, kind, result)).s == w.s
  {
  }

  predicate AtRest(s: Sched, h: Handle) {
    Done(s, h) && h !in s.ready
  }

  lemma AtRestStep(w: World, op: Op, h: Handle)
    requires Inv(w) && Enabled(w, op) && op != Kill(h)
    ensures Done(w.s, h) ==> Done(Step(w, op).s, h)
    ensures AtRest(w.s, h) ==> AtRest(Step(w, op).s, h)
  {
    if op.Kill? {
      RemoveFirstFacts(w.s.ready, op.h);
    }
  }

  /** A done task stays done until it is destroyed, and once out of the queue it is never stepped again. */
  lemma {:induction false} DoneForGood(w: World, ops: seq<Op>, h: Handle)
    requires Inv(w) && Legal(w, ops) && Kill(h) !in ops
    ensures Done(w.s, h) ==> Done(Exec(w, ops).s, h)
    ensures AtRest(w.s, h) ==> AtRest(Exec(w, ops).s, h)
    decreases |ops|
  {
    if ops != [] {
      hide Inv, Step, Enabled, Done, AtRest;
      assert ops[0] in ops;
      assert forall op :: op in ops[1..] ==> op in ops;
      StepKeeps(w, ops[0]);
      AtRestStep(w, ops[0], h);
      DoneForGood(Step(w, ops[0]), ops[1..], h);
    }
  }

  // ---- Whom wake-ups and events reach ----

  /** A wake-up queues an unfinished task with its data; every other task is left alone. */
  lemma WakeReaches(s: Sched, h: Handle, token: int, kind: int, result: int)
    requires WellFormed(s)
    ensures var r := Schedule(s, h, token, kind, result);
      && (h in s.tasks && !s.tasks[h].done ==>
            h in r.ready && h in r.tasks && r.tasks[h] == Info(false, true, token, kind, result))
      && (forall g :: g in s.tasks && g != h ==>
            g in r.tasks && r.tasks[g] == s.tasks[g] && (g in r.ready <==> g in s.ready))
      && r.tasks.Keys == s.tasks.Keys && r.bound == s.bound && s.ready <= r.ready
  {
    var r := Schedule(s, h, token, kind, result);
    if h in s.tasks && !s.tasks[h].done && !s.tasks[h].queued {
      assert r.ready[|s.ready|] == h;
    }
  }

  /** A bound token names the task it was last bound to; a token bound to nothing names the handle it equals. */
  lemma BindingNames(s: Sched, h: Handle, token: int, t: int)
    ensures var r := BindToken(s, h, token);
      && r.tasks == s.tasks && r.ready == s.ready
      && Resolve(r, t) == if t == token && t != 0 && h in s.tasks && !s.tasks[h].done then h else Resolve(s, t)
    ensures t !in s.bound ==> Resolve(s, t) == t
  {
  }

  /** Destroying a task takes its bindings and its place in the queue, and nothing of any other task. */
  lemma KillTakesOne(s: Sched, h: Handle, g: Handle, t: int)
    requires WellFormed(s) && h in s.tasks && g != h
    ensures var r := Destroy(s, h);
      && h !in r.tasks && h !in r.ready
      && (g in r.tasks <==> g in s.tasks) && (g in s.tasks ==> r.tasks[g] == s.tasks[g])
      && (g in r.ready <==> g in s.ready)
      && (t in r.bound <==> t in s.bound && s.bound[t] != h) && (t in r.bound ==> r.bound[t] == s.bound[t])
  {
    RemoveFirstFacts(s.ready, h);
  }

  /** A new task is neither done nor ready and has no wake data yet. */
  lemma NewIsIdle(s: Sched, h: Handle, g: Handle)
    requires WellFormed(s) && h !in s.tasks
    ensures var r := Create(s, h);
      && h in r.tasks && r.tasks[h] == Info(false, false, 0, 0, 0) && h !in r.ready
      && r.ready == s.ready && r.bound == s.bound
      && (g != h ==> (g in r.tasks <==> g in s.tasks) && (g in s.tasks ==> r.tasks[g] == s.tasks[g]))
  {
  }

  /**
   With nothing ready, an event for an unfinished task makes it the one that is stepped next;
   any other event, or none, leaves nothing to step. With something ready no event is taken.
   */
  lemma EventIsNext(s: Sched, token: int, kind: int, result: int)
    requires WellFormed(s)
    ensures s.ready != [] ==> AfterEvent(s, Event.Event(token, kind, result)) == s
    ensures AfterEvent(s, Idle) == s
    ensures s.ready == [] ==>
      var h, r := Resolve(s, token), AfterEvent(s, Event.Event(token, kind, result));
      if token != 0 && h in s.tasks && !s.tasks[h].done then
        r.ready == [h] && h in r.tasks && r.tasks[h] == Info(false, true, token, kind, result)
      else r == s
  {
    if s.ready == [] {
      var h := Resolve(s, token);
      assert h in s.tasks && s.tasks[h].queued ==> h in s.ready;
    }
  }

  lemma HeadIsTask(s: Sched)
    requires WellFormed(s) && s.ready != []
    ensures s.ready[0] in s.tasks
  {
    var h := s.ready[0];
    assert h in s.ready;
  }

  /** Popping hands out the wake data as it is and takes the head of the queue alone. */
  lemma PopTakesHead(s: Sched)
    requires WellFormed(s) && s.ready != []
    ensures s.ready[0] in s.tasks
    ensures var h, r := s.ready[0], PopReady(s);
      && r.ready == s.ready[1..] && r.bound == s.bound && r.tasks.Keys == s.tasks.Keys
      && r.tasks[h] == s.tasks[h].(queued := false)
      && (forall g :: g in s.tasks && g != h ==> r.tasks[g] == s.tasks[g])
  {
    HeadIsTask(s);
  }
}
