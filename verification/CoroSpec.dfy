/**
 The coroutine scheduler as a value: the live tasks, the FIFO of ready ones and the
 token-to-task map (bin/runtime/async_runtime.c:875-1093).
 */
module CoroSpec {
  import opened Lists

  /** A task's address; 0 is no task. */
  type Handle = int

  datatype Info = Info(done: bool, queued: bool, wakeToken: int, wakeKind: int, wakeResult: int)

  datatype Sched = Sched(tasks: map<Handle, Info>, ready: seq<Handle>, bound: map<int, Handle>)

  function Create(s: Sched, h: Handle): Sched {
    s.(tasks := s.tasks[h := Info(false, false, 0, 0, 0)])
  }

  function Destroy(s: Sched, h: Handle): Sched {
    if h !in s.tasks then s
    else Sched(s.tasks - {h}, RemoveFirst(s.ready, h), map t | t in s.bound && s.bound[t] != h :: s.bound[t])
  }

  predicate Schedulable(s: Sched, h: Handle) {
    h in s.tasks && !s.tasks[h].done
  }

  /** The wake data is always replaced; the task joins the queue once. */
  function Schedule(s: Sched, h: Handle, token: int, kind: int, result: int): Sched {
    if !Schedulable(s, h) then s
    else s.(tasks := s.tasks[h := Info(false, true, token, kind, result)],
            ready := if s.tasks[h].queued then s.ready else s.ready + [h])
  }

  function BindToken(s: Sched, h: Handle, token: int): Sched {
    if token == 0 || !Schedulable(s, h) then s else s.(bound := s.bound[token := h])
  }

  function PopReady(s: Sched): Sched
    requires s.ready != [] && s.ready[0] in s.tasks
  {
    var h := s.ready[0];
    s.(ready := s.ready[1..], tasks := s.tasks[h := s.tasks[h].(queued := false)])
  }

  /** A bound token names its task; any other token is taken for a handle. */
  function Resolve(s: Sched, token: int): Handle {
    if token in s.bound then s.bound[token] else token
  }

  datatype Event = Idle | Event(token: int, kind: int, result: int)

  /** run_one up to the step: pop a ready task, or else take one event and try again. */
  function AfterEvent(s: Sched, event: Event): Sched {
    if s.ready != [] || event.Idle? || event.token == 0 then s
    else Schedule(s, Resolve(s, event.token), event.token, event.kind, event.result)
  }

  /** After a step that reported completion, if the task still exists. */
  function Complete(s: Sched, h: Handle): Sched {
    if h in s.tasks then s.(tasks := s.tasks[h := s.tasks[h].(done := true)]) else s
  }

  ghost predicate WellFormed(s: Sched) {
    && NoDup(s.ready)
    && (forall h :: h in s.ready ==> h in s.tasks && s.tasks[h].queued)
    && (forall h :: h in s.tasks && s.tasks[h].queued ==> h in s.ready)
    && (forall t :: t in s.bound ==> t != 0 && s.bound[t] in s.tasks)
    && 0 !in s.tasks
  }
}

/** Whole runs of the scheduler. */
module CoroRuns {
  import opened Lists
  import opened CoroSpec

  /** A pop opens a step of the popped task; the step may do anything and then reports its result. */
  datatype Op =
    | New(h: Handle)
    | Kill(h: Handle)
    | Wake(h: Handle, token: int, kind: int, result: int)
    | Bind(h: Handle, token: int)
    | Event(token: int, kind: int, result: int)
    | Pop
    | StepEnds(h: Handle, complete: bool)

  /**
   History: the time each ready task joined the queue, and the tasks whose completing step
   ended while they were queued again.
   */
  datatype World = World(s: Sched, clock: nat, since: map<Handle, nat>, relapsed: set<Handle>)

  predicate Enabled(w: World, op: Op) {
    match op
    case New(h) => h != 0 && h !in w.s.tasks
    case Pop => w.s.ready != [] && w.s.ready[0] in w.s.tasks
    case _ => true
  }

  function Woken(w: World, h: Handle, token: int, kind: int, result: int): World {
    World(Schedule(w.s, h, token, kind, result), w.clock + 1,
          if Schedulable(w.s, h) && !w.s.tasks[h].queued then w.since[h := w.clock] else w.since, w.relapsed)
  }

  function Step(w: World, op: Op): World
    requires Enabled(w, op)
  {
    match op
    case New(h) => w.(s := Create(w.s, h))
    case Kill(h) => w.(s := Destroy(w.s, h), relapsed := w.relapsed - {h})
    case Wake(h, token, kind, result) => Woken(w, h, token, kind, result)
    case Bind(h, token) => w.(s := BindToken(w.s, h, token))
    case Event(token, kind, result) => if token == 0 then w else Woken(w, Resolve(w.s, token), token, kind, result)
    case Pop => w.(s := PopReady(w.s), relapsed := w.relapsed - {w.s.ready[0]})
    case StepEnds(h, complete) =>
      if complete then
        w.(s := Complete(w.s, h),
           relapsed := if h in w.s.tasks && w.s.tasks[h].queued then w.relapsed + {h} else w.relapsed)
      else w
  }

  const START := World(Sched(map[], [], map[]), 0, map[], {})

  predicate Earlier(since: map<Handle, nat>, a: Handle, b: Handle) {
    a in since && b in since && since[a] < since[b]
  }

  /** Joined the queue in this order. */
  ghost predicate Ordered(q: seq<Handle>, since: map<Handle, nat>) {
    forall i, j :: 0 <= i < j < |q| ==> Earlier(since, q[i], q[j])
  }

  ghost predicate Inv(w: World) {
    && WellFormed(w.s)
    && (forall h :: h in w.s.ready ==> h in w.since && w.since[h] < w.clock)
    && Ordered(w.s.ready, w.since)
    && (forall h :: h in w.s.tasks ==> ((w.s.tasks[h].done && w.s.tasks[h].queued) <==> h in w.relapsed))
    && (forall h :: h in w.relapsed ==> h in w.s.tasks)
  }

  lemma WokenKeeps(w: World, h: Handle, token: int, kind: int, result: int)
    requires Inv(w)
    ensures Inv(Woken(w, h, token, kind, result))
  {
    var r := Woken(w, h, token, kind, result);
    if Schedulable(w.s, h) && !w.s.tasks[h].queued {
      assert forall x :: x in r.s.ready ==> x in w.s.ready || x == h;
      assert forall x :: x in w.s.ready ==> x != h && x in r.s.ready;
      assert r.s.ready[|w.s.ready|] == h;
    }
  }

  lemma DropKeepsOrder(q: seq<Handle>, k: nat, since: map<Handle, nat>)
    requires Ordered(q, since) && k < |q|
    ensures Ordered(q[..k] + q[k + 1..], since)
  {
    var r := q[..k] + q[k + 1..];
    forall i, j | 0 <= i < j < |r|
      ensures Earlier(since, r[i], r[j])
    {
      var i', j' := if i < k then i else i + 1, if j < k then j else j + 1;
      assert r[i] == q[i'];
      assert r[j] == q[j'];
    }
  }

  lemma RemoveKeepsOrder(q: seq<Handle>, h: Handle, since: map<Handle, nat>)
    requires NoDup(q) && Ordered(q, since)
    ensures Ordered(RemoveFirst(q, h), since)
  {
    hide RemoveFirst, Ordered;
    if h in q {
      var k :| 0 <= k < |q| && q[k] == h;
      RemoveAt(q, k);
      DropKeepsOrder(q, k, since);
    } else {
      RemoveAbsent(q, h);
    }
  }

  lemma KillKeeps(w: World, h: Handle)
    requires Inv(w)
    ensures Inv(w.(s := Destroy(w.s, h), relapsed := w.relapsed - {h}))
  {
    RemoveFirstFacts(w.s.ready, h);
    RemoveKeepsOrder(w.s.ready, h, w.since);
  }

  lemma PopKeeps(w: World)
    requires Inv(w) && Enabled(w, Pop)
    ensures Inv(Step(w, Pop))
  {
    var q := w.s.ready;
    assert forall x :: x in q ==> x == q[0] || x in q[1..];
    assert q[0] !in q[1..];
  }

  lemma StepKeeps(w: World, op: Op)
    requires Inv(w) && Enabled(w, op)
    ensures Inv(Step(w, op))
  {
    match op {
      case Kill(h) => KillKeeps(w, h);
      case Wake(h, token, kind, result) => WokenKeeps(w, h, token, kind, result);
      case Event(token, kind, result) => WokenKeeps(w, Resolve(w.s, token), token, kind, result);
      case Pop => PopKeeps(w);
      case _ =>
    }
  }

  ghost predicate Legal(w: World, ops: seq<Op>)
    decreases |ops|
  {
    ops == [] || (Enabled(w, ops[0]) && Legal(Step(w, ops[0]), ops[1..]))
  }

  ghost function Exec(w: World, ops: seq<Op>): World
    requires Legal(w, ops)
    decreases |ops|
  {
    if ops == [] then w else Exec(Step(w, ops[0]), ops[1..])
  }

  lemma {:induction false} RunKeeps(w: World, ops: seq<Op>)
    requires Inv(w) && Legal(w, ops)
    ensures Inv(Exec(w, ops))
    decreases |ops|
  {
    if ops != [] {
      StepKeeps(w, ops[0]);
      hide Inv, Enabled, Step;
      RunKeeps(Step(w, ops[0]), ops[1..]);
    }
  }

  /** After every run: queued exactly when in the ready list, once; no token outlives its task. */
  lemma RunsStayWellFormed(ops: seq<Op>)
    requires Legal(START, ops)
    ensures WellFormed(Exec(START, ops).s)
  {
    RunKeeps(START, ops);
  }

  /** The task popped is the one that has been ready longest. */
  lemma PopsTheOldest(ops: seq<Op>)
    requires Legal(START, ops)
    ensures var w := Exec(START, ops);
      forall h :: h in w.s.ready && h != w.s.ready[0] ==>
        w.s.ready[0] in w.since && h in w.since && w.since[w.s.ready[0]] < w.since[h]
  {
    RunKeeps(START, ops);
    var w := Exec(START, ops);
    forall h | h in w.s.ready && h != w.s.ready[0]
      ensures w.s.ready[0] in w.since && h in w.since && w.since[w.s.ready[0]] < w.since[h]
    {
      var j :| 0 <= j < |w.s.ready| && w.s.ready[j] == h;
    }
  }

  lemma PoppedFinishedIff(w: World)
    requires Inv(w) && Enabled(w, Pop)
    ensures w.s.tasks[w.s.ready[0]].done <==> w.s.ready[0] in w.relapsed
  {
    var h := w.s.ready[0];
    assert h in w.s.ready && w.s.tasks[h].queued;
  }

  /** A finished task is stepped again exactly when its completing step ended with it queued. */
  lemma StepsFinishedIff(ops: seq<Op>)
    requires Legal(START, ops)
    requires Enabled(Exec(START, ops), Pop)
    ensures var w := Exec(START, ops);
      w.s.tasks[w.s.ready[0]].done <==> w.s.ready[0] in w.relapsed
  {
    RunKeeps(START, ops);
    PoppedFinishedIff(Exec(START, ops));
    hide Exec, Legal, Inv;
  }

  predicate DoneInQueue(s: Sched, h: Handle) {
    h in s.tasks && s.tasks[h].done && s.tasks[h].queued
  }

  /** A task comes to be done and queued at once in exactly one way: its step completes while it is queued. */
  lemma BecomesDoneInQueueIff(w: World, op: Op, h: Handle)
    requires Inv(w) && Enabled(w, op) && !DoneInQueue(w.s, h)
    ensures DoneInQueue(Step(w, op).s, h) <==> op == StepEnds(h, true) && h in w.s.tasks && w.s.tasks[h].queued
  {
  }

  /** Such a run: the step reschedules its own task and then reports completion. */
  lemma FinishedTaskStepsAgain(h: Handle)
    requires h != 0
    ensures var ops := [New(h), Wake(h, 0, 0, 0), Pop, Wake(h, 0, 0, 0), StepEnds(h, true)];
      && Legal(START, ops) && Enabled(Exec(START, ops), Pop)
      && Exec(START, ops).s.ready[0] == h && Exec(START, ops).s.tasks[h].done
  {
    var w1 := Step(START, New(h));
    var w2 := Step(w1, Wake(h, 0, 0, 0));
    assert w2.s.ready == [h];
    var w3 := Step(w2, Pop);
    assert w3.s.ready == [];
    var w4 := Step(w3, Wake(h, 0, 0, 0));
    assert w4.s.ready == [h];
    var w5 := Step(w4, StepEnds(h, true));
    var ops := [New(h), Wake(h, 0, 0, 0), Pop, Wake(h, 0, 0, 0), StepEnds(h, true)];
    assert ops[1..] == [Wake(h, 0, 0, 0), Pop, Wake(h, 0, 0, 0), StepEnds(h, true)];
    assert ops[1..][1..] == [Pop, Wake(h, 0, 0, 0), StepEnds(h, true)];
    assert ops[1..][1..][1..] == [Wake(h, 0, 0, 0), StepEnds(h, true)];
    assert ops[1..][1..][1..][1..] == [StepEnds(h, true)];
    assert ops[1..][1..][1..][1..][1..] == [];
    assert Legal(w5, []) && Exec(w5, []) == w5;
    assert Legal(w4, [StepEnds(h, true)]) && Exec(w4, [StepEnds(h, true)]) == w5;
    assert Legal(w3, ops[1..][1..][1..]) && Exec(w3, ops[1..][1..][1..]) == w5;
    assert Legal(w2, ops[1..][1..]) && Exec(w2, ops[1..][1..]) == w5;
    assert Legal(w1, ops[1..]) && Exec(w1, ops[1..]) == w5;
  }

  /** An event for a bound, unfinished task makes that task ready with the event's data. */
  lemma EventReachesBoundTask(w: World, token: int, kind: int, result: int)
    requires Inv(w) && token in w.s.bound && !w.s.tasks[w.s.bound[token]].done
    ensures var h := w.s.bound[token]; var r := Step(w, Op.Event(token, kind, result)).s;
      h in r.ready && h in r.tasks && r.tasks[h] == Info(false, true, token, kind, result)
  {
    var r := Step(w, Op.Event(token, kind, result)).s;
    var h := w.s.bound[token];
    if !w.s.tasks[h].queued {
      assert r.ready[|w.s.ready|] == h;
    }
  }
}
