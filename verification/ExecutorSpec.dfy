/**
 The worker-pool executor's shared fields as one value, and what each helper that runs
 under the executor lock does to that value (bin/runtime/async_runtime.c:1459-1553).

 `ExecutorMachine` interleaves these helpers; the class in `Executor` implements them
 on a ring buffer. Task states: 0 queued, 1 running, 2 finished, 3 cancelled.
 */
module ExecutorSpec {
  import opened Lists

  /** RUNNING, DRAINING, STOPPING, STOPPED. */
  datatype Mode = Running | Draining | Stopping | Stopped {
    /** The source's `state >= STOPPING`. */
    predicate AtLeastStopping() {
      Stopping? || Stopped?
    }
  }

  datatype Header = Header(state: int, cancelRequested: bool)

  /** `settled` logs the tasks for which `outstanding` was really decremented. */
  datatype Core<H(==)> = Core(
    mode: Mode,
    initialized: bool,
    capacity: nat,
    queue: seq<H>,
    outstanding: int,
    live: int,
    headers: map<H, Header>,
    settled: seq<H>)

  /** Store a task state; leaving the states below 2 gives one outstanding unit back. */
  function SetState<H(==)>(c: Core<H>, h: H, state: int): Core<H>
    requires h in c.headers
  {
    var c1 := c.(headers := c.headers[h := c.headers[h].(state := state)]);
    if c.headers[h].state < 2 && state >= 2 && c.outstanding > 0 then
      c1.(outstanding := c.outstanding - 1, settled := c.settled + [h])
    else
      c1
  }

  function RequestCancel<H(==)>(c: Core<H>, h: H): Core<H>
    requires h in c.headers
  {
    c.(headers := c.headers[h := c.headers[h].(cancelRequested := true)])
  }

  function Push<H(==)>(c: Core<H>, h: H): Core<H> {
    c.(queue := c.queue + [h], outstanding := c.outstanding + 1)
  }

  function Pop<H(==)>(c: Core<H>): Core<H>
    requires c.queue != []
  {
    c.(queue := c.queue[1..])
  }

  /** Whether a cancel of `h` takes it out of the queue. */
  predicate CancelRemoves<H(==)>(c: Core<H>, h: H)
    requires h in c.headers
  {
    c.initialized && c.headers[h].state == 0 && h in c.queue
  }

  function CancelLocked<H(==)>(c: Core<H>, h: H): Core<H>
    requires h in c.headers
  {
    var c1 := RequestCancel(c, h);
    if CancelRemoves(c, h) then
      SetState(c1.(queue := RemoveFirst(c.queue, h)), h, 3)
    else
      c1
  }

  /** Pop every queued task, ask it to cancel and mark it cancelled. */
  function AbortQueued<H(==)>(c: Core<H>): Core<H>
    requires forall h :: h in c.queue ==> h in c.headers
    decreases |c.queue|
  {
    if c.queue == [] then c
    else AbortQueued(SetState(RequestCancel(Pop(c), c.queue[0]), c.queue[0], 3))
  }

  /** The terminal state a task ends in: cancelled when it or the runtime is stopping. */
  function FinalState<H(==)>(c: Core<H>, h: H): int
    requires h in c.headers
  {
    if c.headers[h].cancelRequested || c.mode.AtLeastStopping() then 3 else 2
  }

  // ---- What each lock-held section does to the shared fields ----

  /** Whether the first section of execute_task lets the body run. */
  predicate RunsBody<H(==)>(c: Core<H>, h: H)
    requires h in c.headers
  {
    c.headers[h].state < 2 && !c.headers[h].cancelRequested && !c.mode.AtLeastStopping()
  }

  function BeginCore<H(==)>(c: Core<H>, h: H): Core<H>
    requires h in c.headers
  {
    if c.headers[h].state >= 2 then c
    else if RunsBody(c, h) then SetState(c, h, 1)
    else SetState(c, h, 3)
  }

  function FinishCore<H(==)>(c: Core<H>, h: H): Core<H>
    requires h in c.headers
  {
    SetState(c, h, FinalState(c, h))
  }

  function EndCore<H(==)>(c: Core<H>, h: H): Core<H>
    requires h in c.headers
  {
    if c.headers[h].state < 2 then FinishCore(c, h) else c
  }

  function StopCore<H(==)>(c: Core<H>): Core<H>
    requires forall h :: h in c.queue ==> h in c.headers
  {
    AbortQueued(c.(mode := Stopping))
  }

  function InitialiseCore<H(==)>(c: Core<H>, workers: nat, capacity: nat): Core<H> {
    c.(initialized := true, capacity := capacity, queue := [], outstanding := 0, mode := Running, live := workers)
  }

  function FinalCore<H(==)>(c: Core<H>): Core<H> {
    c.(mode := Stopped, initialized := false, capacity := 0, queue := [], outstanding := 0, live := 0)
  }

  /** A worker thread leaves its main loop. */
  function ExitCore<H(==)>(c: Core<H>): Core<H> {
    c.(live := if c.live > 0 then c.live - 1 else c.live)
  }

  // ---- Facts about the helpers ----

  /** A duplicate-free queue of waiting tasks that the counter covers. */
  ghost predicate Abortable<H>(c: Core<H>) {
    && NoDup(c.queue) && c.outstanding >= |c.queue|
    && forall h :: h in c.queue ==> h in c.headers && c.headers[h].state == 0
  }

  /** The core once the first queued task has been aborted. */
  function FirstAborted<H(==)>(c: Core<H>): Core<H>
    requires c.queue != []
  {
    c.(queue := c.queue[1..], outstanding := c.outstanding - 1,
       headers := c.headers[c.queue[0] := Header(3, true)], settled := c.settled + [c.queue[0]])
  }

  lemma AbortNext<H>(c: Core<H>)
    requires Abortable(c) && c.queue != []
    ensures Abortable(FirstAborted(c))
    ensures AbortQueued(c) == AbortQueued(FirstAborted(c))
  {
    AbortFirst(c);
    QueueSplits(c.queue);
    hide AbortQueued;
  }

  lemma {:induction false} AbortCounts<H>(c: Core<H>)
    requires Abortable(c)
    ensures var r := AbortQueued(c);
      r == c.(queue := [], outstanding := c.outstanding - |c.queue|, headers := r.headers, settled := c.settled + c.queue)
    decreases |c.queue|
  {
    if c.queue == [] {
      assert c.settled + c.queue == c.settled;
    } else {
      AbortNext(c);
      AbortCounts(FirstAborted(c));
      hide AbortQueued;
      assert FirstAborted(c).settled + c.queue[1..] == c.settled + c.queue;
    }
  }

  lemma {:induction false} AbortMarks<H>(c: Core<H>)
    requires Abortable(c)
    ensures var r := AbortQueued(c).headers;
      && r.Keys == c.headers.Keys
      && (forall h :: h in c.queue ==> h in r && r[h] == Header(3, true))
      && (forall h :: h in c.headers && h !in c.queue ==> h in r && r[h] == c.headers[h])
    decreases |c.queue|
  {
    if c.queue != [] {
      AbortNext(c);
      AbortMarks(FirstAborted(c));
      QueueSplits(c.queue);
      hide AbortQueued, NoDup;
      AbortedHeaders(c.queue, c.headers, FirstAborted(c).headers, AbortQueued(FirstAborted(c)).headers);
    }
  }

  /**
   Aborting a duplicate-free queue of waiting tasks empties it, cancels exactly those
   tasks, leaves every other header alone and, when the counter covers them, gives back
   exactly one outstanding unit per task.
   */
  lemma AbortQueuedFacts<H>(c: Core<H>)
    requires NoDup(c.queue)
    requires forall h :: h in c.queue ==> h in c.headers && c.headers[h].state == 0
    requires c.outstanding >= |c.queue|
    ensures var r := AbortQueued(c);
      && r == c.(queue := [], outstanding := c.outstanding - |c.queue|,
                 headers := r.headers, settled := c.settled + c.queue)
      && r.headers.Keys == c.headers.Keys
      && (forall h :: h in c.queue ==> r.headers[h] == Header(3, true))
      && (forall h :: h in c.headers && h !in c.queue ==> r.headers[h] == c.headers[h])
  {
    AbortCounts(c);
    AbortMarks(c);
    hide AbortQueued;
  }

  lemma AbortedHeaders<H>(q: seq<H>, before: map<H, Header>, next: map<H, Header>, after: map<H, Header>)
    requires q != [] && q[0] in before && next == before[q[0] := Header(3, true)] && after.Keys == next.Keys
    requires q[0] !in q[1..] && (forall h :: h in q ==> h == q[0] || h in q[1..])
    requires forall h :: h in q[1..] ==> h in q
    requires forall h :: h in q[1..] ==> h in after && after[h] == Header(3, true)
    requires forall h :: h in next && h !in q[1..] ==> after[h] == next[h]
    ensures after.Keys == before.Keys
    ensures forall h :: h in q ==> h in after && after[h] == Header(3, true)
    ensures forall h :: h in before && h !in q ==> after[h] == before[h]
  {
  }

  lemma AbortFirst<H>(c: Core<H>)
    requires c.queue != [] && c.queue[0] in c.headers && c.headers[c.queue[0]].state == 0 && c.outstanding > 0
    requires forall h :: h in c.queue ==> h in c.headers
    ensures forall h :: h in FirstAborted(c).queue ==> h in FirstAborted(c).headers
    ensures AbortQueued(c) == AbortQueued(FirstAborted(c))
  {
    var h0 := c.queue[0];
    assert SetState(RequestCancel(Pop(c), h0), h0, 3).headers == c.headers[h0 := Header(3, true)];
  }

  lemma QueueSplits<H>(q: seq<H>)
    requires q != [] && NoDup(q)
    ensures NoDup(q[1..]) && q[0] !in q[1..] && |q[1..]| == |q| - 1
    ensures forall h :: h in q ==> h == q[0] || h in q[1..]
    ensures forall h :: h in q[1..] ==> h in q
  {
    assert forall h :: h in q ==> h == q[0] || h in q[1..];
  }
}
