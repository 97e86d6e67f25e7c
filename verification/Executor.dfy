/**
 The executor's lock-held sections on its real fields: a ring buffer of task headers
 (bin/runtime/async_runtime.c:1459-1553, 1564-1590, 1689-1780, 1889-1969, 2010-2035,
 2093-2141). Each section is proved to do to those fields what `ExecutorSpec` says.
 */
module Executor {
  import opened Lists
  import opened ExecutorSpec
  import opened RingIndex

  class AsyncHeader {
    var state: int
    var cancelRequested: bool

    constructor ()
      ensures state == 0 && !cancelRequested
    {
      state, cancelRequested := 0, false;
    }
  }

  datatype WorkerPass = Took(task: AsyncHeader) | Exits | Sleeps

  datatype EnqueuePass = Admitted | Refused | Assist(task: AsyncHeader) | NoRoom | Retry

  datatype WaitPass = Over | GivesUp | AssistWith(task: AsyncHeader) | Blocks

  datatype ShutdownPass = Joins | TimesOut | Again | WaitsOn

  class TaskExecutor {
    var queue: array?<AsyncHeader?>
    var capacity: nat
    var head: nat
    var size: nat
    var outstanding: int
    var live: int
    var initialized: bool
    var mode: Mode
    ghost var contents: seq<AsyncHeader>
    ghost var known: set<AsyncHeader>
    ghost var settled: seq<AsyncHeader>

    ghost predicate Valid()
      reads this, queue
    {
      && size == |contents|
      && (queue == null ==> !initialized && size == 0 && head == 0 && capacity == 0)
      && (queue != null ==>
            && initialized && capacity >= 1 && queue.Length == capacity && head < capacity && size <= capacity
            && forall i :: 0 <= i < size ==> queue[Slot(head, i, capacity)] == contents[i])
      && forall h :: h in contents ==> h in known
    }

    ghost function Shared(): Core<AsyncHeader>
      reads this, known
    {
      Core(mode, initialized, capacity, contents, outstanding, live,
                map h | h in known :: Header(h.state, h.cancelRequested), settled)
    }

    constructor ()
      ensures Valid() && Shared() == Core(Running, false, 0, [], 0, 0, map[], [])
    {
      queue, capacity, head, size, outstanding, live, initialized := null, 0, 0, 0, 0, 0, false;
      mode, contents, known, settled := Running, [], {}, [];
    }

    /** `start` before it takes the lock: the header is reset. */
    method ResetHeader(h: AsyncHeader)
      requires Valid() && h !in known
      modifies this`known, h
      ensures Valid() && known == old(known) + {h}
      ensures var c := old(Shared()); Shared() == c.(headers := c.headers[h := Header(0, false)])
    {
      ghost var c := Shared();
      h.state, h.cancelRequested := 0, false;
      known := known + {h};
      assert Shared().headers == c.headers[h := Header(0, false)];
    }

    /** `start` failed: the state is stored directly, without the lock. */
    method RefuseStart(h: AsyncHeader)
      requires Valid() && h in known
      modifies h`state
      ensures Valid() && h in old(Shared()).headers
      ensures var c := old(Shared()); Shared() == c.(headers := c.headers[h := c.headers[h].(state := 3)])
    {
      ghost var c := Shared();
      h.state := 3;
      assert Shared().headers == c.headers[h := c.headers[h].(state := 3)];
    }

    // ---- The ring ----

    method QueuePush(h: AsyncHeader)
      requires Valid() && initialized && size < capacity && h in known
      modifies this`size, this`contents, queue
      ensures Valid() && contents == old(contents) + [h]
    {
      SlotIsMod(head, size, capacity);
      var tail := (head + size) % capacity;
      queue[tail] := h;
      size := size + 1;
      contents := contents + [h];
    }

    method QueuePop() returns (h: AsyncHeader?)
      requires Valid()
      modifies this`head, this`size, this`contents, queue
      ensures Valid()
      ensures old(contents) == [] ==> h == null && contents == []
      ensures old(contents) != [] ==> h == old(contents)[0] && contents == old(contents)[1..]
    {
      if queue == null || size <= 0 {
        return null;
      }
      h := queue[head];
      assert Slot(head, 0, capacity) == head;
      assert forall i :: 1 <= i < size ==> queue[Slot(head, i, capacity)] == contents[i] && Slot(head, i, capacity) != head;
      queue[head] := null;
      SlotIsMod(head, 1, capacity);
      var next := (head + 1) % capacity;
      assert forall i :: 0 <= i < size - 1 ==> Slot(next, i, capacity) == Slot(head, i + 1, capacity);
      head := next;
      size := size - 1;
      contents := contents[1..];
    }

    /** Search the ring, close the gap, clear the freed slot. */
    method QueueRemove(target: AsyncHeader) returns (removed: bool)
      requires Valid()
      modifies this`size, this`contents, queue
      ensures Valid()
      ensures removed == (target in old(contents))
      ensures contents == RemoveFirst(old(contents), target)
    {
      if queue == null || size <= 0 {
        return false;
      }
      var found := QueueFind(target);
      if found < 0 {
        RemoveAbsent(contents, target);
        return false;
      }
      QueueDropAt(found);
      RemoveAt(old(contents), found);
      return true;
    }

    method QueueFind(target: AsyncHeader) returns (found: int)
      requires Valid() && queue != null
      ensures -1 <= found < size
      ensures found == -1 ==> target !in contents
      ensures found >= 0 ==> contents[found] == target && target !in contents[..found]
    {
      var i := 0;
      while i < size
        invariant 0 <= i <= size
        invariant forall k :: 0 <= k < i ==> contents[k] != target
      {
        SlotIsMod(head, i, capacity);
        if queue[(head + i) % capacity] == target {
          return i;
        }
        i := i + 1;
      }
      return -1;
    }

    method QueueDropAt(found: nat)
      requires Valid() && queue != null && found < size
      modifies this`size, this`contents, queue
      ensures Valid()
      ensures contents == old(contents)[..found] + old(contents)[found + 1..]
    {
      ShiftDown(found);
      SlotIsMod(head, size - 1, capacity);
      var tail := (head + size - 1) % capacity;
      assert tail == Slot(head, size - 1, capacity);
      assert forall k :: 0 <= k < size - 1 ==> Slot(head, k, capacity) != tail;
      queue[tail] := null;
      size := size - 1;
      contents := contents[..found] + contents[found + 1..];
    }

    method IndexAt(i: nat) returns (index: nat)
      requires head < capacity && i <= capacity
      ensures index == Slot(head, i, capacity)
    {
      SlotIsMod(head, i, capacity);
      index := (head + i) % capacity;
    }

    /** Move every entry after `found` one place towards the head. */
    method ShiftDown(found: nat)
      requires Valid() && queue != null && found < size
      modifies queue
      ensures forall k :: 0 <= k < found ==> queue[Slot(head, k, capacity)] == contents[k]
      ensures forall k :: found <= k < size - 1 ==> queue[Slot(head, k, capacity)] == contents[k + 1]
    {
      var i := found;
      while i < size - 1
        invariant found <= i <= size - 1
        invariant forall k :: 0 <= k < found ==> queue[Slot(head, k, capacity)] == contents[k]
        invariant forall k :: found <= k < i ==> queue[Slot(head, k, capacity)] == contents[k + 1]
        invariant forall k :: i < k < size ==> queue[Slot(head, k, capacity)] == contents[k]
      {
        var fromIndex := IndexAt(i + 1);
        var toIndex := IndexAt(i);
        queue[toIndex] := queue[fromIndex];
        i := i + 1;
      }
    }

    // ---- Task states ----

    method SetStateLocked(h: AsyncHeader, state: int)
      requires Valid() && h in known
      modifies h`state, this`outstanding, this`settled
      ensures Valid() && Shared() == SetState(old(Shared()), h, state) && h.state == state
    {
      var previous := h.state;
      h.state := state;
      if previous < 2 && state >= 2 && outstanding > 0 {
        outstanding := outstanding - 1;
        settled := settled + [h];
      }
      assert Shared().headers == SetState(old(Shared()), h, state).headers;
    }

    method RequestCancelLocked(h: AsyncHeader)
      requires Valid() && h in known
      modifies h`cancelRequested
      ensures Valid() && Shared() == RequestCancel(old(Shared()), h)
    {
      h.cancelRequested := true;
      assert Shared().headers == RequestCancel(old(Shared()), h).headers;
    }

    method CancelTask(h: AsyncHeader)
      requires Valid() && h in known
      modifies h, this`outstanding, this`settled, this`size, this`contents, queue
      ensures Valid() && Shared() == CancelLocked(old(Shared()), h)
    {
      RequestCancelLocked(h);
      if initialized && h.state == 0 {
        label AfterRequest:
        var removed := QueueRemove(h);
        assert Shared().headers == old@AfterRequest(Shared()).headers;
        if removed {
          SetStateLocked(h, 3);
        } else {
          RemoveAbsent(old(contents), h);
        }
      }
    }

    method AbortQueuedTasks()
      requires Valid()
      modifies known, this`outstanding, this`settled, this`head, this`size, this`contents, queue
      ensures Valid() && Shared() == AbortQueued(old(Shared()))
    {
      while size > 0
        invariant Valid() && AbortQueued(Shared()) == AbortQueued(old(Shared()))
        decreases size
      {
        hide SetState, RequestCancel;
        AbortHead();
      }
    }

    /** Pop the head of the ring, ask it to cancel and mark it cancelled. */
    method AbortHead()
      requires Valid() && size > 0
      modifies known, this`outstanding, this`settled, this`head, this`size, this`contents, queue
      ensures Valid() && size == old(size) - 1
      ensures var c := old(Shared()); Shared() == SetState(RequestCancel(Pop(c), c.queue[0]), c.queue[0], 3)
    {
      ghost var c := Shared();
      var queued := QueuePop();
      assert Shared().headers == c.headers;
      assert Shared() == Pop(c);
      RequestCancelLocked(queued);
      SetStateLocked(queued, 3);
    }

    // ---- The sections ----

    /** Lines 1617-1680, once memory and threads were obtained. */
    method Initialise(workers: nat, queueCapacity: nat)
      requires Valid() && !initialized && mode == Running && queueCapacity >= 1
      modifies this
      ensures Valid() && known == old(known) && Shared() == InitialiseCore(old(Shared()), workers, queueCapacity)
    {
      ghost var headers := Shared().headers;
      queue := new AsyncHeader?[queueCapacity](_ => null);
      capacity, head, size, outstanding, contents := queueCapacity, 0, 0, 0, [];
      mode, initialized, live := Running, true, workers;
      assert Shared().headers == headers;
    }

    method WorkerSection() returns (pass: WorkerPass)
      requires Valid()
      modifies this`live, this`head, this`size, this`contents, queue
      ensures Valid()
      ensures pass == if old(contents) != [] then Took(old(contents)[0])
                      else if !old(initialized) || old(mode).AtLeastStopping() then Exits else Sleeps
      ensures Shared() == match pass
                        case Took(_) => Pop(old(Shared()))
                        case Exits => ExitCore(old(Shared()))
                        case Sleeps => old(Shared())
    {
      ghost var headers := Shared().headers;
      if size <= 0 {
        if !initialized || mode.AtLeastStopping() {
          if live > 0 {
            live := live - 1;
          }
          assert Shared().headers == headers;
          return Exits;
        }
        return Sleeps;
      }
      var task := QueuePop();
      assert Shared().headers == headers;
      return Took(task);
    }

    method BeginSection(h: AsyncHeader) returns (run: bool)
      requires Valid() && h in known
      modifies h`state, this`outstanding, this`settled
      ensures Valid() && Shared() == BeginCore(old(Shared()), h)
      ensures run == RunsBody(old(Shared()), h)
    {
      run := false;
      if h.state < 2 {
        if h.cancelRequested || mode.AtLeastStopping() {
          SetStateLocked(h, 3);
        } else {
          SetStateLocked(h, 1);
          run := true;
        }
      }
    }

    method FinishSection(h: AsyncHeader)
      requires Valid() && h in known
      modifies h`state, this`outstanding, this`settled
      ensures Valid() && Shared() == FinishCore(old(Shared()), h)
      ensures h.state == 2 || h.state == 3
      ensures h.state == 2 <==> !old(h.cancelRequested) && (old(mode) == Running || old(mode) == Draining)
    {
      var final := if h.cancelRequested || mode.AtLeastStopping() then 3 else 2;
      SetStateLocked(h, final);
    }

    method EndSection(h: AsyncHeader)
      requires Valid() && h in known
      modifies h`state, this`outstanding, this`settled
      ensures Valid() && Shared() == EndCore(old(Shared()), h)
      ensures old(h.state) >= 2 ==> h.state == old(h.state)
      ensures old(h.state) < 2 ==> h.state == 2 || h.state == 3
      ensures old(h.state) < 2 ==>
        (h.state == 2 <==> !old(h.cancelRequested) && (old(mode) == Running || old(mode) == Draining))
    {
      if h.state < 2 {
        FinishSection(h);
      }
    }

    method EnqueueSection(h: AsyncHeader, poolWorker: bool, inLoop: bool) returns (pass: EnqueuePass)
      requires Valid() && h in known
      modifies this`outstanding, this`head, this`size, this`contents, queue
      ensures Valid()
      ensures pass ==
        var full := |old(contents)| >= old(capacity);
        if !inLoop && (!old(initialized) || old(capacity) == 0 || old(mode) != Running) then Refused
        else if inLoop && full && old(mode) != Running then Refused
        else if full && poolWorker && old(contents) != [] then Assist(old(contents)[0])
        else if full then NoRoom
        else if old(mode) == Running then Admitted else Retry
      ensures Shared() == match pass
                        case Admitted => Push(old(Shared()), h)
                        case Assist(_) => Pop(old(Shared()))
                        case _ => old(Shared())
    {
      ghost var headers := Shared().headers;
      if !inLoop && (!initialized || queue == null || capacity <= 0 || mode != Running) {
        return Refused;
      }
      if size >= capacity {
        if mode != Running {
          return Refused;
        }
        if poolWorker {
          var task := QueuePop();
          assert Shared().headers == headers;
          if task != null {
            return Assist(task);
          }
        }
        return NoRoom;
      }
      if mode == Running {
        QueuePush(h);
        outstanding := outstanding + 1;
        assert Shared().headers == headers;
        return Admitted;
      }
      return Retry;
    }

    /** One pass of the wait loop for a thread whose innermost task is `current`. */
    method WaitSection(h: AsyncHeader, current: AsyncHeader?, poolWorker: bool) returns (pass: WaitPass)
      requires Valid() && h in known && (current != null ==> current in known)
      modifies h, this`outstanding, this`settled, this`head, this`size, this`contents, queue
      ensures Valid()
      ensures var c := old(Shared());
        var propagates := current != null && current != h && c.headers[current].cancelRequested && !c.headers[h].cancelRequested;
        var c1 := if propagates then CancelLocked(c, h) else c;
        if c.headers[h].state >= 2 then pass == Over && Shared() == c
        else if c.mode.AtLeastStopping() then pass == GivesUp && Shared() == c
        else if c.mode == Running && poolWorker && current != null && current != h && c1.queue != [] then
          pass == AssistWith(c1.queue[0]) && Shared() == Pop(c1)
        else pass == Blocks && Shared() == c1
    {
      hide CancelLocked;
      if h.state >= 2 {
        return Over;
      }
      if mode.AtLeastStopping() {
        return GivesUp;
      }
      if current != null && current != h && current.cancelRequested && !h.cancelRequested {
        CancelTask(h);
      }
      ghost var c1 := Shared();
      if mode == Running && poolWorker && current != null && current != h && size > 0 {
        var task := QueuePop();
        assert Shared().headers == c1.headers;
        return AssistWith(task);
      }
      return Blocks;
    }

    /** Shutdown up to its wait loop; false when there is nothing to wait for. */
    method ShutdownBegin(abort: bool) returns (waits: bool)
      requires Valid()
      modifies this, known, queue
      ensures Valid() && known == old(known)
      ensures waits == (old(mode) != Stopped && old(initialized))
      ensures Shared() == var c := old(Shared());
        if c.mode == Stopped then c
        else if !c.initialized then c.(mode := Stopped)
        else if !abort && c.mode == Running then c.(mode := Draining)
        else StopCore(c)
    {
      ghost var headers := Shared().headers;
      if mode == Stopped {
        return false;
      }
      if !initialized {
        mode := Stopped;
        assert Shared().headers == headers;
        return false;
      }
      if !abort && mode == Running {
        mode := Draining;
        assert Shared().headers == headers;
      } else {
        mode := Stopping;
        assert Shared().headers == headers;
        AbortQueuedTasks();
      }
      return true;
    }

    /** One pass of the shutdown wait loop. */
    method ShutdownSection(timedOut: bool) returns (pass: ShutdownPass)
      requires Valid()
      modifies this, known, queue
      ensures Valid() && known == old(known)
      ensures var c := old(Shared());
        var drained := c.mode == Draining && c.outstanding <= 0 && c.queue == [];
        var c1 := if drained then StopCore(c) else c;
        if c1.mode == Stopping && c1.live <= 0 then pass == Joins && Shared() == c1
        else if timedOut && c1.mode == Draining then pass == Again && Shared() == StopCore(c)
        else if timedOut then pass == TimesOut && Shared() == c1
        else pass == WaitsOn && Shared() == c1
    {
      ghost var headers := Shared().headers;
      if mode == Draining {
        if outstanding <= 0 && size <= 0 {
          mode := Stopping;
          assert Shared().headers == headers;
          AbortQueuedTasks();
        }
      }
      if mode == Stopping && live <= 0 {
        return Joins;
      }
      if timedOut {
        if mode == Draining {
          mode := Stopping;
          assert Shared().headers == headers;
          AbortQueuedTasks();
          return Again;
        }
        return TimesOut;
      }
      return WaitsOn;
    }

    /** After the worker threads were joined. */
    method ShutdownFinish()
      requires Valid()
      modifies this
      ensures Valid() && known == old(known) && Shared() == FinalCore(old(Shared()))
    {
      ghost var headers := Shared().headers;
      queue, capacity, head, size, contents := null, 0, 0, 0, [];
      live, outstanding, initialized, mode := 0, 0, false, Stopped;
      assert Shared().headers == headers;
    }
  }
}
