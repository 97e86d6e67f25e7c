/**
 Every interleaving of the executor's lock-held sections
 (bin/runtime/async_runtime.c:1555-2147), one action per section, over any number of
 worker and client threads, one shutdown caller, and cancels from anywhere.

 A worker's `stack` holds the tasks it has claimed, innermost last: a body that blocks in
 `start` or `wait` may run another task on top of itself. `calls[k]` is the blocking call
 made from depth k (k = 0: from outside any task).
 */
module ExecutorMachine {
  import opened ExecutorSpec

  /** `inLoop`: woken inside the wait-for-room loop. `selfCancelled`: see `WaitTry`. */
  datatype Call<H> =
    | NoCall
    | Starting(task: H, inLoop: bool)
    | Waiting(task: H, selfCancelled: bool)

  /** Claimed: popped; InBody: its body runs; BodyDone: the body called finish; Skipped: no body. */
  datatype Phase = Claimed | InBody | BodyDone | Skipped

  datatype Frame<H> = Frame(task: H, phase: Phase)

  datatype Thread<H> = Thread(worker: bool, exited: bool, stack: seq<Frame<H>>, calls: seq<Call<H>>) {
    predicate Shaped() {
      |calls| == |stack| + 1
    }

    function Top(): Frame<H>
      requires stack != []
    {
      stack[|stack| - 1]
    }

    function Now(): Call<H>
      requires Shaped()
    {
      calls[|stack|]
    }
  }

  datatype Shutdown = NoShutdown | ShutLoop | ShutJoin

  /**
   The last two lines are history: the order of admissions and claims, what left the queue
   by cancel or abort, whose body began, where each claimed task sits and which call site
   is starting which task.
   */
  datatype Sys<H(==)> = Sys(
    core: Core<H>,
    threads: map<nat, Thread<H>>,
    asleep: set<nat>,
    shut: Shutdown,
    shutAsleep: bool,
    admitted: seq<H>, claimed: seq<H>, cancelled: set<H>, aborted: set<H>, bodies: seq<H>,
    claims: map<H, (nat, nat)>, sites: map<H, (nat, nat)>)

  datatype Action<H> =
    | Initialise(workers: set<nat>, capacity: nat)
    | StartCall(t: nat, h: H)
    | EnqueueTry(t: nat)
    | WaitCall(t: nat, h: H)
    | WaitTry(t: nat)
    | Cancel(h: H)
    | WorkerLoop(t: nat)
    | Begin(t: nat)
    | Finish(t: nat)
    | End(t: nat)
    | Wake(t: nat)
    | ShutdownCall(abort: bool)
    | ShutdownIter(timedOut: bool)
    | ShutdownFinal
    | ShutdownWake
    | Reset

  // ---- Pieces shared by several sections ----

  /** Broadcast on the executor's one condition variable. */
  function WakeAll<H(==)>(s: Sys<H>): Sys<H> {
    s.(asleep := {}, shutAsleep := false)
  }

  function Sleep<H(==)>(s: Sys<H>, t: nat): Sys<H> {
    s.(asleep := s.asleep + {t})
  }

  predicate Present<H(==)>(s: Sys<H>, t: nat) {
    t in s.threads && s.threads[t].Shaped()
  }

  function SetCall<H(==)>(s: Sys<H>, t: nat, c: Call<H>): Sys<H>
    requires Present(s, t)
  {
    var th := s.threads[t];
    s.(threads := s.threads[t := th.(calls := th.calls[|th.stack| := c])])
  }

  function SetPhase<H(==)>(s: Sys<H>, t: nat, p: Phase): Sys<H>
    requires Present(s, t) && s.threads[t].stack != []
  {
    var th := s.threads[t];
    s.(threads := s.threads[t := th.(stack := th.stack[|th.stack| - 1 := Frame(th.Top().task, p)])])
  }

  /** Thread t pops the queue's head and will execute it. */
  function Claim<H(==)>(s: Sys<H>, t: nat): Sys<H>
    requires Present(s, t) && s.core.queue != []
  {
    var th := s.threads[t];
    var h := s.core.queue[0];
    WakeAll(s.(core := Pop(s.core),
               threads := s.threads[t := th.(stack := th.stack + [Frame(h, Claimed)], calls := th.calls + [NoCall])],
               claimed := s.claimed + [h],
               claims := s.claims[h := (t, |th.stack|)]))
  }

  function CancelAny<H(==)>(s: Sys<H>, h: H): Sys<H>
    requires h in s.core.headers
  {
    WakeAll(s.(core := CancelLocked(s.core, h),
               cancelled := if CancelRemoves(s.core, h) then s.cancelled + {h} else s.cancelled))
  }

  predicate QueueKnown<H(==)>(c: Core<H>) {
    forall h :: h in c.queue ==> h in c.headers
  }

  /** Enter STOPPING and drop everything that is queued. */
  function StopAndAbort<H(==)>(s: Sys<H>): Sys<H>
    requires QueueKnown(s.core)
  {
    WakeAll(s.(core := StopCore(s.core),
               aborted := s.aborted + set h | h in s.core.queue))
  }

  // ---- The sections ----

  function InitialiseExecutor<H(==)>(s: Sys<H>, workers: set<nat>, capacity: nat): Sys<H> {
    WakeAll(s.(core := InitialiseCore(s.core, |workers|, capacity),
               threads := s.threads + map t | t in workers :: Thread(true, false, [], [NoCall])))
  }

  /** `start` before it takes the lock: the header is reset and the call site remembers it. */
  function BeginStart<H(==)>(s: Sys<H>, t: nat, h: H): Sys<H>
    requires Present(s, t)
  {
    SetCall(s, t, Starting(h, false)).(
      core := s.core.(headers := s.core.headers[h := Header(0, false)]),
      sites := s.sites[h := (t, |s.threads[t].stack|)])
  }

  /** `start` failed: the state is stored directly, nothing was admitted. */
  function Refuse<H(==)>(s: Sys<H>, t: nat, h: H): Sys<H>
    requires Present(s, t) && h in s.core.headers
  {
    SetCall(s, t, NoCall).(
      core := s.core.(headers := s.core.headers[h := s.core.headers[h].(state := 3)]),
      sites := s.sites - {h})
  }

  function Admit<H(==)>(s: Sys<H>, t: nat, h: H): Sys<H>
    requires Present(s, t)
  {
    WakeAll(SetCall(s, t, NoCall).(core := Push(s.core, h), admitted := s.admitted + [h], sites := s.sites - {h}))
  }

  /** One pass of the enqueue loop, from taking the lock (or waking) to releasing it. */
  function TryEnqueue<H(==)>(s: Sys<H>, t: nat): Sys<H>
    requires Present(s, t) && s.threads[t].Now().Starting?
    requires s.threads[t].Now().task in s.core.headers
  {
    var h := s.threads[t].Now().task;
    var inLoop := s.threads[t].Now().inLoop;
    var full := |s.core.queue| >= s.core.capacity;
    if !inLoop && (!s.core.initialized || s.core.capacity == 0 || s.core.mode != Running) then Refuse(s, t, h)
    else if inLoop && full && s.core.mode != Running then Refuse(s, t, h)
    else if full && s.threads[t].worker && s.core.queue != [] then Claim(SetCall(s, t, Starting(h, false)), t)
    else if full then Sleep(SetCall(s, t, Starting(h, true)), t)
    else if s.core.mode == Running then Admit(s, t, h)
    else SetCall(s, t, Starting(h, false))
  }

  /** A cancelled task that waits for another passes the cancellation on. */
  predicate Propagates<H(==)>(s: Sys<H>, t: nat, h: H)
    requires Present(s, t) && h in s.core.headers
  {
    var th := s.threads[t];
    && th.stack != [] && th.Top().task != h && th.Top().task in s.core.headers
    && s.core.headers[th.Top().task].cancelRequested && !s.core.headers[h].cancelRequested
  }

  /**
   One pass of the wait loop. `selfCancelled` records that this very pass cancelled the
   awaited task out of the queue and then went to sleep without looking at it again.
   */
  function TryWait<H(==)>(s: Sys<H>, t: nat): Sys<H>
    requires Present(s, t) && s.threads[t].Now().Waiting?
    requires s.threads[t].Now().task in s.core.headers
  {
    var th := s.threads[t];
    var h := th.Now().task;
    if s.core.headers[h].state >= 2 || s.core.mode.AtLeastStopping() then SetCall(s, t, NoCall)
    else
      var s1 := if Propagates(s, t, h) then CancelAny(s, h) else s;
      var self := Propagates(s, t, h) && CancelRemoves(s.core, h);
      if s.core.mode == Running && th.worker && th.stack != [] && th.Top().task != h && s1.core.queue != [] then
        Claim(SetCall(s1, t, Waiting(h, false)), t)
      else
        Sleep(SetCall(s1, t, Waiting(h, self)), t)
  }

  function RunWorkerLoop<H(==)>(s: Sys<H>, t: nat): Sys<H>
    requires Present(s, t)
  {
    if s.core.queue != [] then Claim(s, t)
    else if !s.core.initialized || s.core.mode.AtLeastStopping() then
      WakeAll(s.(core := ExitCore(s.core),
                 threads := s.threads[t := s.threads[t].(exited := true)]))
    else Sleep(s, t)
  }

  /** First section of execute_task: run the body, or mark the task cancelled. */
  function BeginTask<H(==)>(s: Sys<H>, t: nat): Sys<H>
    requires Present(s, t) && s.threads[t].stack != [] && s.threads[t].Top().task in s.core.headers
  {
    var h := s.threads[t].Top().task;
    if RunsBody(s.core, h) then
      SetPhase(s, t, InBody).(core := BeginCore(s.core, h), bodies := s.bodies + [h])
    else
      SetPhase(s, t, Skipped).(core := BeginCore(s.core, h))
  }

  function FinishTask<H(==)>(s: Sys<H>, t: nat): Sys<H>
    requires Present(s, t) && s.threads[t].stack != [] && s.threads[t].Top().task in s.core.headers
  {
    var h := s.threads[t].Top().task;
    WakeAll(SetPhase(s, t, BodyDone).(core := FinishCore(s.core, h)))
  }

  /** Last section of execute_task: settle the state if the body did not, and pop. */
  function EndTask<H(==)>(s: Sys<H>, t: nat): Sys<H>
    requires Present(s, t) && s.threads[t].stack != [] && s.threads[t].Top().task in s.core.headers
  {
    var th := s.threads[t];
    var h := th.Top().task;
    WakeAll(s.(core := EndCore(s.core, h),
               threads := s.threads[t := th.(stack := th.stack[..|th.stack| - 1], calls := th.calls[..|th.stack|])],
               claims := s.claims - {h}))
  }

  function CallShutdown<H(==)>(s: Sys<H>, abort: bool): Sys<H>
    requires QueueKnown(s.core)
  {
    if s.core.mode == Stopped then s
    else if !s.core.initialized then WakeAll(s.(core := s.core.(mode := Stopped)))
    else if !abort && s.core.mode == Running then WakeAll(s.(core := s.core.(mode := Draining), shut := ShutLoop))
    else StopAndAbort(s).(shut := ShutLoop)
  }

  predicate Drained<H(==)>(c: Core<H>) {
    c.mode == Draining && c.outstanding <= 0 && c.queue == []
  }

  function IterateShutdown<H(==)>(s: Sys<H>, timedOut: bool): Sys<H>
    requires QueueKnown(s.core)
  {
    var s1 := if Drained(s.core) then StopAndAbort(s) else s;
    if s1.core.mode == Stopping && s1.core.live <= 0 then s1.(shut := ShutJoin)
    else if timedOut && s1.core.mode == Draining then StopAndAbort(s)
    else if timedOut then s1.(shut := NoShutdown)
    else s1.(shutAsleep := true)
  }

  function FinishShutdown<H(==)>(s: Sys<H>): Sys<H> {
    WakeAll(s.(core := FinalCore(s.core), shut := NoShutdown))
  }

  // ---- The transition system ----

  ghost predicate Initial<H(!new)>(s: Sys<H>) {
    && s.core == Core(Running, false, 0, [], 0, 0, map[], [])
    && (forall t :: t in s.threads ==> s.threads[t] == Thread(false, false, [], [NoCall]))
    && s.asleep == {} && s.shut == NoShutdown && !s.shutAsleep
    && s.admitted == [] && s.claimed == [] && s.cancelled == {} && s.aborted == {} && s.bodies == []
    && s.claims == map[] && s.sites == map[]
  }

  /** Thread t is awake, alive and not inside a blocking call. */
  predicate Free<H(==)>(s: Sys<H>, t: nat) {
    Present(s, t) && t !in s.asleep && !s.threads[t].exited && s.threads[t].Now() == NoCall
  }

  /** Thread t runs user code: a client, or a worker inside a task body. */
  predicate InUserCode<H(==)>(s: Sys<H>, t: nat) {
    Free(s, t) && if s.threads[t].stack == [] then !s.threads[t].worker
                  else s.threads[t].Top().phase in {InBody, BodyDone}
  }

  predicate Enabled<H(==)>(s: Sys<H>, a: Action<H>) {
    match a
    case Initialise(workers, capacity) =>
      !s.core.initialized && s.core.mode == Running && workers != {} && workers !! s.threads.Keys && capacity >= 1
    case StartCall(t, h) => InUserCode(s, t) && h !in s.core.headers
    case EnqueueTry(t) =>
      Present(s, t) && t !in s.asleep && s.threads[t].Now().Starting? && s.threads[t].Now().task in s.core.headers
    case WaitCall(t, h) =>
      && InUserCode(s, t) && s.core.initialized && s.core.mode == Running
      && h in s.core.headers && (s.threads[t].stack != [] ==> s.threads[t].Top().task != h)
    case WaitTry(t) =>
      Present(s, t) && t !in s.asleep && s.threads[t].Now().Waiting? && s.threads[t].Now().task in s.core.headers
    case Cancel(h) => h in s.core.headers
    case WorkerLoop(t) => Free(s, t) && s.threads[t].worker && s.threads[t].stack == []
    case Begin(t) => Free(s, t) && s.threads[t].stack != [] && s.threads[t].Top().phase == Claimed
                     && s.threads[t].Top().task in s.core.headers
    case Finish(t) => Free(s, t) && s.threads[t].stack != [] && s.threads[t].Top().phase == InBody
                      && s.threads[t].Top().task in s.core.headers
    case End(t) => Free(s, t) && s.threads[t].stack != [] && s.threads[t].Top().phase != Claimed
                   && s.threads[t].Top().task in s.core.headers
    case Wake(t) => true
    case ShutdownCall(abort) => s.shut == NoShutdown && QueueKnown(s.core)
    case ShutdownIter(timedOut) => s.shut == ShutLoop && !s.shutAsleep && QueueKnown(s.core)
    case ShutdownFinal => s.shut == ShutJoin
    case ShutdownWake => true
    case Reset => s.shut == NoShutdown && s.core.mode == Stopped && !s.core.initialized && s.core.live == 0
  }

  function Apply<H(==)>(s: Sys<H>, a: Action<H>): Sys<H>
    requires Enabled(s, a)
  {
    match a
    case Initialise(workers, capacity) => InitialiseExecutor(s, workers, capacity)
    case StartCall(t, h) => BeginStart(s, t, h)
    case EnqueueTry(t) => TryEnqueue(s, t)
    case WaitCall(t, h) => SetCall(s, t, Waiting(h, false))
    case WaitTry(t) => TryWait(s, t)
    case Cancel(h) => CancelAny(s, h)
    case WorkerLoop(t) => RunWorkerLoop(s, t)
    case Begin(t) => BeginTask(s, t)
    case Finish(t) => FinishTask(s, t)
    case End(t) => EndTask(s, t)
    case Wake(t) => s.(asleep := s.asleep - {t})
    case ShutdownCall(abort) => CallShutdown(s, abort)
    case ShutdownIter(timedOut) => IterateShutdown(s, timedOut)
    case ShutdownFinal => FinishShutdown(s)
    case ShutdownWake => s.(shutAsleep := false)
    case Reset => s.(core := s.core.(mode := Running))
  }

  ghost predicate Legal<H>(s: Sys<H>, run: seq<Action<H>>)
    decreases |run|
  {
    run == [] || (Enabled(s, run[0]) && Legal(Apply(s, run[0]), run[1..]))
  }

  ghost function Exec<H>(s: Sys<H>, run: seq<Action<H>>): Sys<H>
    requires Legal(s, run)
    decreases |run|
  {
    if run == [] then s else Exec(Apply(s, run[0]), run[1..])
  }
}
