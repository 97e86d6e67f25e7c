/**
 The coroutine scheduler on its intrusive lists: tasks linked through `nextAll` and
 `nextReady`, token bindings through `next` (bin/runtime/async_runtime.c:839-1093).
 Ghost sequences list the nodes; every method is proved to do what `CoroSpec` says.
 */
module CoroScheduler {
  import opened Lists
  import opened CoroSpec

  class CoroTask {
    const handle: Handle
    var done: bool
    var queued: bool
    var wakeToken: int
    var wakeKind: int
    var wakeResult: int
    var nextReady: CoroTask?
    var nextAll: CoroTask?

    constructor (handle: Handle, nextAll: CoroTask?)
      ensures this.handle == handle && this.nextAll == nextAll && nextReady == null
      ensures Value() == Info(false, false, 0, 0, 0)
    {
      this.handle, this.nextAll, nextReady := handle, nextAll, null;
      done, queued, wakeToken, wakeKind, wakeResult := false, false, 0, 0, 0;
    }

    ghost function Value(): Info
      reads `done, `queued, `wakeToken, `wakeKind, `wakeResult
    {
      Info(done, queued, wakeToken, wakeKind, wakeResult)
    }
  }

  class TokenBinding {
    const token: int
    var taskHandle: Handle
    var next: TokenBinding?

    constructor (token: int, taskHandle: Handle, next: TokenBinding?)
      ensures this.token == token && this.taskHandle == taskHandle && this.next == next
    {
      this.token, this.taskHandle, this.next := token, taskHandle, next;
    }
  }

  /** Node i of a list, or null past its end. */
  function TaskAt(q: seq<CoroTask>, i: nat): CoroTask? {
    if i < |q| then q[i] else null
  }

  function BindingAt(q: seq<TokenBinding>, i: nat): TokenBinding? {
    if i < |q| then q[i] else null
  }

  ghost function Handles(q: seq<CoroTask>): seq<Handle> {
    seq(|q|, i requires 0 <= i < |q| => q[i].handle)
  }

  class Scheduler {
    var allHead: CoroTask?
    var readyHead: CoroTask?
    var readyTail: CoroTask?
    var tokenBindings: TokenBinding?
    ghost var all: seq<CoroTask>
    ghost var ready: seq<CoroTask>
    ghost var binds: seq<TokenBinding>
    ghost var byHandle: map<Handle, CoroTask>
    ghost var byToken: map<int, TokenBinding>

    ghost predicate AllLinked()
      reads this`allHead, this`all, all`nextAll
    {
      && NoDup(all) && allHead == TaskAt(all, 0)
      && forall i {:trigger all[i].nextAll} :: 0 <= i < |all| ==> all[i].nextAll == TaskAt(all, i + 1)
    }

    /** `byHandle` finds exactly the listed tasks. */
    ghost predicate AllIndexed()
      reads this`all, this`byHandle
    {
      && (forall t :: t in all ==> t.handle in byHandle && byHandle[t.handle] == t)
      && (forall h :: h in byHandle ==> h != 0 && byHandle[h] in all && byHandle[h].handle == h)
    }

    ghost predicate ReadyLinked()
      reads this`readyHead, this`readyTail, this`ready, ready`nextReady
    {
      && NoDup(ready) && readyHead == TaskAt(ready, 0)
      && readyTail == (if ready == [] then null else ready[|ready| - 1])
      && forall i {:trigger ready[i].nextReady} :: 0 <= i < |ready| ==> ready[i].nextReady == TaskAt(ready, i + 1)
    }

    ghost predicate QueuedIsReady()
      reads this`all, this`ready, all`queued, ready`queued
    {
      && (forall t :: t in ready ==> t in all && t.queued)
      && (forall t :: t in all && t.queued ==> t in ready)
    }

    ghost predicate BindsLinked()
      reads this`tokenBindings, this`binds, binds`next
    {
      && NoDup(binds) && tokenBindings == BindingAt(binds, 0)
      && forall i {:trigger binds[i].next} :: 0 <= i < |binds| ==> binds[i].next == BindingAt(binds, i + 1)
    }

    ghost predicate BindsIndexed()
      reads this`binds, this`byToken
    {
      && (forall b :: b in binds ==> b.token in byToken && byToken[b.token] == b)
      && (forall t :: t in byToken ==> t != 0 && byToken[t] in binds && byToken[t].token == t)
    }

    /** No binding outlives its task. */
    ghost predicate NoneOutlives()
      reads this`binds, this`byHandle, binds`taskHandle
    {
      forall b :: b in binds ==> b.taskHandle in byHandle
    }

    ghost predicate TasksOk()
      reads this`allHead, this`all, this`byHandle, this`readyHead, this`readyTail, this`ready
      reads all`nextAll, all`queued, ready`nextReady, ready`queued
      ensures TasksOk() ==> AllIndexed()
    {
      AllLinked() && AllIndexed() && ReadyLinked() && QueuedIsReady()
    }

    ghost predicate BindsOk()
      reads this`tokenBindings, this`binds, this`byToken, binds`next
      ensures BindsOk() ==> BindsIndexed()
    {
      BindsLinked() && BindsIndexed()
    }

    ghost predicate Valid()
      reads this, all, ready, binds
    {
      TasksOk() && BindsOk() && NoneOutlives()
    }

    ghost function Infos(): map<Handle, Info>
      requires AllIndexed()
      reads this`all, this`byHandle, all`done, all`queued, all`wakeToken, all`wakeKind, all`wakeResult
    {
      map h | h in byHandle :: byHandle[h].Value()
    }

    ghost function Bound(): map<int, Handle>
      requires BindsIndexed()
      reads this`binds, this`byToken, binds`taskHandle
    {
      map t | t in byToken :: byToken[t].taskHandle
    }

    ghost function Value(): Sched
      requires AllIndexed() && BindsIndexed()
      reads this, all, binds
    {
      Sched(Infos(), Handles(ready), Bound())
    }

    constructor ()
      ensures Valid() && Value() == Sched(map[], [], map[])
    {
      allHead, readyHead, readyTail, tokenBindings := null, null, null, null;
      all, ready, binds, byHandle, byToken := [], [], [], map[], map[];
    }

    // ---- Tasks ----

    method FindTask(handle: Handle) returns (task: CoroTask?)
      requires TasksOk()
      ensures task == if handle in byHandle then byHandle[handle] else null
    {
      task := allHead;
      ghost var i := 0;
      while task != null
        invariant 0 <= i <= |all| && task == TaskAt(all, i)
        invariant forall k :: 0 <= k < i ==> all[k].handle != handle
        decreases |all| - i
      {
        if task.handle == handle {
          return;
        }
        task := task.nextAll;
        i := i + 1;
      }
    }

    method Create(handle: Handle)
      requires Valid() && handle != 0 && handle !in byHandle
      modifies this`allHead, this`all, this`byHandle
      ensures Valid() && Value() == CoroSpec.Create(old(Value()), handle)
      ensures forall t :: t in all ==> t in old(all) || fresh(t)
    {
      hide AllLinked, AllIndexed, ReadyLinked, BindsOk, BindsIndexed, Infos, Bound, Handles;
      PrependTask(handle);
    }

    method PrependTask(handle: Handle)
      requires AllLinked() && AllIndexed() && handle != 0 && handle !in byHandle
      modifies this`allHead, this`all, this`byHandle
      ensures AllLinked() && AllIndexed() && Infos() == old(Infos())[handle := Info(false, false, 0, 0, 0)]
      ensures |all| == |old(all)| + 1 && fresh(all[0]) && !all[0].queued && all == [all[0]] + old(all)
      ensures byHandle == old(byHandle)[handle := all[0]]
    {
      ghost var before := all;
      assert forall t :: t in before ==> t.handle in byHandle;
      var task := new CoroTask(handle, allHead);
      allHead := task;
      all := [task] + before;
      byHandle := byHandle[handle := task];
      assert forall i :: 1 <= i < |all| ==> all[i] == before[i - 1];
      assert forall t :: t in before ==> t in all;
    }

    method Schedule(handle: Handle, token: int, kind: int, result: int) returns (scheduled: bool)
      requires Valid()
      modifies this`readyHead, this`readyTail, this`ready, all`wakeToken, all`wakeKind, all`wakeResult, all`queued, all`nextReady
      ensures Valid() && Value() == CoroSpec.Schedule(old(Value()), handle, token, kind, result)
      ensures scheduled == Schedulable(old(Value()), handle)
    {
      hide TasksOk, BindsOk, AllIndexed, BindsIndexed, NoneOutlives, Infos, Handles, Bound;
      var task := FindTask(handle);
      TaskFacts(handle);
      if handle == 0 || task == null || task.done {
        return false;
      }
      MakeReady(task, token, kind, result);
      scheduled := true;
    }

    lemma TaskFacts(handle: Handle)
      requires AllIndexed()
      ensures handle in Infos() <==> handle in byHandle
      ensures handle in byHandle ==>
        handle != 0 && byHandle[handle] in all && byHandle[handle].handle == handle && Infos()[handle] == byHandle[handle].Value()
    {
    }

    method MakeReady(task: CoroTask, token: int, kind: int, result: int)
      requires TasksOk() && task in all
      modifies this`readyHead, this`readyTail, this`ready, task`wakeToken, task`wakeKind, task`wakeResult, task`queued, all`nextReady
      ensures TasksOk()
      ensures task.handle in old(Infos())
      ensures Infos() == old(Infos())[task.handle := Info(old(task.done), true, token, kind, result)]
      ensures Handles(ready) == if old(task.queued) then old(Handles(ready)) else old(Handles(ready)) + [task.handle]
    {
      hide AllLinked, ReadyLinked, QueuedIsReady, AllIndexed, Infos;
      WakeTask(task, token, kind, result);
      OneInfo(task);
    }

    /** One task's data changed. */
    twostate lemma OneInfo(task: CoroTask)
      requires AllIndexed() && old(AllIndexed()) && byHandle == old(byHandle) && task in old(all)
      requires forall t :: t in old(all) && t != task ==> t.Value() == old(t.Value())
      ensures task.handle in old(Infos()) && Infos() == old(Infos())[task.handle := task.Value()]
    {
      var r := old(Infos())[task.handle := task.Value()];
      assert forall h :: h in byHandle ==> byHandle[h] in all && byHandle[h].handle == h;
      assert forall h :: h in r ==> Infos()[h] == r[h];
    }

    method WakeTask(task: CoroTask, token: int, kind: int, result: int)
      requires ReadyLinked() && QueuedIsReady() && task in all
      modifies this`readyHead, this`readyTail, this`ready, task`wakeToken, task`wakeKind, task`wakeResult, task`queued, all`nextReady
      ensures ReadyLinked() && QueuedIsReady()
      ensures task.Value() == Info(old(task.done), true, token, kind, result)
      ensures ready == if old(task.queued) then old(ready) else old(ready) + [task]
    {
      task.wakeToken, task.wakeKind, task.wakeResult := token, kind, result;
      if !task.queued {
        AppendReady(task);
      }
    }

    method AppendReady(task: CoroTask)
      requires ReadyLinked() && QueuedIsReady() && task in all && !task.queued
      modifies this`readyHead, this`readyTail, this`ready, task`queued, all`nextReady
      ensures ReadyLinked() && QueuedIsReady() && ready == old(ready) + [task] && task.queued
    {
      ghost var before := ready;
      assert task !in before;
      assert readyTail != null ==> readyTail in before && readyTail in all;
      task.queued := true;
      task.nextReady := null;
      if readyTail != null {
        readyTail.nextReady := task;
      } else {
        readyHead := task;
      }
      readyTail := task;
      ready := ready + [task];
      assert forall t :: t in ready ==> t in before || t == task;
      assert forall t :: t in before || t == task ==> t in ready;
    }

    /** Take the head of the ready list off it. */
    method UnlinkFirst() returns (task: CoroTask)
      requires ReadyLinked() && QueuedIsReady() && ready != []
      modifies this`readyHead, this`readyTail, this`ready, all`queued, all`nextReady
      ensures ReadyLinked() && QueuedIsReady()
      ensures task == old(ready)[0] && ready == old(ready)[1..] && task in all && !task.queued
      ensures forall t :: t in all && t != task ==> t.queued == old(t.queued)
    {
      ghost var before := ready;
      task := readyHead;
      assert task in before && task in all;
      readyHead := task.nextReady;
      if readyHead == null {
        readyTail := null;
      }
      task.nextReady := null;
      task.queued := false;
      ready := before[1..];
      assert forall i :: 0 <= i < |ready| ==> ready[i] == before[i + 1];
      assert forall t :: t in before ==> t == task || t in ready;
      assert forall t :: t in ready ==> t in before && t != task;
    }

    method PopReady() returns (task: CoroTask?)
      requires Valid()
      modifies this`readyHead, this`readyTail, this`ready, all`queued, all`nextReady
      ensures Valid()
      ensures old(ready) == [] ==> task == null && Value() == old(Value())
      ensures old(ready) != [] ==>
        var s := old(Value());
        task != null && task == old(ready)[0] && s.ready != [] && task.handle == s.ready[0] && s.ready[0] in s.tasks &&
        Value() == CoroSpec.PopReady(s)
    {
      hide TasksOk, BindsOk, AllIndexed, BindsIndexed, NoneOutlives, Infos, Bound;
      HeadIsReady();
      if readyHead == null {
        return null;
      }
      task := TakeFirst();
    }

    lemma HeadIsReady()
      requires TasksOk()
      ensures readyHead == null <==> ready == []
      ensures ready != [] ==> ready[0] in all && ready[0].handle in byHandle && byHandle[ready[0].handle] == ready[0]
    {
      assert ready != [] ==> ready[0] in ready;
    }

    method TakeFirst() returns (task: CoroTask)
      requires TasksOk() && ready != []
      modifies this`readyHead, this`readyTail, this`ready, all`queued, all`nextReady
      ensures TasksOk()
      ensures task == old(ready)[0] && Handles(ready) == old(Handles(ready))[1..]
      ensures task.handle in old(Infos())
      ensures Infos() == old(Infos())[task.handle := old(Infos())[task.handle].(queued := false)]
    {
      hide AllLinked, ReadyLinked, QueuedIsReady, AllIndexed, Infos;
      HeadIsReady();
      TaskFacts(ready[0].handle);
      assert Handles(ready)[1..] == Handles(ready[1..]);
      task := UnlinkFirst();
      OneInfo(task);
    }

    /** run_one up to the call of the step function; `event` is what the reactor would deliver. */
    method NextStep(event: Event) returns (task: CoroTask?)
      requires Valid()
      modifies this`readyHead, this`readyTail, this`ready, all`wakeToken, all`wakeKind, all`wakeResult, all`queued, all`nextReady
      ensures Valid()
      ensures var s := AfterEvent(old(Value()), event);
        if s.ready == [] then task == null && Value() == s
        else task != null && task.handle == s.ready[0] && s.ready[0] in s.tasks && Value() == CoroSpec.PopReady(s)
    {
      hide TasksOk, BindsOk, AllIndexed, BindsIndexed, NoneOutlives, Infos, Bound;
      task := PopReady();
      if task != null || event.Idle? {
        return;
      }
      if event.token != 0 {
        var handle := Resolve(event.token);
        var _ := Schedule(handle, event.token, event.kind, event.result);
      }
      task := PopReady();
    }

    /** After the step: look the task up again and mark it if it still exists. */
    method EndStep(handle: Handle, complete: bool)
      requires Valid()
      modifies all`done
      ensures Valid() && Value() == if complete then Complete(old(Value()), handle) else old(Value())
    {
      hide TasksOk, BindsOk, AllIndexed, BindsIndexed, NoneOutlives, Infos, Handles, Bound;
      var alive := FindTask(handle);
      TaskFacts(handle);
      if alive != null && complete {
        MarkDone(alive);
      }
    }

    method MarkDone(task: CoroTask)
      requires AllIndexed() && task in all
      modifies task`done
      ensures task.handle in old(Infos())
      ensures Infos() == old(Infos())[task.handle := old(Infos())[task.handle].(done := true)]
    {
      hide Infos;
      TaskFacts(task.handle);
      task.done := true;
      OneInfo(task);
    }

    method IsDone(handle: Handle) returns (done: bool)
      requires Valid()
      ensures done == (handle in Value().tasks && Value().tasks[handle].done)
    {
      var task := FindTask(handle);
      TaskFacts(handle);
      done := handle != 0 && task != null && task.done;
    }

    // ---- Tokens ----

    method FindBinding(token: int) returns (binding: TokenBinding?)
      requires BindsOk()
      ensures binding == if token in byToken then byToken[token] else null
    {
      binding := tokenBindings;
      ghost var i := 0;
      while binding != null
        invariant 0 <= i <= |binds| && binding == BindingAt(binds, i)
        invariant forall k :: 0 <= k < i ==> binds[k].token != token
        decreases |binds| - i
      {
        if binding.token == token {
          return;
        }
        binding := binding.next;
        i := i + 1;
      }
    }

    method Resolve(token: int) returns (handle: Handle)
      requires Valid()
      ensures handle == CoroSpec.Resolve(Value(), token)
    {
      var binding := FindBinding(token);
      handle := if binding != null then binding.taskHandle else token;
    }

    method BindToken(handle: Handle, token: int) returns (ok: bool)
      requires Valid()
      modifies this`tokenBindings, this`binds, this`byToken, binds`taskHandle
      ensures Valid() && Value() == CoroSpec.BindToken(old(Value()), handle, token)
      ensures ok == (token != 0 && Schedulable(old(Value()), handle))
      ensures forall b :: b in binds ==> b in old(binds) || fresh(b)
    {
      hide TasksOk, BindsOk, AllIndexed, BindsIndexed, NoneOutlives, Infos, Handles, Bound;
      var task := FindTask(handle);
      TaskFacts(handle);
      if handle == 0 || token == 0 || task == null || task.done {
        return false;
      }
      Bind(handle, token);
      ok := true;
    }

    method Bind(handle: Handle, token: int)
      requires BindsOk() && NoneOutlives() && handle in byHandle && token != 0
      modifies this`tokenBindings, this`binds, this`byToken, binds`taskHandle
      ensures BindsOk() && NoneOutlives()
      ensures Bound() == old(Bound())[token := handle]
      ensures forall b :: b in binds ==> b in old(binds) || fresh(b)
    {
      var binding := FindBinding(token);
      if binding != null {
        assert binding in binds;
        assert forall t :: t in byToken ==> byToken[t].token == t;
        binding.taskHandle := handle;
        assert Bound() == old(Bound())[token := handle];
      } else {
        PrependBinding(handle, token);
      }
    }

    method PrependBinding(handle: Handle, token: int)
      requires BindsOk() && NoneOutlives() && handle in byHandle && token != 0 && token !in byToken
      modifies this`tokenBindings, this`binds, this`byToken
      ensures BindsOk() && NoneOutlives()
      ensures Bound() == old(Bound())[token := handle]
      ensures forall b :: b in binds ==> b in old(binds) || fresh(b)
    {
      ghost var before := binds;
      assert forall b :: b in before ==> b.token in byToken;
      var created := new TokenBinding(token, handle, tokenBindings);
      tokenBindings := created;
      binds := [created] + before;
      byToken := byToken[token := created];
      assert forall i :: 1 <= i < |binds| ==> binds[i] == before[i - 1];
      assert forall b :: b in before ==> b in binds;
      assert forall b :: b in binds ==> b == created || b in before;
    }

    // ---- Destroying a task ----

    /** Unlink the task from the list of all tasks; null if it is not there. */
    method UnlinkTask(handle: Handle) returns (target: CoroTask?)
      requires AllLinked() && AllIndexed()
      modifies this`allHead, this`all, this`byHandle, all`nextAll
      ensures AllLinked() && AllIndexed()
      ensures target == if handle in old(byHandle) then old(byHandle)[handle] else null
      ensures target == null ==> all == old(all) && byHandle == old(byHandle)
      ensures target != null ==> byHandle == old(byHandle) - {handle}
      ensures forall t :: t in all ==> t in old(all) && t != target
      ensures forall t :: t in old(all) && t != target ==> t in all
    {
      var prev: CoroTask? := null;
      target := allHead;
      ghost var i := 0;
      while target != null && target.handle != handle
        invariant 0 <= i <= |all| && target == TaskAt(all, i)
        invariant prev == if i == 0 then null else all[i - 1]
        invariant forall k :: 0 <= k < i ==> all[k].handle != handle
        decreases |all| - i
        modifies {}
      {
        prev := target;
        target := target.nextAll;
        i := i + 1;
      }
      if target != null {
        UnlinkTaskAt(i, prev, target);
      } else {
        assert forall t :: t in all ==> t.handle != handle;
      }
    }

    method UnlinkTaskAt(ghost i: nat, prev: CoroTask?, target: CoroTask)
      requires AllLinked() && AllIndexed() && i < |all| && target == all[i]
      requires prev == if i == 0 then null else all[i - 1]
      modifies this`allHead, this`all, this`byHandle, all`nextAll
      ensures AllLinked() && AllIndexed()
      ensures byHandle == old(byHandle) - {target.handle}
      ensures forall t :: t in all ==> t in old(all) && t != target
      ensures forall t :: t in old(all) && t != target ==> t in all
    {
      ghost var before := all;
      assert target in before && (prev != null ==> prev in before);
      if prev == null {
        allHead := target.nextAll;
      } else {
        prev.nextAll := target.nextAll;
      }
      all := before[..i] + before[i + 1..];
      byHandle := byHandle - {target.handle};
      DropAt(before, i);
    }

    /** Unlink the task from the ready list if it is there, moving the tail back when it was last. */
    method UnlinkReady(target: CoroTask)
      requires ReadyLinked() && forall t :: t in ready && t.handle == target.handle ==> t == target
      modifies this`readyHead, this`readyTail, this`ready, ready`nextReady
      ensures ReadyLinked()
      ensures Handles(ready) == RemoveFirst(old(Handles(ready)), target.handle)
      ensures forall t :: t in ready ==> t in old(ready) && t != target
      ensures forall t :: t in old(ready) && t != target ==> t in ready
    {
      var cursor := readyHead;
      var prev: CoroTask? := null;
      ghost var i := 0;
      while cursor != null && cursor != target
        invariant 0 <= i <= |ready| && cursor == TaskAt(ready, i)
        invariant prev == if i == 0 then null else ready[i - 1]
        invariant forall k :: 0 <= k < i ==> ready[k] != target
        decreases |ready| - i
        modifies {}
      {
        prev := cursor;
        cursor := cursor.nextReady;
        i := i + 1;
      }
      if cursor != null {
        HandlesDropAt(ready, i);
        UnlinkReadyAt(i, prev, target);
      } else {
        assert forall t :: t in ready ==> t != target;
        HandlesAbsent(ready, target);
      }
    }

    method UnlinkReadyAt(ghost i: nat, prev: CoroTask?, target: CoroTask)
      requires ReadyLinked() && i < |ready| && target == ready[i]
      requires prev == if i == 0 then null else ready[i - 1]
      modifies this`readyHead, this`readyTail, this`ready, ready`nextReady
      ensures ReadyLinked() && ready == old(ready)[..i] + old(ready)[i + 1..]
      ensures forall t :: t in ready ==> t in old(ready) && t != target
      ensures forall t :: t in old(ready) && t != target ==> t in ready
    {
      ghost var before := ready;
      assert target in before && (prev != null ==> prev in before);
      if prev == null {
        readyHead := target.nextReady;
      } else {
        prev.nextReady := target.nextReady;
      }
      if readyTail == target {
        readyTail := prev;
      }
      ready := before[..i] + before[i + 1..];
      DropAt(before, i);
      Relinked(before, i);
    }

    /** Node i's predecessor links past it, every other node to its successor. */
    lemma Relinked(q: seq<CoroTask>, i: nat)
      requires NoDup(q) && i < |q|
      requires i > 0 ==> q[i - 1].nextReady == TaskAt(q, i + 1)
      requires forall k {:trigger q[k].nextReady} :: 0 <= k < |q| && k != i - 1 ==> q[k].nextReady == TaskAt(q, k + 1)
      ensures var r := q[..i] + q[i + 1..];
        forall k {:trigger r[k].nextReady} :: 0 <= k < |r| ==> r[k].nextReady == TaskAt(r, k + 1)
    {
      var r := q[..i] + q[i + 1..];
      forall k | 0 <= k < |r|
        ensures r[k].nextReady == TaskAt(r, k + 1)
      {
        var j := if k < i then k else k + 1;
        assert r[k] == q[j];
        assert TaskAt(r, k + 1) == if k + 1 < i then q[k + 1] else TaskAt(q, k + 2);
      }
    }

    /** The bindings are those of `tokens`, and those of another task are all still there. */
    ghost predicate Kept(tokens: map<int, Handle>, handle: Handle)
      reads this`byToken, byToken.Values`taskHandle
    {
      && (forall t :: t in byToken ==> t in tokens && byToken[t].taskHandle == tokens[t])
      && (forall t :: t in tokens && tokens[t] != handle ==> t in byToken)
    }

    /** The purge stands before binding i, and the task has none before it. */
    ghost predicate Purging(handle: Handle, i: nat, prev: TokenBinding?, cursor: TokenBinding?)
      reads this`tokenBindings, this`binds, this`byToken, binds`next, binds`taskHandle
    {
      && BindsOk() && i <= |binds| && cursor == BindingAt(binds, i)
      && prev == (if i == 0 then null else binds[i - 1])
      && forall k :: 0 <= k < i ==> binds[k].taskHandle != handle
    }

    /** Unlink and free every binding of the task. */
    method PurgeBindings(handle: Handle)
      requires BindsOk()
      requires forall b :: b in binds ==> b.taskHandle == handle || b.taskHandle in byHandle
      modifies this`tokenBindings, this`binds, this`byToken, binds`next
      ensures BindsOk() && NoneOutlives()
      ensures forall b :: b in binds ==> b in old(binds) && b.taskHandle != handle
      ensures Bound() == map t | t in old(Bound()) && old(Bound())[t] != handle :: old(Bound())[t]
    {
      ghost var tokens := Bound();
      var prev: TokenBinding? := null;
      var cursor := tokenBindings;
      ghost var i := 0;
      while cursor != null
        invariant Purging(handle, i, prev, cursor) && Kept(tokens, handle)
        invariant forall b :: b in binds ==> b in old(binds)
        decreases |binds| - i
      {
        if cursor.taskHandle == handle {
          assert forall k :: 0 <= k < |binds| ==> binds[k] in old(binds);
          cursor := PurgeOne(tokens, handle, i, prev, cursor);
        } else {
          prev := cursor;
          cursor := cursor.next;
          i := i + 1;
        }
      }
      assert forall b :: b in binds ==> b.taskHandle != handle;
      KeptIsBound(tokens, handle);
    }

    lemma KeptIsBound(tokens: map<int, Handle>, handle: Handle)
      requires BindsIndexed() && Kept(tokens, handle) && forall b :: b in binds ==> b.taskHandle != handle
      ensures Bound() == map t | t in tokens && tokens[t] != handle :: tokens[t]
    {
      var left := map t | t in tokens && tokens[t] != handle :: tokens[t];
      forall t | t in byToken
        ensures t in left && Bound()[t] == left[t]
      {
        assert byToken[t] in binds;
      }
      forall t | t in left
        ensures t in Bound()
      {
        assert tokens[t] != handle;
      }
      assert Bound().Keys == left.Keys;
    }

    method PurgeOne(ghost tokens: map<int, Handle>, handle: Handle, ghost i: nat, prev: TokenBinding?, target: TokenBinding)
      returns (next: TokenBinding?)
      requires Purging(handle, i, prev, target) && Kept(tokens, handle) && target.taskHandle == handle
      modifies this`tokenBindings, this`binds, this`byToken, binds`next
      ensures Purging(handle, i, prev, next) && Kept(tokens, handle)
      ensures |binds| == |old(binds)| - 1 && forall b :: b in binds ==> b in old(binds)
    {
      assert target == binds[i] && target in binds;
      assert target.token in byToken && byToken[target.token] == target;
      next := DropBinding(i, prev, target);
      assert forall k :: 0 <= k < i ==> binds[k] == old(binds)[k];
    }

    method DropBinding(ghost i: nat, prev: TokenBinding?, target: TokenBinding) returns (next: TokenBinding?)
      requires BindsOk() && i < |binds| && target == binds[i]
      requires prev == if i == 0 then null else binds[i - 1]
      modifies this`tokenBindings, this`binds, this`byToken, binds`next
      ensures BindsOk()
      ensures binds == old(binds)[..i] + old(binds)[i + 1..] && next == BindingAt(binds, i)
      ensures byToken == old(byToken) - {target.token}
      ensures forall b :: b in binds ==> b in old(binds)
    {
      ghost var before := binds;
      assert target in before && (prev != null ==> prev in before);
      next := target.next;
      if prev == null {
        tokenBindings := next;
      } else {
        prev.next := next;
      }
      binds := before[..i] + before[i + 1..];
      byToken := byToken - {target.token};
      DropAt(before, i);
    }

    method Destroy(handle: Handle) returns (destroyed: bool)
      requires Valid()
      modifies this, all`nextAll, all`nextReady, binds`next
      ensures Valid() && Value() == CoroSpec.Destroy(old(Value()), handle)
      ensures destroyed == (handle in old(Value()).tasks)
    {
      hide TasksOk, BindsOk, AllIndexed, BindsIndexed, NoneOutlives, Infos, Handles, Bound;
      TaskFacts(handle);
      BindingOwners();
      if handle == 0 {
        return false;
      }
      destroyed := DestroyTask(handle);
      if destroyed {
        PurgeBindings(handle);
      }
    }

    lemma BindingOwners()
      requires NoneOutlives()
      ensures forall b :: b in binds ==> b.taskHandle in byHandle
    {
    }

    /** The task leaves both task lists. */
    method DestroyTask(handle: Handle) returns (destroyed: bool)
      requires TasksOk()
      modifies this`allHead, this`all, this`byHandle, this`readyHead, this`readyTail, this`ready, all`nextAll, all`nextReady
      ensures TasksOk()
      ensures destroyed == (handle in old(byHandle))
      ensures !destroyed ==> byHandle == old(byHandle) && Infos() == old(Infos()) && ready == old(ready)
      ensures destroyed ==> byHandle == old(byHandle) - {handle} && Infos() == old(Infos()) - {handle}
      ensures destroyed ==> Handles(ready) == RemoveFirst(old(Handles(ready)), handle)
    {
      hide AllLinked, AllIndexed, ReadyLinked, QueuedIsReady, Infos, Handles;
      QueuedTasks();
      if handle in byHandle {
        ReadyHandles(handle);
      }
      var target := UnlinkTask(handle);
      if target != null {
        assert forall k :: 0 <= k < |ready| ==> ready[k] in old(all);
        UnlinkReady(target);
      }
      destroyed := target != null;
      LeftBoth(target);
      InfosLeft(handle);
      InfosKeys();
    }

    twostate lemma InfosKeys()
      requires old(AllIndexed())
      ensures old(Infos()).Keys == old(byHandle).Keys
    {
    }

    lemma QueuedTasks()
      requires QueuedIsReady()
      ensures forall t :: t in ready ==> t in all && t.queued
      ensures forall t :: t in all && t.queued ==> t in ready
    {
    }

    /** A task that left both lists leaves the queued ones listed exactly. */
    twostate lemma LeftBoth(target: CoroTask?)
      requires old(QueuedIsReady())
      requires forall t :: t in all ==> t in old(all) && t != target
      requires forall t :: t in old(all) && t != target ==> t in all
      requires forall t :: t in ready ==> t in old(ready) && t != target
      requires forall t :: t in old(ready) && t != target ==> t in ready
      requires forall t :: t in old(all) ==> t.queued == old(t.queued)
      ensures QueuedIsReady()
    {
    }

    twostate lemma InfosLeft(handle: Handle)
      requires AllIndexed() && old(AllIndexed()) && byHandle == old(byHandle) - {handle}
      requires forall h :: h in byHandle ==> byHandle[h].Value() == old(byHandle[h].Value())
      ensures Infos() == old(Infos()) - {handle}
    {
      var r := old(Infos()) - {handle};
      assert forall h :: h in r ==> Infos()[h] == r[h];
    }

    /** Handles tell tasks apart. */
    lemma ReadyHandles(handle: Handle)
      requires AllIndexed() && QueuedIsReady() && handle in byHandle
      ensures byHandle[handle].handle == handle
      ensures forall t :: t in ready && t.handle == handle ==> t == byHandle[handle]
    {
    }
  }

  lemma HandlesDropAt(q: seq<CoroTask>, i: nat)
    requires i < |q| && forall k :: 0 <= k < i ==> q[k].handle != q[i].handle
    ensures Handles(q[..i] + q[i + 1..]) == RemoveFirst(Handles(q), q[i].handle)
  {
    var hs := Handles(q);
    assert hs == hs[..i] + [q[i].handle] + hs[i + 1..];
    RemoveFirstSplit(hs[..i], q[i].handle, hs[i + 1..]);
    assert Handles(q[..i] + q[i + 1..]) == hs[..i] + hs[i + 1..];
  }

  lemma HandlesAbsent(q: seq<CoroTask>, target: CoroTask)
    requires forall t :: t in q ==> t.handle != target.handle
    ensures RemoveFirst(Handles(q), target.handle) == Handles(q)
  {
    assert target.handle !in Handles(q);
    RemoveAbsent(Handles(q), target.handle);
  }
}
