/**
 The POSIX reactor's wake list and self-pipe (bin/runtime/async_runtime.c:642-797).
 `post_wake` queues a node under the lock and writes a byte afterwards; `poll` takes a node
 under the lock and reads a byte afterwards. File-descriptor events end a poll like a timeout.
 */
module WakeReactor {
  datatype Wake = Wake(token: int, result: int)

  // ---- The wake list ----

  class WakeNode {
    const wake: Wake
    var next: WakeNode?

    constructor (wake: Wake)
      ensures this.wake == wake && next == null
    {
      this.wake, next := wake, null;
    }
  }

  function NodeAt(q: seq<WakeNode>, i: nat): WakeNode? {
    if i < |q| then q[i] else null
  }

  ghost function Wakes(q: seq<WakeNode>): seq<Wake> {
    seq(|q|, i requires 0 <= i < |q| => q[i].wake)
  }

  class WakeList {
    var wakeHead: WakeNode?
    var wakeTail: WakeNode?
    ghost var nodes: seq<WakeNode>

    ghost predicate Valid()
      reads this, nodes`next
    {
      && wakeHead == NodeAt(nodes, 0)
      && wakeTail == (if nodes == [] then null else nodes[|nodes| - 1])
      && (forall i, j :: 0 <= i < j < |nodes| ==> nodes[i] != nodes[j])
      && forall i {:trigger nodes[i].next} :: 0 <= i < |nodes| ==> nodes[i].next == NodeAt(nodes, i + 1)
    }

    constructor ()
      ensures Valid() && Wakes(nodes) == []
    {
      wakeHead, wakeTail, nodes := null, null, [];
    }

    /** The locked part of post_wake. */
    method Push(wake: Wake)
      requires Valid()
      modifies this, nodes`next
      ensures Valid() && Wakes(nodes) == old(Wakes(nodes)) + [wake]
    {
      var node := new WakeNode(wake);
      if wakeTail != null {
        wakeTail.next := node;
      } else {
        wakeHead := node;
      }
      wakeTail := node;
      nodes := nodes + [node];
    }

    /** The locked part of poll that takes the first node. */
    method Take() returns (node: WakeNode?)
      requires Valid()
      modifies this
      ensures Valid()
      ensures old(nodes) == [] ==> node == null && nodes == []
      ensures old(nodes) != [] ==>
        node != null && node.wake == old(Wakes(nodes))[0] && Wakes(nodes) == old(Wakes(nodes))[1..]
    {
      node := wakeHead;
      if node != null {
        ghost var before := nodes;
        wakeHead := node.next;
        if wakeHead == null {
          wakeTail := null;
        }
        nodes := before[1..];
        assert forall i :: 0 <= i < |nodes| ==> nodes[i] == before[i + 1];
        assert Wakes(nodes) == Wakes(before)[1..];
      }
    }
  }

  // ---- Every interleaving of posters and runners ----

  /**
   Taken: a node is off the list, its byte not yet read. Blocked: inside poll(2). Readable:
   poll(2) reported the pipe. Spurious: the list was empty, a byte is still to be read.
   */
  datatype Runner = Idle | Taken(wake: Wake) | Blocked | Readable | Spurious

  /** `writing` posters have queued their node and not yet written their byte. */
  datatype World = World(wakes: seq<Wake>, bytes: nat, writing: nat, capacity: nat, runners: map<nat, Runner>,
                         posted: seq<Wake>, delivered: seq<Wake>)

  datatype Op =
    | Post(wake: Wake)
    | Write
    | Poll(r: nat)
    | PipeReady(r: nat)
    | GivesUp(r: nat)
    | Take(r: nat)
    | Drain(r: nat)

  predicate Enabled(w: World, op: Op) {
    match op
    case Post(_) => true
    case Write => w.writing > 0 && w.bytes < w.capacity
    case Poll(r) => r in w.runners && w.runners[r] == Idle
    case PipeReady(r) => r in w.runners && w.runners[r] == Blocked && w.bytes > 0
    case GivesUp(r) => r in w.runners && w.runners[r] == Blocked
    case Take(r) => r in w.runners && w.runners[r] == Readable
    case Drain(r) => r in w.runners && (w.runners[r].Taken? || w.runners[r] == Spurious)
  }

  function Grab(w: World, r: nat, otherwise: Runner): World {
    if w.wakes == [] then w.(runners := w.runners[r := otherwise])
    else w.(runners := w.runners[r := Taken(w.wakes[0])], wakes := w.wakes[1..])
  }

  function Step(w: World, op: Op): World
    requires Enabled(w, op)
  {
    match op
    case Post(wake) => w.(wakes := w.wakes + [wake], writing := w.writing + 1, posted := w.posted + [wake])
    case Write => w.(writing := w.writing - 1, bytes := w.bytes + 1)
    case Poll(r) => Grab(w, r, Blocked)
    case PipeReady(r) => w.(runners := w.runners[r := Readable])
    case GivesUp(r) => w.(runners := w.runners[r := Idle])
    case Take(r) => Grab(w, r, Spurious)
    case Drain(r) =>
      w.(bytes := if w.bytes > 0 then w.bytes - 1 else 0,
         runners := w.runners[r := Idle],
         delivered := if w.runners[r].Taken? then w.delivered + [w.runners[r].wake] else w.delivered)
  }

  predicate Start(w: World) {
    && w.wakes == [] && w.bytes == 0 && w.writing == 0 && w.posted == [] && w.delivered == []
    && forall r :: r in w.runners ==> w.runners[r] == Idle
  }

  ghost predicate Legal(w: World, ops: seq<Op>)
    decreases |ops|
  {
    ops == [] || (Enabled(w, ops[0]) && Legal(Step(w, ops[0]), ops[1..]))
  }

  ghost function Exec(w: World, ops: seq<Op>): World
    requires Legal(w, ops)
    decreases |ops|
  {
    if ops == [] then w else Exec(Step(w, ops[0]), ops[1..])
  }

  function InHand(r: Runner): seq<Wake> {
    if r.Taken? then [r.wake] else []
  }

  function OwesRead(r: Runner): nat {
    if r.Taken? || r == Spurious then 1 else 0
  }

  /** With runner 0 alone: every queued node and every owed read is backed by a byte, written or about to be. */
  ghost predicate Inv(w: World) {
    && w.runners.Keys == {0}
    && |w.wakes| + OwesRead(w.runners[0]) <= w.bytes + w.writing
    && (w.runners[0] == Readable ==> w.bytes > 0)
    && w.delivered + InHand(w.runners[0]) + w.wakes == w.posted
  }

  lemma StepKeeps(w: World, op: Op)
    requires Inv(w) && Enabled(w, op)
    ensures Inv(Step(w, op))
  {
    var r := Step(w, op);
    if w.wakes != [] {
      assert [w.wakes[0]] + w.wakes[1..] == w.wakes;
      assert w.delivered + [w.wakes[0]] + w.wakes[1..] == w.delivered + [] + w.wakes;
    }
    if op.Post? {
      assert w.delivered + InHand(w.runners[0]) + (w.wakes + [op.wake]) == (w.delivered + InHand(w.runners[0]) + w.wakes) + [op.wake];
    }
    if op.Drain? {
      assert r.delivered + [] + w.wakes == w.delivered + InHand(w.runners[0]) + w.wakes;
    }
  }

  lemma {:induction false} RunKeeps(w: World, ops: seq<Op>)
    requires Inv(w) && Legal(w, ops)
    ensures Inv(Exec(w, ops))
    decreases |ops|
  {
    if ops != [] {
      StepKeeps(w, ops[0]);
      hide Inv, Step, Enabled;
      RunKeeps(Step(w, ops[0]), ops[1..]);
    }
  }

  /** A lone runner blocked in poll(2) with a wake queued has a readable pipe or a byte on its way. */
  lemma BlockedRunnerWillWake(w: World, ops: seq<Op>)
    requires Start(w) && w.runners.Keys == {0} && Legal(w, ops)
    requires Exec(w, ops).runners.Keys == {0} && Exec(w, ops).runners[0] == Blocked && Exec(w, ops).wakes != []
    ensures Exec(w, ops).bytes > 0 || Exec(w, ops).writing > 0
  {
    RunKeeps(w, ops);
  }

  /** Wakes are delivered exactly once and in the order they were posted. */
  lemma DeliveredInOrder(w: World, ops: seq<Op>)
    requires Start(w) && w.runners.Keys == {0} && Legal(w, ops)
    ensures Exec(w, ops).runners.Keys == {0}
    ensures var e := Exec(w, ops); e.delivered + InHand(e.runners[0]) + e.wakes == e.posted
  {
    RunKeeps(w, ops);
  }

  /**
   A poll takes the oldest wake whenever there is one, before and after waiting, and blocks exactly
   when there is none; a runner that has waited reads one byte and hands out what it took, if
   anything. Other runners are not touched.
   */
  lemma RunnerCases(w: World, r: nat, other: nat)
    ensures Enabled(w, Poll(r)) ==>
      var n := Step(w, Poll(r));
      && n.runners[r] == (if w.wakes != [] then Taken(w.wakes[0]) else Blocked)
      && n == w.(wakes := if w.wakes != [] then w.wakes[1..] else [], runners := n.runners)
    ensures Enabled(w, Take(r)) ==>
      var n := Step(w, Take(r));
      && n.runners[r] == (if w.wakes != [] then Taken(w.wakes[0]) else Spurious)
      && n == w.(wakes := if w.wakes != [] then w.wakes[1..] else [], runners := n.runners)
    ensures Enabled(w, Drain(r)) ==>
      var n := Step(w, Drain(r));
      && n.runners[r] == Idle && n.bytes == (if w.bytes > 0 then w.bytes - 1 else 0) && n.wakes == w.wakes
      && n.delivered == w.delivered + InHand(w.runners[r]) && n.posted == w.posted && n.writing == w.writing
    ensures forall op :: Enabled(w, op) && other in w.runners && (op.Post? || op.Write? || op.r != other) ==>
      other in Step(w, op).runners && Step(w, op).runners[other] == w.runners[other]
  {
  }

  // ---- Why the runner must be alone ----

  const RACE: seq<Op> := [Poll(0), Poll(1), Post(Wake(1, 0)), Write, PipeReady(0), PipeReady(1), Take(0), Take(1),
                          Drain(0), Poll(0), Post(Wake(2, 0)), Write, Drain(1)]

  function Stage(i: nat): World {
    var a, b := Wake(1, 0), Wake(2, 0);
    match i
    case 0 => World([], 0, 0, 64, map[0 := Idle, 1 := Idle], [], [])
    case 1 => World([], 0, 0, 64, map[0 := Blocked, 1 := Idle], [], [])
    case 2 => World([], 0, 0, 64, map[0 := Blocked, 1 := Blocked], [], [])
    case 3 => World([a], 0, 1, 64, map[0 := Blocked, 1 := Blocked], [a], [])
    case 4 => World([a], 1, 0, 64, map[0 := Blocked, 1 := Blocked], [a], [])
    case 5 => World([a], 1, 0, 64, map[0 := Readable, 1 := Blocked], [a], [])
    case 6 => World([a], 1, 0, 64, map[0 := Readable, 1 := Readable], [a], [])
    case 7 => World([], 1, 0, 64, map[0 := Taken(a), 1 := Readable], [a], [])
    case 8 => World([], 1, 0, 64, map[0 := Taken(a), 1 := Spurious], [a], [])
    case 9 => World([], 0, 0, 64, map[0 := Idle, 1 := Spurious], [a], [a])
    case 10 => World([], 0, 0, 64, map[0 := Blocked, 1 := Spurious], [a], [a])
    case 11 => World([b], 0, 1, 64, map[0 := Blocked, 1 := Spurious], [a, b], [a])
    case 12 => World([b], 1, 0, 64, map[0 := Blocked, 1 := Spurious], [a, b], [a])
    case _ => World([b], 0, 0, 64, map[0 := Blocked, 1 := Idle], [a, b], [a])
  }

  lemma StageSteps(i: nat)
    requires i < 13
    ensures Enabled(Stage(i), RACE[i]) && Step(Stage(i), RACE[i]) == Stage(i + 1)
  {
  }

  lemma {:induction false} StageRuns(i: nat)
    requires i <= 13
    ensures Legal(Stage(i), RACE[i..]) && Exec(Stage(i), RACE[i..]) == Stage(13)
    decreases 13 - i
  {
    hide Stage, Step, Enabled;
    if i < 13 {
      StageSteps(i);
      assert RACE[i..][0] == RACE[i] && RACE[i..][1..] == RACE[i + 1..];
      StageRuns(i + 1);
    }
  }

  /** With two runners the guarantee fails: a runner can block on an empty pipe with a wake queued. */
  lemma TwoRunnersLoseAWake()
    ensures Start(Stage(0)) && Legal(Stage(0), RACE)
    ensures var e := Exec(Stage(0), RACE);
      0 in e.runners && e.runners[0] == Blocked && e.wakes != [] && e.bytes == 0 && e.writing == 0
  {
    hide Legal, Exec;
    StageRuns(0);
    assert RACE[0..] == RACE;
  }
}
