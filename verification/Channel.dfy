/** The MPMC channel's lock-held sections on its ring buffer (bin/runtime/meth_thread.c:266-459). */
module ChannelSpec {

  /** cap == 0 until the first send of a channel created without a capacity. */
  datatype Chan = Chan(cap: nat, items: seq<int>, closed: bool)

  const FIRST_GROWTH: nat := 16

  predicate SendBlocks(c: Chan) {
    c.cap > 0 && |c.items| >= c.cap && !c.closed
  }

  predicate RecvBlocks(c: Chan) {
    c.items == [] && !c.closed
  }

  /** An accepted send; the only growth left to it is the first one. */
  function Accept(c: Chan, value: int): Chan {
    Chan(if c.cap == 0 then FIRST_GROWTH else c.cap, c.items + [value], c.closed)
  }

  function Deliver(c: Chan): Chan
    requires c.items != []
  {
    c.(items := c.items[1..])
  }
}

module Channel {
  import opened ChannelSpec
  import opened RingIndex

  datatype SendPass = Sent | Refused | MustWait

  datatype RecvPass = Got(value: int) | Nothing | MustWaitForItem

  class MethChannel {
    var buf: array?<int>
    var cap: nat
    var len: nat
    var head: nat
    var tail: nat
    var closed: bool
    ghost var items: seq<int>

    ghost predicate Valid()
      reads this, buf
    {
      && len == |items|
      && (cap == 0 ==> buf == null && len == 0 && head == 0 && tail == 0)
      && (cap > 0 ==>
            && buf != null && buf.Length == cap && len <= cap && head < cap
            && tail == Slot(head, len, cap)
            && forall i :: 0 <= i < len ==> buf[Slot(head, i, cap)] == items[i])
    }

    ghost function Value(): Chan
      reads this
    {
      Chan(cap, items, closed)
    }

    constructor (capacity: int)
      ensures Valid() && Value() == Chan(if capacity > 0 then capacity else 0, [], false)
    {
      if capacity > 0 {
        buf := new int[capacity];
        cap := capacity;
      } else {
        buf := null;
        cap := 0;
      }
      len, head, tail, closed, items := 0, 0, 0, false, [];
    }

    /** Double the buffer (16 at first) and lay the items out from index 0. */
    method Grow()
      requires Valid()
      modifies this`buf, this`cap, this`head, this`tail
      ensures Valid() && items == old(items) && len < cap && cap == (if old(cap) == 0 then FIRST_GROWTH else old(cap) * 2)
      ensures fresh(buf)
    {
      var newCap := if cap == 0 then FIRST_GROWTH else cap * 2;
      var newBuf := new int[newCap];
      var i := 0;
      while i < len
        invariant 0 <= i <= len
        invariant forall k :: 0 <= k < i ==> newBuf[k] == items[k]
        modifies newBuf
      {
        SlotIsMod(head, i, cap);
        newBuf[i] := buf[(head + i) % (if cap > 0 then cap else 1)];
        i := i + 1;
      }
      buf, cap, head, tail := newBuf, newCap, 0, len;
      assert forall k :: 0 <= k < len ==> Slot(head, k, cap) == k;
    }

    /** One pass of send: from taking the lock, or from waking, to releasing it. */
    method SendSection(value: int) returns (pass: SendPass)
      requires Valid()
      modifies this, buf
      ensures Valid()
      ensures pass == MustWait <==> old(cap) > 0 && |old(items)| == old(cap) && !old(closed)
      ensures pass == Refused <==> old(closed)
      ensures Value() == if pass == Sent then Accept(old(Value()), value) else old(Value())
    {
      if cap > 0 {
        if len >= cap && !closed {
          return MustWait;
        }
      }
      if closed {
        return Refused;
      }
      if cap == 0 || len >= cap {
        Grow();
      }
      Store(value);
      pass := Sent;
    }

    method Store(value: int)
      requires Valid() && cap > 0 && len < cap
      modifies this`tail, this`len, this`items, buf
      ensures Valid() && items == old(items) + [value]
    {
      SlotIsMod(head, len, cap);
      buf[tail] := value;
      var next := (tail + 1) % cap;
      SlotIsMod(tail, 1, cap);
      assert next == Slot(head, len + 1, cap);
      tail := next;
      len := len + 1;
      items := items + [value];
    }

    /** Take the first item off the ring. */
    method Fetch() returns (value: int)
      requires Valid() && len > 0
      modifies this`head, this`len, this`items
      ensures Valid() && value == old(items)[0] && items == old(items)[1..]
    {
      value := buf[head];
      assert Slot(head, 0, cap) == head;
      SlotIsMod(head, 1, cap);
      var next := (head + 1) % (if cap > 0 then cap else 1);
      assert forall i :: 0 <= i < len ==> Slot(next, i, cap) == Slot(head, i + 1, cap);
      head := next;
      len := len - 1;
      items := items[1..];
    }

    /** One pass of recv. */
    method RecvSection() returns (pass: RecvPass)
      requires Valid()
      modifies this
      ensures Valid()
      ensures pass == MustWaitForItem <==> old(items) == [] && !old(closed)
      ensures pass == Nothing <==> old(items) == [] && old(closed)
      ensures old(items) != [] ==> pass == Got(old(items)[0])
      ensures Value() == if pass.Got? then Deliver(old(Value())) else old(Value())
    {
      if len == 0 && !closed {
        return MustWaitForItem;
      }
      if len > 0 {
        var value := Fetch();
        return Got(value);
      }
      return Nothing;
    }

    method TryRecv() returns (pass: RecvPass)
      requires Valid()
      modifies this
      ensures Valid()
      ensures pass == if old(items) != [] then Got(old(items)[0]) else Nothing
      ensures Value() == if pass.Got? then Deliver(old(Value())) else old(Value())
    {
      if len > 0 {
        var value := Fetch();
        return Got(value);
      }
      return Nothing;
    }

    method Close()
      requires Valid()
      modifies this`closed
      ensures Valid() && Value() == old(Value()).(closed := true)
    {
      closed := true;
    }
  }
}

/** Senders and receivers sleeping on the two condition variables, in every interleaving. */
module ChannelWaits {
  import opened ChannelSpec

  /**
   Sleeping and woken threads of each side; a woken thread has been signalled (or woke by
   itself) and has not run yet. `sent` and `received` are history.
   */
  datatype World = World(
    chan: Chan,
    sleepingReceivers: set<nat>, wokenReceivers: set<nat>,
    sleepingSenders: set<nat>, wokenSenders: set<nat>,
    sent: seq<int>, received: seq<int>)

  /** `pick` is the sleeper a signal wakes, if there is any. */
  datatype Op =
    | Send(t: nat, value: int, pick: nat)
    | Recv(t: nat, pick: nat)
    | TryRecv(pick: nat)
    | Close
    | Spurious(t: nat)

  /** Thread t may run a send: it is new to the channel or a woken sender. */
  predicate Enabled(w: World, op: Op) {
    match op
    case Send(t, _, pick) =>
      && t !in w.sleepingReceivers + w.wokenReceivers + w.sleepingSenders
      && (w.sleepingReceivers != {} ==> pick in w.sleepingReceivers)
    case Recv(t, pick) =>
      && t !in w.sleepingSenders + w.wokenSenders + w.sleepingReceivers
      && (w.sleepingSenders != {} ==> pick in w.sleepingSenders)
    case TryRecv(pick) => w.sleepingSenders != {} ==> pick in w.sleepingSenders
    case Close => true
    case Spurious(t) => true
  }

  function SignalReceiver(w: World, pick: nat): World {
    if w.sleepingReceivers == {} then w
    else w.(sleepingReceivers := w.sleepingReceivers - {pick}, wokenReceivers := w.wokenReceivers + {pick})
  }

  function SignalSender(w: World, pick: nat): World {
    if w.sleepingSenders == {} then w
    else w.(sleepingSenders := w.sleepingSenders - {pick}, wokenSenders := w.wokenSenders + {pick})
  }

  function Take(w: World, pick: nat): World
    requires w.chan.items != []
  {
    SignalSender(w.(chan := Deliver(w.chan), received := w.received + [w.chan.items[0]]), pick)
  }

  function Step(w: World, op: Op): World
    requires Enabled(w, op)
  {
    match op
    case Send(t, value, pick) =>
      var w1 := w.(wokenSenders := w.wokenSenders - {t});
      if SendBlocks(w.chan) then w1.(sleepingSenders := w.sleepingSenders + {t})
      else if w.chan.closed then w1
      else SignalReceiver(w1.(chan := Accept(w.chan, value), sent := w.sent + [value]), pick)
    case Recv(t, pick) =>
      var w1 := w.(wokenReceivers := w.wokenReceivers - {t});
      if RecvBlocks(w.chan) then w1.(sleepingReceivers := w.sleepingReceivers + {t})
      else if w.chan.items != [] then Take(w1, pick)
      else w1
    case TryRecv(pick) => if w.chan.items != [] then Take(w, pick) else w
    case Close =>
      w.(chan := w.chan.(closed := true),
         sleepingReceivers := {}, wokenReceivers := w.wokenReceivers + w.sleepingReceivers,
         sleepingSenders := {}, wokenSenders := w.wokenSenders + w.sleepingSenders)
    case Spurious(t) =>
      if t in w.sleepingReceivers then
        w.(sleepingReceivers := w.sleepingReceivers - {t}, wokenReceivers := w.wokenReceivers + {t})
      else if t in w.sleepingSenders then
        w.(sleepingSenders := w.sleepingSenders - {t}, wokenSenders := w.wokenSenders + {t})
      else w
  }

  function Start(capacity: nat): World {
    World(Chan(capacity, [], false), {}, {}, {}, {}, [], [])
  }

  ghost predicate Legal(w: World, ops: seq<Op>)
    decreases |ops|
  {
    ops == [] || (Enabled(w, ops[0]) && Legal(Step(w, ops[0]), ops[1..]))
  }

  ghost function Exec(w: World, ops: seq<Op>): World
    requires Legal(w, ops)
    decreases |ops|
  {
    if ops == [] then w else Exec(Step(w, ops[0]), ops[1..])
  }

  /** Every available item has a woken receiver coming for it, or nobody sleeps; likewise for room. */
  ghost predicate Inv(w: World) {
    && w.sleepingReceivers !! w.wokenReceivers && w.sleepingSenders !! w.wokenSenders
    && (w.sleepingReceivers != {} ==> !w.chan.closed && |w.chan.items| <= |w.wokenReceivers|)
    && (w.sleepingSenders != {} ==>
          !w.chan.closed && w.chan.cap > 0 && w.chan.cap - |w.chan.items| <= |w.wokenSenders|)
    && |w.chan.items| <= w.chan.cap
    && w.received + w.chan.items == w.sent
  }

  lemma OneLess(s: set<nat>, t: nat)
    ensures |s - {t}| >= |s| - 1
  {
  }

  lemma OneMore(s: set<nat>, t: nat)
    requires t !in s
    ensures |s + {t}| == |s| + 1
  {
  }

  lemma AcceptKeeps(w: World, value: int, pick: nat)
    requires w.sleepingReceivers !! w.wokenReceivers && w.sleepingSenders !! w.wokenSenders
    requires !SendBlocks(w.chan) && !w.chan.closed && |w.chan.items| <= w.chan.cap
    requires w.sleepingReceivers != {} ==> pick in w.sleepingReceivers && |w.chan.items| <= |w.wokenReceivers|
    requires w.sleepingSenders != {} ==> w.chan.cap > 0 && w.chan.cap - |w.chan.items| <= |w.wokenSenders| + 1
    requires w.received + w.chan.items == w.sent
    ensures Inv(SignalReceiver(w.(chan := Accept(w.chan, value), sent := w.sent + [value]), pick))
  {
    if w.sleepingReceivers != {} {
      OneMore(w.wokenReceivers, pick);
    }
    assert w.received + (w.chan.items + [value]) == (w.received + w.chan.items) + [value];
  }

  lemma SendKeeps(w: World, t: nat, value: int, pick: nat)
    requires Inv(w) && Enabled(w, Send(t, value, pick))
    ensures Inv(Step(w, Send(t, value, pick)))
  {
    OneLess(w.wokenSenders, t);
    if !SendBlocks(w.chan) && !w.chan.closed {
      var w1 := w.(wokenSenders := w.wokenSenders - {t});
      AcceptKeeps(w1, value, pick);
      hide SignalReceiver, Accept, Inv;
    }
  }

  lemma TakeKeeps(w: World, pick: nat)
    requires w.chan.items != []
    requires w.sleepingReceivers !! w.wokenReceivers && w.sleepingSenders !! w.wokenSenders
    requires w.sleepingReceivers != {} ==> !w.chan.closed && |w.chan.items| <= |w.wokenReceivers| + 1
    requires w.sleepingSenders != {} ==>
      pick in w.sleepingSenders && !w.chan.closed && w.chan.cap > 0 && w.chan.cap - |w.chan.items| <= |w.wokenSenders|
    requires |w.chan.items| <= w.chan.cap && w.received + w.chan.items == w.sent
    ensures Inv(Take(w, pick))
  {
    if w.sleepingSenders != {} {
      OneMore(w.wokenSenders, pick);
    }
    assert w.received + [w.chan.items[0]] + w.chan.items[1..] == w.received + w.chan.items;
  }

  lemma RecvKeeps(w: World, t: nat, pick: nat)
    requires Inv(w) && Enabled(w, Recv(t, pick))
    ensures Inv(Step(w, Recv(t, pick)))
  {
    OneLess(w.wokenReceivers, t);
    if w.chan.items != [] {
      TakeKeeps(w.(wokenReceivers := w.wokenReceivers - {t}), pick);
      hide Take, Inv;
    }
  }

  lemma SpuriousKeeps(w: World, t: nat)
    requires Inv(w)
    ensures Inv(Step(w, Spurious(t)))
  {
    if t in w.sleepingReceivers {
      OneMore(w.wokenReceivers, t);
    } else if t in w.sleepingSenders {
      OneMore(w.wokenSenders, t);
    }
  }

  lemma TryRecvKeeps(w: World, pick: nat)
    requires Inv(w) && Enabled(w, TryRecv(pick))
    ensures Inv(Step(w, TryRecv(pick)))
  {
    if w.chan.items != [] {
      TakeKeeps(w, pick);
      hide Take, Inv;
    }
  }

  lemma StepKeeps(w: World, op: Op)
    requires Inv(w) && Enabled(w, op)
    ensures Inv(Step(w, op))
  {
    hide *;
    match op {
      case Send(t, value, pick) => SendKeeps(w, t, value, pick);
      case Recv(t, pick) => RecvKeeps(w, t, pick);
      case TryRecv(pick) => TryRecvKeeps(w, pick);
      case Close => CloseKeeps(w);
      case Spurious(t) => SpuriousKeeps(w, t);
    }
  }

  lemma CloseKeeps(w: World)
    requires Inv(w)
    ensures Inv(Step(w, Close))
  {
  }

  lemma {:induction false} RunKeeps(w: World, ops: seq<Op>)
    requires Inv(w) && Legal(w, ops)
    ensures Inv(Exec(w, ops))
    decreases |ops|
  {
    if ops != [] {
      StepKeeps(w, ops[0]);
      hide Inv, Step, Enabled;
      RunKeeps(Step(w, ops[0]), ops[1..]);
    }
  }

  /** No wake-up is lost, in any run of any channel. */
  lemma NoLostWakeups(capacity: nat, ops: seq<Op>)
    requires Legal(Start(capacity), ops)
    ensures var w := Exec(Start(capacity), ops);
      && (w.sleepingReceivers != {} ==> |w.chan.items| <= |w.wokenReceivers|)
      && (w.sleepingSenders != {} ==> w.chan.cap - |w.chan.items| <= |w.wokenSenders|)
      && (w.chan.closed ==> w.sleepingReceivers == {} && w.sleepingSenders == {})
  {
    RunKeeps(Start(capacity), ops);
  }

  /** What was received, then what is buffered, is what was sent. */
  lemma FirstInFirstOut(capacity: nat, ops: seq<Op>)
    requires Legal(Start(capacity), ops)
    ensures Exec(Start(capacity), ops).received + Exec(Start(capacity), ops).chan.items == Exec(Start(capacity), ops).sent
    ensures |Exec(Start(capacity), ops).chan.items| <= Exec(Start(capacity), ops).chan.cap
  {
    RunKeeps(Start(capacity), ops);
  }

  // ---- Who waits, and what a pass does ----

  /**
   A receiver goes to sleep exactly on an open, empty channel. Otherwise it takes the oldest
   item; it comes back with nothing only from a closed, empty channel.
   */
  lemma ReceiverSleepsIff(w: World, t: nat, pick: nat)
    requires Enabled(w, Recv(t, pick))
    ensures var r := Step(w, Recv(t, pick));
      && (t in r.sleepingReceivers <==> w.chan.items == [] && !w.chan.closed)
      && (w.chan.items != [] ==> r.received == w.received + [w.chan.items[0]] && r.chan == w.chan.(items := w.chan.items[1..]))
      && (w.chan.items == [] ==> r.received == w.received && r.chan == w.chan)
      && (t !in r.sleepingReceivers && r.received == w.received <==> w.chan.items == [] && w.chan.closed)
      && r.sent == w.sent
  {
  }

  /**
   A sender goes to sleep exactly on an open channel that has its capacity and is full. On any
   other open channel its value is stored behind the others, on a closed one it is refused.
   */
  lemma SenderSleepsIff(w: World, t: nat, value: int, pick: nat)
    requires Inv(w) && Enabled(w, Send(t, value, pick))
    ensures var r := Step(w, Send(t, value, pick));
      && (t in r.sleepingSenders <==> !w.chan.closed && w.chan.cap > 0 && |w.chan.items| == w.chan.cap)
      && (t !in r.sleepingSenders && !w.chan.closed <==> r.sent == w.sent + [value])
      && (r.sent == w.sent + [value] ==>
            r.chan == Chan(if w.chan.cap == 0 then 16 else w.chan.cap, w.chan.items + [value], false))
      && (r.sent != w.sent + [value] ==> r.sent == w.sent && r.chan == w.chan)
      && r.received == w.received
  {
    assert |w.sent + [value]| == |w.sent| + 1;
  }

  /** One value stored wakes one sleeping receiver, one value taken wakes one sleeping sender, if there is one. */
  lemma OneWakesOne(w: World, t: nat, value: int, pick: nat)
    ensures Enabled(w, Send(t, value, pick)) ==>
      var r := Step(w, Send(t, value, pick));
      r.sleepingReceivers == w.sleepingReceivers - (if r.sent != w.sent && w.sleepingReceivers != {} then {pick} else {})
    ensures Enabled(w, Recv(t, pick)) ==>
      var r := Step(w, Recv(t, pick));
      r.sleepingSenders == w.sleepingSenders - (if r.received != w.received && w.sleepingSenders != {} then {pick} else {})
    ensures Enabled(w, TryRecv(pick)) ==>
      var r := Step(w, TryRecv(pick));
      && r.sleepingSenders == w.sleepingSenders - (if w.chan.items != [] && w.sleepingSenders != {} then {pick} else {})
      && r.received == w.received + (if w.chan.items != [] then [w.chan.items[0]] else [])
      && r.chan == w.chan.(items := if w.chan.items != [] then w.chan.items[1..] else [])
      && r.sleepingReceivers == w.sleepingReceivers
  {
    assert |w.sent + [value]| == |w.sent| + 1;
    if w.chan.items != [] {
      assert |w.received + [w.chan.items[0]]| == |w.received| + 1;
    }
  }

  /** Closing keeps the items and wakes every sleeper; nothing opens the channel again. */
  lemma CloseWakesAll(w: World)
    ensures var r := Step(w, Close);
      && r.chan == Chan(w.chan.cap, w.chan.items, true) && r.sent == w.sent && r.received == w.received
      && r.sleepingReceivers == {} && r.wokenReceivers == w.wokenReceivers + w.sleepingReceivers
      && r.sleepingSenders == {} && r.wokenSenders == w.wokenSenders + w.sleepingSenders
    ensures forall op :: Enabled(w, op) && w.chan.closed ==> Step(w, op).chan.closed
  {
  }

  /** A thread inside a call that does not run itself stays asleep or woken; waking by itself is being woken. */
  lemma NobodyIsLost(w: World, op: Op, x: nat)
    requires Enabled(w, op)
    ensures var r := Step(w, op);
      && (x in w.sleepingReceivers + w.wokenReceivers && !(op.Recv? && op.t == x) ==>
            x in r.sleepingReceivers + r.wokenReceivers)
      && (x in w.sleepingSenders + w.wokenSenders && !(op.Send? && op.t == x) ==> x in r.sleepingSenders + r.wokenSenders)
      && (x in w.wokenReceivers && !(op.Recv? && op.t == x) ==> x in r.wokenReceivers)
      && (x in w.wokenSenders && !(op.Send? && op.t == x) ==> x in r.wokenSenders)
      && (op == Spurious(x) ==> x !in r.sleepingReceivers && (x in w.sleepingReceivers || x !in r.sleepingSenders))
  {
  }

  /** A receiver that came first sleeps until the sender wakes it, and then gets the value. */
  lemma Handover(capacity: nat, receiver: nat, sender: nat, value: int)
    requires receiver != sender
    ensures var ops := [Recv(receiver, 0), Send(sender, value, receiver), Recv(receiver, 0)];
      && Legal(Start(capacity), ops[..1]) && receiver in Exec(Start(capacity), ops[..1]).sleepingReceivers
      && Legal(Start(capacity), ops) && Exec(Start(capacity), ops).received == [value]
  {
    var ops := [Recv(receiver, 0), Send(sender, value, receiver), Recv(receiver, 0)];
    var w1 := Step(Start(capacity), ops[0]);
    var w2 := Step(w1, ops[1]);
    var w3 := Step(w2, ops[2]);
    assert ops[1..] == [ops[1], ops[2]] && ops[1..][1..] == [ops[2]] && ops[1..][1..][1..] == [];
    assert Legal(w3, []) && Exec(w3, []) == w3;
    assert Legal(w2, [ops[2]]) && Exec(w2, [ops[2]]) == w3;
    assert Legal(w1, ops[1..]) && Exec(w1, ops[1..]) == w3;
    assert ops[..1] == [ops[0]];
    assert Legal(w1, ops[..1][1..]) && Exec(w1, ops[..1][1..]) == w1;
    assert w3.received == [] + [value];
  }

  // ---- "Unbounded" channels ----

  lemma {:induction false} CapacityOnlySetOnce(w: World, ops: seq<Op>)
    requires Legal(w, ops)
    ensures Exec(w, ops).chan.cap == w.chan.cap || (w.chan.cap == 0 && Exec(w, ops).chan.cap == FIRST_GROWTH)
    decreases |ops|
  {
    if ops != [] {
      assert Step(w, ops[0]).chan.cap == w.chan.cap || (w.chan.cap == 0 && Step(w, ops[0]).chan.cap == FIRST_GROWTH);
      CapacityOnlySetOnce(Step(w, ops[0]), ops[1..]);
    }
  }

  /** A channel created with capacity 0 blocks a send exactly when it is open and holds 16 items. */
  lemma ZeroCapacityBlocksIff(ops: seq<Op>)
    requires Legal(Start(0), ops)
    ensures var c := Exec(Start(0), ops).chan;
      SendBlocks(c) <==> |c.items| == FIRST_GROWTH && !c.closed
  {
    CapacityOnlySetOnce(Start(0), ops);
    RunKeeps(Start(0), ops);
  }

  function Sends(n: nat): seq<Op> {
    if n == 0 then [] else [Send(0, n, 0)] + Sends(n - 1)
  }

  lemma {:induction false} SendsFill(w: World, n: nat)
    requires w.sleepingReceivers == {} && w.wokenReceivers == {} && w.sleepingSenders == {} && w.wokenSenders == {}
    requires !w.chan.closed && |w.chan.items| + n <= FIRST_GROWTH
    requires w.chan.cap == FIRST_GROWTH || (w.chan.cap == 0 && w.chan.items == [])
    ensures Legal(w, Sends(n)) && |Exec(w, Sends(n)).chan.items| == |w.chan.items| + n
    ensures !Exec(w, Sends(n)).chan.closed
    decreases n
  {
    if n > 0 {
      assert Sends(n)[0] == Send(0, n, 0) && Sends(n)[1..] == Sends(n - 1);
      SendsFill(Step(w, Send(0, n, 0)), n - 1);
    }
  }

  /** Sixteen sends fill it, so the seventeenth waits for a receiver. */
  lemma SeventeenthSendBlocks()
    ensures Legal(Start(0), Sends(16)) && SendBlocks(Exec(Start(0), Sends(16)).chan)
  {
    SendsFill(Start(0), 16);
    ZeroCapacityBlocksIff(Sends(16));
  }
}
