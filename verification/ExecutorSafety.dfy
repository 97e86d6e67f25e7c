/** The invariant of the executor's transition system and its preservation by every section. */
module ExecutorSafety {
  import opened Lists
  import opened ExecutorSpec
  import opened ExecutorMachine

  // ---- Sequences without some elements ----

  ghost function Without<H>(q: seq<H>, drop: set<H>): seq<H> {
    if q == [] then [] else if q[0] in drop then Without(q[1..], drop) else [q[0]] + Without(q[1..], drop)
  }

  lemma {:induction false} WithoutConcat<H>(a: seq<H>, b: seq<H>, drop: set<H>)
    ensures Without(a + b, drop) == Without(a, drop) + Without(b, drop)
  {
    if a == [] {
      assert a + b == b;
    } else {
      assert (a + b)[1..] == a[1..] + b;
      WithoutConcat(a[1..], b, drop);
    }
  }

  lemma {:induction false} WithoutTwice<H>(q: seq<H>, d1: set<H>, d2: set<H>)
    ensures Without(q, d1 + d2) == Without(Without(q, d1), d2)
  {
    if q != [] {
      WithoutTwice(q[1..], d1, d2);
      if q[0] !in d1 {
        assert ([q[0]] + Without(q[1..], d1))[1..] == Without(q[1..], d1);
      }
    }
  }

  lemma {:induction false} WithoutNone<H>(q: seq<H>, drop: set<H>)
    requires forall h :: h in q ==> h !in drop
    ensures Without(q, drop) == q
  {
    if q != [] {
      assert forall h :: h in q[1..] ==> h in q;
      WithoutNone(q[1..], drop);
    }
  }

  lemma {:induction false} WithoutAll<H>(q: seq<H>, drop: set<H>)
    requires forall h :: h in q ==> h in drop
    ensures Without(q, drop) == []
  {
    if q != [] {
      assert forall h :: h in q[1..] ==> h in q;
      WithoutAll(q[1..], drop);
    }
  }

  lemma {:induction false} RemoveIsWithout<H>(q: seq<H>, h: H)
    requires NoDup(q)
    ensures RemoveFirst(q, h) == Without(q, {h})
  {
    if q != [] && q[0] == h {
      assert forall x :: x in q[1..] ==> x != h;
      WithoutNone(q[1..], {h});
    } else if q != [] {
      RemoveIsWithout(q[1..], h);
    }
  }

  // ---- The invariant ----

  ghost function LiveWorkers<H>(threads: map<nat, Thread<H>>): set<nat> {
    set t | t in threads && threads[t].worker && !threads[t].exited
  }

  predicate PhaseFits(p: Phase, state: int) {
    match p
    case Claimed => state == 0
    case InBody => state == 1
    case BodyDone => state >= 2
    case Skipped => state >= 2
  }

  ghost predicate ThreadShape<H>(th: Thread<H>) {
    && th.Shaped()
    && (!th.worker ==> th.stack == [] && !th.exited)
    && (th.exited ==> th.stack == [])
    && (th.worker ==> th.calls[0] == NoCall)
  }

  ghost predicate ThreadShapes<H>(threads: map<nat, Thread<H>>) {
    forall t :: t in threads ==> ThreadShape(threads[t])
  }

  /** Every stack slot holds a claimed task of its own, in a phase that fits its state. */
  ghost predicate ClaimsFit<H>(threads: map<nat, Thread<H>>, claims: map<H, (nat, nat)>, headers: map<H, Header>) {
    && (forall t, i :: t in threads && 0 <= i < |threads[t].stack| ==>
          var f := threads[t].stack[i];
          && f.task in claims && claims[f.task] == (t, i)
          && f.task in headers && PhaseFits(f.phase, headers[f.task].state))
    && (forall h :: h in claims ==>
          var (t, i) := claims[h];
          t in threads && i < |threads[t].stack| && threads[t].stack[i].task == h)
  }

  /** Each task being started belongs to one call site; awaited tasks are known. */
  ghost predicate SitesFit<H>(threads: map<nat, Thread<H>>, sites: map<H, (nat, nat)>, known: set<H>) {
    forall t, k :: t in threads && 0 <= k < |threads[t].calls| ==>
      match threads[t].calls[k]
      case NoCall => true
      case Starting(h, _) => h in sites && sites[h] == (t, k)
      case Waiting(h, _) => h in known
  }

  /** Queued, claimed and starting tasks are disjoint; admitted ones are live exactly there. */
  ghost predicate Tasks<H>(queue: seq<H>, headers: map<H, Header>, claims: set<H>, sites: set<H>, admitted: seq<H>) {
    && NoDup(queue) && NoDup(admitted)
    && (forall h :: h in queue ==> h in headers && headers[h].state == 0 && h !in claims && h in admitted)
    && (forall h :: h in claims ==> h in admitted)
    && (forall h :: h in sites ==> h in headers && headers[h].state == 0 && h !in admitted)
    && (forall h :: h in admitted ==>
          h in headers && 0 <= headers[h].state <= 3 && (headers[h].state < 2 ==> h in queue || h in claims))
  }

  /** Exactly the terminal admitted tasks were counted down, once each. */
  ghost predicate Counting<H>(outstanding: int, settled: seq<H>, headers: map<H, Header>, admitted: seq<H>) {
    && outstanding == |admitted| - |settled|
    && NoDup(settled)
    && (forall h :: h in settled ==> h in admitted && h in headers && headers[h].state >= 2)
    && (forall h :: h in admitted && h in headers && headers[h].state >= 2 ==> h in settled)
  }

  ghost predicate Lifecycle<H>(c: Core<H>, live: set<nat>, shut: Shutdown) {
    && (c.mode.AtLeastStopping() ==> c.queue == [])
    && (c.mode == Stopped ==> !c.initialized)
    && (c.mode == Draining || c.mode == Stopping ==> c.initialized)
    && (!c.initialized ==> c.queue == [] && c.outstanding == 0 && c.capacity == 0 && c.live == 0)
    && (c.initialized ==> |c.queue| <= c.capacity && c.capacity >= 1)
    && c.live == |live|
    && (shut == NoShutdown ==> c.mode != Draining)
    && (shut == ShutLoop ==> c.mode == Draining || c.mode == Stopping)
    && (shut == ShutJoin ==> c.mode == Stopping && c.live == 0)
  }

  /** The claims so far, then the queue, are the admissions minus what was dropped while queued. */
  ghost predicate Order<H>(claimed: seq<H>, queue: seq<H>, admitted: seq<H>, dropped: set<H>) {
    claimed + queue == Without(admitted, dropped)
  }

  /** Tasks cancelled or aborted while queued are over and were never claimed. */
  ghost predicate Dropped<H>(dropped: set<H>, admitted: seq<H>, headers: map<H, Header>, claims: set<H>) {
    forall h :: h in dropped ==> h in admitted && h in headers && headers[h].state == 3 && h !in claims
  }

  ghost predicate ClaimLog<H>(claimed: seq<H>, queue: seq<H>, admitted: seq<H>, dropped: set<H>, claims: set<H>) {
    && (forall h :: h in claimed ==> h in admitted && h !in dropped && h !in queue)
    && (forall h :: h in claims ==> h in claimed)
  }

  /** No body began twice, and only claimed tasks past state 0 have begun. */
  ghost predicate Bodies<H>(bodies: seq<H>, claimed: seq<H>, headers: map<H, Header>) {
    && NoDup(bodies)
    && (forall h :: h in bodies ==> h in claimed && h in headers && headers[h].state >= 1)
  }

  ghost predicate Inv<H>(s: Sys<H>) {
    && ThreadShapes(s.threads)
    && ClaimsFit(s.threads, s.claims, s.core.headers)
    && SitesFit(s.threads, s.sites, s.core.headers.Keys)
    && Tasks(s.core.queue, s.core.headers, s.claims.Keys, s.sites.Keys, s.admitted)
    && Counting(s.core.outstanding, s.core.settled, s.core.headers, s.admitted)
    && Lifecycle(s.core, LiveWorkers(s.threads), s.shut)
    && Order(s.claimed, s.core.queue, s.admitted, s.cancelled + s.aborted)
    && Dropped(s.cancelled + s.aborted, s.admitted, s.core.headers, s.claims.Keys)
    && ClaimLog(s.claimed, s.core.queue, s.admitted, s.cancelled + s.aborted, s.claims.Keys)
    && Bodies(s.bodies, s.claimed, s.core.headers)
  }

  // ---- Consequences used by the steps ----

  /** While some admitted task is not terminal, the counter is positive: the guard passes. */
  lemma CounterCovers<H>(s: Sys<H>, h: H)
    requires Inv(s) && h in s.admitted && s.core.headers[h].state < 2
    ensures s.core.outstanding > 0
  {
    var all := s.core.settled + [h];
    assert h !in s.core.settled;
    assert forall x :: x in all ==> x in s.core.settled || x == h;
    assert NoDup(all);
    NoDupFits(all, s.admitted);
  }

  lemma CounterCoversQueue<H>(s: Sys<H>)
    requires Inv(s)
    ensures s.core.outstanding >= |s.core.queue|
  {
    var settled, queue := s.core.settled, s.core.queue;
    var both := settled + queue;
    assert forall x :: x in both ==> x in settled || x in queue;
    forall i, j | 0 <= i < j < |both|
      ensures both[i] != both[j]
    {
      if i < |settled| <= j {
        assert both[i] in settled && both[j] == queue[j - |settled|] && both[j] in queue;
      }
    }
    NoDupFits(both, s.admitted);
  }

  lemma AllSettledWhenUncounted<H>(s: Sys<H>, h: H)
    requires Inv(s) && s.core.outstanding <= 0 && h in s.admitted
    ensures h in s.core.headers && s.core.headers[h].state >= 2
  {
    if s.core.headers[h].state < 2 {
      CounterCovers(s, h);
    }
  }

  /** A claimed task sits on the stack of a live worker. */
  lemma ClaimHolder<H>(s: Sys<H>, h: H)
    requires Inv(s) && h in s.claims
    ensures s.claims[h].0 in LiveWorkers(s.threads)
  {
    assert ThreadShape(s.threads[s.claims[h].0]);
  }

  /** No worker left alive means no claimed task left. */
  lemma NoWorkersNoClaims<H>(s: Sys<H>)
    requires Inv(s) && s.core.live == 0
    ensures s.claims == map[]
    ensures forall t :: t in s.threads ==> s.threads[t].stack == []
  {
    assert LiveWorkers(s.threads) == {};
    forall t | t in s.threads
      ensures s.threads[t].stack == []
    {
      assert t !in LiveWorkers(s.threads);
      assert ThreadShape(s.threads[t]);
    }
    if s.claims != map[] {
      var h :| h in s.claims;
      ClaimHolder(s, h);
      assert false;
    }
  }

  // ---- Preservation, piece by piece ----

  /** A changed call leaves the stacks and the set of live workers alone. */
  lemma SameStacks<H>(s: Sys<H>, t: nat, th: Thread<H>)
    requires t in s.threads && ThreadShapes(s.threads) && ThreadShape(th)
    requires th.stack == s.threads[t].stack && th.worker == s.threads[t].worker && th.exited == s.threads[t].exited
    ensures var r := s.threads[t := th];
      && ThreadShapes(r) && LiveWorkers(r) == LiveWorkers(s.threads)
      && (ClaimsFit(s.threads, s.claims, s.core.headers) ==> ClaimsFit(r, s.claims, s.core.headers))
  {
    var r := s.threads[t := th];
    assert forall u :: u in r ==> r[u].stack == s.threads[u].stack;
  }

  lemma SetCallKeeps<H>(s: Sys<H>, t: nat, c: Call<H>)
    requires Inv(s) && Present(s, t)
    requires s.threads[t].worker ==> s.threads[t].stack != []
    requires c.Starting? ==> s.threads[t].Now().Starting? && s.threads[t].Now().task == c.task
    requires c.Waiting? ==> c.task in s.core.headers
    ensures Inv(SetCall(s, t, c))
  {
    var r := SetCall(s, t, c);
    SameStacks(s, t, r.threads[t]);
    SetCallSites(s, t, c);
  }

  lemma SetCallSites<H>(s: Sys<H>, t: nat, c: Call<H>)
    requires SitesFit(s.threads, s.sites, s.core.headers.Keys) && Present(s, t)
    requires c.Starting? ==> s.threads[t].Now().Starting? && s.threads[t].Now().task == c.task
    requires c.Waiting? ==> c.task in s.core.headers
    ensures SitesFit(SetCall(s, t, c).threads, s.sites, s.core.headers.Keys)
  {
    var r := SetCall(s, t, c).threads;
    forall u, k | u in r && 0 <= k < |r[u].calls|
      ensures match r[u].calls[k]
              case NoCall => true
              case Starting(h, _) => h in s.sites && s.sites[h] == (u, k)
              case Waiting(h, _) => h in s.core.headers
    {
      assert (u == t && k == |s.threads[t].stack|) || r[u].calls[k] == s.threads[u].calls[k];
      assert s.threads[u].calls[k] == s.threads[u].calls[k];
    }
  }

  /** A newly claimed task takes the next stack slot of its worker. */
  lemma PushFits<H>(threads: map<nat, Thread<H>>, claims: map<H, (nat, nat)>, headers: map<H, Header>, t: nat, h: H, th: Thread<H>)
    requires ClaimsFit(threads, claims, headers)
    requires t in threads && h !in claims && h in headers && headers[h].state == 0
    requires th.stack == threads[t].stack + [Frame(h, Claimed)]
    ensures ClaimsFit(threads[t := th], claims[h := (t, |threads[t].stack|)], headers)
  {
    var r := threads[t := th];
    var claims' := claims[h := (t, |threads[t].stack|)];
    forall u, i | u in r && 0 <= i < |r[u].stack|
      ensures var f := r[u].stack[i];
        && f.task in claims' && claims'[f.task] == (u, i)
        && f.task in headers && PhaseFits(f.phase, headers[f.task].state)
    {
      if u != t || i < |threads[t].stack| {
        assert r[u].stack[i] == threads[u].stack[i];
      }
    }
  }

  lemma PushSites<H>(threads: map<nat, Thread<H>>, sites: map<H, (nat, nat)>, known: set<H>, t: nat, th: Thread<H>)
    requires SitesFit(threads, sites, known) && t in threads
    requires th.calls == threads[t].calls + [NoCall]
    ensures SitesFit(threads[t := th], sites, known)
  {
    var r := threads[t := th];
    assert forall u, k :: u in r && 0 <= k < |r[u].calls| ==>
      r[u].calls[k] == NoCall || r[u].calls[k] == threads[u].calls[k];
  }

  lemma ClaimStacks<H>(s: Sys<H>, t: nat)
    requires Inv(s) && Present(s, t) && s.core.queue != []
    requires s.threads[t].worker && !s.threads[t].exited
    ensures var r := Claim(s, t);
      && ThreadShapes(r.threads) && LiveWorkers(r.threads) == LiveWorkers(s.threads)
      && ClaimsFit(r.threads, r.claims, r.core.headers)
      && SitesFit(r.threads, r.sites, r.core.headers.Keys)
  {
    var th := Claim(s, t).threads[t];
    assert s.core.queue[0] in s.core.queue;
    PushFits(s.threads, s.claims, s.core.headers, t, s.core.queue[0], th);
    PushSites(s.threads, s.sites, s.core.headers.Keys, t, th);
    assert ThreadShape(th);
  }

  lemma HeadLeaves<H>(q: seq<H>)
    requires NoDup(q) && q != []
    ensures NoDup(q[1..]) && q[0] !in q[1..] && q == [q[0]] + q[1..]
    ensures forall x :: x in q <==> x == q[0] || x in q[1..]
  {
  }

  lemma ClaimTasks<H>(s: Sys<H>, t: nat)
    requires Inv(s) && Present(s, t) && s.core.queue != []
    ensures var r := Claim(s, t);
      && Tasks(r.core.queue, r.core.headers, r.claims.Keys, r.sites.Keys, r.admitted)
      && Dropped(r.cancelled + r.aborted, r.admitted, r.core.headers, r.claims.Keys)
      && Bodies(r.bodies, r.claimed, r.core.headers)
  {
    hide ClaimsFit, SitesFit, Counting, Lifecycle, Order, ThreadShapes, NoDup;
    var r := Claim(s, t);
    HeadLeaves(s.core.queue);
    assert r.claims.Keys == s.claims.Keys + {s.core.queue[0]};
    assert forall x :: x in r.claimed <==> x in s.claimed || x == s.core.queue[0];
  }

  lemma ClaimHistory<H>(s: Sys<H>, t: nat)
    requires Inv(s) && Present(s, t) && s.core.queue != []
    ensures var r := Claim(s, t);
      && Order(r.claimed, r.core.queue, r.admitted, r.cancelled + r.aborted)
      && ClaimLog(r.claimed, r.core.queue, r.admitted, r.cancelled + r.aborted, r.claims.Keys)
  {
    hide ClaimsFit, SitesFit, Counting, Lifecycle, Bodies, ThreadShapes, NoDup;
    var r := Claim(s, t);
    HeadLeaves(s.core.queue);
    assert r.claimed + r.core.queue == s.claimed + s.core.queue;
    assert r.claims.Keys == s.claims.Keys + {s.core.queue[0]};
    assert forall x :: x in r.claimed <==> x in s.claimed || x == s.core.queue[0];
  }

  lemma ClaimKeeps<H>(s: Sys<H>, t: nat)
    requires Inv(s) && Present(s, t) && s.core.queue != []
    requires s.threads[t].worker && !s.threads[t].exited
    ensures Inv(Claim(s, t))
  {
    ClaimStacks(s, t);
    ClaimTasks(s, t);
    ClaimHistory(s, t);
  }

  // ---- Changing one task's state ----

  lemma PhaseFitsAfter<H>(threads: map<nat, Thread<H>>, claims: map<H, (nat, nat)>, headers: map<H, Header>,
                          t: nat, p: Phase, hd: Header, th: Thread<H>)
    requires ClaimsFit(threads, claims, headers) && t in threads && threads[t].stack != []
    requires PhaseFits(p, hd.state)
    requires th.stack == threads[t].stack[|threads[t].stack| - 1 := Frame(threads[t].Top().task, p)]
    ensures ClaimsFit(threads[t := th], claims, headers[threads[t].Top().task := hd])
  {
    var h := threads[t].Top().task;
    var r := threads[t := th];
    var headers' := headers[h := hd];
    var top := |threads[t].stack| - 1;
    assert threads[t].stack[top].task == h && claims[h] == (t, top);
    forall u, i | u in r && 0 <= i < |r[u].stack|
      ensures var f := r[u].stack[i];
        && f.task in claims && claims[f.task] == (u, i)
        && f.task in headers' && PhaseFits(f.phase, headers'[f.task].state)
    {
      if u != t || i != top {
        assert r[u].stack[i] == threads[u].stack[i];
        assert r[u].stack[i].task != h;
      }
    }
    assert r[t].stack[top].task == h;
    forall x | x in claims
      ensures var (u, i) := claims[x]; u in r && i < |r[u].stack| && r[u].stack[i].task == x
    {
      var (u, i) := claims[x];
      assert threads[u].stack[i].task == x;
    }
  }

  lemma PopFits<H>(threads: map<nat, Thread<H>>, claims: map<H, (nat, nat)>, headers: map<H, Header>,
                   t: nat, hd: Header, th: Thread<H>)
    requires ClaimsFit(threads, claims, headers) && t in threads && threads[t].stack != []
    requires th.stack == threads[t].stack[..|threads[t].stack| - 1]
    ensures var h := threads[t].Top().task;
      ClaimsFit(threads[t := th], claims - {h}, headers[h := hd])
  {
    var h := threads[t].Top().task;
    var r := threads[t := th];
    var claims', headers' := claims - {h}, headers[h := hd];
    var top := |threads[t].stack| - 1;
    assert threads[t].stack[top].task == h && claims[h] == (t, top);
    forall u, i | u in r && 0 <= i < |r[u].stack|
      ensures var f := r[u].stack[i];
        && f.task in claims' && claims'[f.task] == (u, i)
        && f.task in headers' && PhaseFits(f.phase, headers'[f.task].state)
    {
      assert r[u].stack[i] == threads[u].stack[i];
    }
    forall x | x in claims'
      ensures var (u, i) := claims'[x]; u in r && i < |r[u].stack| && r[u].stack[i].task == x
    {
      var (u, i) := claims[x];
      assert threads[u].stack[i].task == x;
    }
  }

  lemma FewerCalls<H>(threads: map<nat, Thread<H>>, sites: map<H, (nat, nat)>, known: set<H>, t: nat, th: Thread<H>)
    requires SitesFit(threads, sites, known) && t in threads
    requires th.calls <= threads[t].calls
    ensures SitesFit(threads[t := th], sites, known)
  {
    var r := threads[t := th];
    assert forall u, k :: u in r && 0 <= k < |r[u].calls| ==> r[u].calls[k] == threads[u].calls[k];
  }

  /** A claimed task moves on to state `state` (1 or terminal). */
  lemma AdvanceTasks<H>(s: Sys<H>, h: H, state: int)
    requires Inv(s) && h in s.claims && 1 <= state <= 3
    ensures var r := SetState(s.core, h, state);
      && r.queue == s.core.queue
      && r.headers == s.core.headers[h := Header(state, s.core.headers[h].cancelRequested)]
      && Tasks(r.queue, r.headers, s.claims.Keys, s.sites.Keys, s.admitted)
  {
  }

  lemma AdvanceCounting<H>(s: Sys<H>, h: H, state: int)
    requires Inv(s) && h in s.claims && s.core.headers[h].state < 2 && 1 <= state <= 3
    ensures var r := SetState(s.core, h, state);
      Counting(r.outstanding, r.settled, r.headers, s.admitted)
  {
    if state >= 2 {
      CounterCovers(s, h);
      assert h !in s.core.settled;
      assert forall x :: x in s.core.settled + [h] <==> x in s.core.settled || x == h;
    }
  }

  lemma AdvanceLifecycle<H>(s: Sys<H>, h: H, state: int)
    requires Inv(s) && h in s.claims
    ensures Lifecycle(SetState(s.core, h, state), LiveWorkers(s.threads), s.shut)
  {
    assert h in s.admitted;
    if !s.core.initialized {
      NoWorkersNoClaims(s);
    }
  }

  lemma AdvanceDropped<H>(s: Sys<H>, h: H, state: int)
    requires Inv(s) && h in s.claims
    ensures Dropped(s.cancelled + s.aborted, s.admitted, SetState(s.core, h, state).headers, s.claims.Keys)
  {
  }

  lemma AdvanceBodies<H>(s: Sys<H>, h: H, state: int, bodies: seq<H>)
    requires Inv(s) && h in s.claims && s.core.headers[h].state <= state && 1 <= state
    requires bodies == s.bodies || (bodies == s.bodies + [h] && s.core.headers[h].state == 0)
    ensures Bodies(bodies, s.claimed, SetState(s.core, h, state).headers)
  {
    hide Inv, Bodies;
    ClaimedBodies(s, h);
    BodiesAfter(s.bodies, s.claimed, s.core.headers, h, Header(state, s.core.headers[h].cancelRequested), bodies);
  }

  lemma ClaimedBodies<H>(s: Sys<H>, h: H)
    requires Inv(s) && h in s.claims
    ensures h in s.claimed && h in s.core.headers && Bodies(s.bodies, s.claimed, s.core.headers)
  {
    hide ClaimsFit, SitesFit, Counting, Lifecycle, Order, Dropped, Bodies, ThreadShapes, NoDup;
  }

  lemma BodiesAfter<H>(before: seq<H>, claimed: seq<H>, headers: map<H, Header>, h: H, header: Header, bodies: seq<H>)
    requires Bodies(before, claimed, headers) && h in claimed && h in headers
    requires headers[h].state <= header.state && 1 <= header.state
    requires bodies == before || (bodies == before + [h] && headers[h].state == 0)
    ensures Bodies(bodies, claimed, headers[h := header])
  {
    if bodies == before + [h] {
      assert h !in before;
      assert forall x :: x in bodies <==> x in before || x == h;
    }
  }

  lemma TopIsClaimed<H>(s: Sys<H>, t: nat)
    requires ClaimsFit(s.threads, s.claims, s.core.headers) && t in s.threads && s.threads[t].stack != []
    ensures var f := s.threads[t].Top();
      f.task in s.claims && f.task in s.core.headers && PhaseFits(f.phase, s.core.headers[f.task].state)
  {
    var th := s.threads[t];
    assert th.stack[|th.stack| - 1].task in s.claims;
  }

  lemma TopTask<H>(s: Sys<H>, t: nat)
    requires Inv(s) && t in s.threads && s.threads[t].stack != []
    ensures var f := s.threads[t].Top();
      f.task in s.claims && f.task in s.core.headers && PhaseFits(f.phase, s.core.headers[f.task].state)
  {
    TopIsClaimed(s, t);
  }

  /** The claimed task on top of thread t's stack moves to `state` and its frame to phase `p`. */
  lemma AdvanceKeeps<H>(s: Sys<H>, t: nat, p: Phase, state: int, bodies: seq<H>)
    requires Inv(s) && Present(s, t) && s.threads[t].stack != []
    requires var h := s.threads[t].Top().task;
      && h in s.core.headers && s.core.headers[h].state < 2 && s.core.headers[h].state <= state
      && 1 <= state <= 3 && PhaseFits(p, state)
      && (bodies == s.bodies || (bodies == s.bodies + [h] && s.core.headers[h].state == 0))
    ensures Inv(SetPhase(s, t, p).(core := SetState(s.core, s.threads[t].Top().task, state), bodies := bodies))
  {
    hide ClaimsFit, SitesFit, Tasks, Counting, Lifecycle, Order, Dropped, ClaimLog, Bodies, ThreadShapes;
    var th := s.threads[t];
    var h := th.Top().task;
    var r := SetPhase(s, t, p).(core := SetState(s.core, h, state), bodies := bodies);
    TopIsClaimed(s, t);
    AdvanceTasks(s, h, state);
    AdvanceCounting(s, h, state);
    AdvanceLifecycle(s, h, state);
    AdvanceDropped(s, h, state);
    AdvanceBodies(s, h, state, bodies);
    AdvanceThreads(s, t, p, r.core.headers[h]);
    assert r.core.headers.Keys == s.core.headers.Keys;
  }

  lemma AdvanceThreads<H>(s: Sys<H>, t: nat, p: Phase, header: Header)
    requires Inv(s) && Present(s, t) && s.threads[t].stack != [] && PhaseFits(p, header.state)
    requires s.threads[t].Top().task in s.core.headers
    ensures var h, r := s.threads[t].Top().task, SetPhase(s, t, p).threads;
      && ThreadShapes(r) && LiveWorkers(r) == LiveWorkers(s.threads)
      && ClaimsFit(r, s.claims, s.core.headers[h := header]) && SitesFit(r, s.sites, s.core.headers.Keys)
  {
    var r := SetPhase(s, t, p);
    assert ThreadShape(s.threads[t]);
    PhaseFitsAfter(s.threads, s.claims, s.core.headers, t, p, header, r.threads[t]);
    FewerCalls(s.threads, s.sites, s.core.headers.Keys, t, r.threads[t]);
    SameLiveWorkers(s.threads, t, r.threads[t]);
    hide ClaimsFit, SitesFit, Tasks, Counting, Lifecycle, Order, Dropped, ClaimLog, Bodies, ThreadShapes;
  }

  lemma SameLiveWorkers<H>(threads: map<nat, Thread<H>>, t: nat, th: Thread<H>)
    requires t in threads && ThreadShapes(threads) && th.Shaped()
    requires th.worker == threads[t].worker && th.exited == threads[t].exited
    requires th.calls[0] == threads[t].calls[0]
    requires th.worker || th.stack == []
    requires th.exited ==> th.stack == []
    ensures ThreadShapes(threads[t := th]) && LiveWorkers(threads[t := th]) == LiveWorkers(threads)
  {
    assert ThreadShape(threads[t]);
  }

  lemma BeginKeeps<H>(s: Sys<H>, t: nat)
    requires Inv(s) && Enabled(s, Begin(t))
    ensures Inv(BeginTask(s, t))
  {
    hide Inv;
    var h := s.threads[t].Top().task;
    TopTask(s, t);
    if s.core.headers[h].cancelRequested || s.core.mode.AtLeastStopping() {
      AdvanceKeeps(s, t, Skipped, 3, s.bodies);
    } else {
      AdvanceKeeps(s, t, InBody, 1, s.bodies + [h]);
    }
  }

  /** Waking everyone changes nothing the invariant speaks about. */
  lemma WakeKeeps<H>(s: Sys<H>, asleep: set<nat>, shutAsleep: bool)
    requires Inv(s)
    ensures Inv(s.(asleep := asleep, shutAsleep := shutAsleep))
  {
    hide ClaimsFit, SitesFit, Tasks, Counting, Lifecycle, Order, Dropped, ClaimLog, Bodies, ThreadShapes;
  }

  lemma FinishKeeps<H>(s: Sys<H>, t: nat)
    requires Inv(s) && Enabled(s, Finish(t))
    ensures Inv(FinishTask(s, t))
  {
    hide Inv;
    var h := s.threads[t].Top().task;
    TopTask(s, t);
    AdvanceKeeps(s, t, BodyDone, FinalState(s.core, h), s.bodies);
    WakeKeeps(SetPhase(s, t, BodyDone).(core := SetState(s.core, h, FinalState(s.core, h)), bodies := s.bodies), {}, false);
  }

  lemma EndTasks<H>(s: Sys<H>, h: H)
    requires Inv(s) && h in s.claims && s.core.headers[h].state >= 2
    ensures Tasks(s.core.queue, s.core.headers, (s.claims - {h}).Keys, s.sites.Keys, s.admitted)
    ensures Dropped(s.cancelled + s.aborted, s.admitted, s.core.headers, (s.claims - {h}).Keys)
    ensures ClaimLog(s.claimed, s.core.queue, s.admitted, s.cancelled + s.aborted, (s.claims - {h}).Keys)
  {
  }

  /** Removing a terminal task from the top of its stack. */
  lemma PopKeeps<H>(s: Sys<H>, t: nat)
    requires Inv(s) && Present(s, t) && s.threads[t].stack != [] && s.threads[t].Top().task in s.core.headers
    requires s.core.headers[s.threads[t].Top().task].state >= 2
    ensures Inv(EndTask(s, t))
  {
    var r := EndTask(s, t);
    var th := s.threads[t];
    var h := th.Top().task;
    TopIsClaimed(s, t);
    assert ThreadShape(th);
    PopFits(s.threads, s.claims, s.core.headers, t, s.core.headers[h], r.threads[t]);
    FewerCalls(s.threads, s.sites, s.core.headers.Keys, t, r.threads[t]);
    EndTasks(s, h);
    SameLiveWorkers(s.threads, t, r.threads[t]);
    hide ClaimsFit, SitesFit, Tasks, Counting, Lifecycle, Order, Dropped, ClaimLog, Bodies, ThreadShapes;
    assert s.core.headers[h := s.core.headers[h]] == s.core.headers;
  }

  lemma PopForgetsPhase<H>(s: Sys<H>, t: nat, p: Phase, core: Core<H>)
    requires Present(s, t) && s.threads[t].stack != []
    ensures var s2 := SetPhase(s, t, p).(core := core);
      s2.threads[t].stack[..|s.threads[t].stack| - 1] == s.threads[t].stack[..|s.threads[t].stack| - 1]
  {
  }

  /** The last section settles the task if its body did not, and then pops it. */
  lemma EndKeeps<H>(s: Sys<H>, t: nat)
    requires Inv(s) && Enabled(s, End(t))
    ensures Inv(EndTask(s, t))
  {
    hide Inv;
    TopTask(s, t);
    if s.core.headers[s.threads[t].Top().task].state < 2 {
      EndKeepsAfterSettling(s, t);
    } else {
      PopKeeps(s, t);
    }
  }

  lemma EndKeepsAfterSettling<H>(s: Sys<H>, t: nat)
    requires Inv(s) && Present(s, t) && s.threads[t].stack != [] && s.threads[t].Top().task in s.core.headers
    requires 1 <= s.core.headers[s.threads[t].Top().task].state < 2
    ensures Inv(EndTask(s, t))
  {
    hide Inv;
    var h := s.threads[t].Top().task;
    var final := FinalState(s.core, h);
    AdvanceKeeps(s, t, BodyDone, final, s.bodies);
    var core := SetState(s.core, h, final);
    var s2 := SetPhase(s, t, BodyDone).(core := core, bodies := s.bodies);
    PopForgetsPhase(s, t, BodyDone, core);
    PopKeeps(s2, t);
    assert s2.threads[t].calls == s.threads[t].calls;
    assert EndTask(s2, t).threads == EndTask(s, t).threads;
  }

  // ---- Cancel and abort ----

  /** Headers that agree on states are interchangeable. */
  lemma SameStates<H>(s: Sys<H>, headers: map<H, Header>)
    requires Inv(s)
    requires headers.Keys == s.core.headers.Keys
    requires forall h :: h in headers ==> headers[h].state == s.core.headers[h].state
    ensures Inv(s.(core := s.core.(headers := headers)))
  {
  }

  /** Several queued tasks leave the queue as cancelled, each giving its unit back. */
  lemma DropTasks<H>(s: Sys<H>, gone: set<H>, queue: seq<H>, headers: map<H, Header>)
    requires Inv(s)
    requires headers.Keys == s.core.headers.Keys
    requires forall h :: h in gone ==> h in s.core.queue && headers[h].state == 3
    requires forall h :: h in headers && h !in gone ==> headers[h].state == s.core.headers[h].state
    requires NoDup(queue) && (forall h :: h in queue ==> h in s.core.queue && h !in gone)
    requires forall h :: h in s.core.queue && h !in gone ==> h in queue
    ensures ClaimsFit(s.threads, s.claims, headers)
    ensures Tasks(queue, headers, s.claims.Keys, s.sites.Keys, s.admitted)
    ensures Bodies(s.bodies, s.claimed, headers)
  {
  }

  lemma DropHistory<H>(s: Sys<H>, gone: set<H>, queue: seq<H>, headers: map<H, Header>, dropped: set<H>)
    requires Inv(s)
    requires headers.Keys == s.core.headers.Keys
    requires forall h :: h in gone ==> h in s.core.queue && headers[h].state == 3
    requires forall h :: h in headers && h !in gone ==> headers[h].state == s.core.headers[h].state
    requires queue == Without(s.core.queue, gone) && (forall h :: h in queue ==> h in s.core.queue)
    requires dropped == s.cancelled + s.aborted + gone
    ensures Order(s.claimed, queue, s.admitted, dropped)
    ensures Dropped(dropped, s.admitted, headers, s.claims.Keys)
    ensures ClaimLog(s.claimed, queue, s.admitted, dropped, s.claims.Keys)
  {
    var before := s.cancelled + s.aborted;
    WithoutTwice(s.admitted, before, gone);
    WithoutConcat(s.claimed, s.core.queue, gone);
    WithoutNone(s.claimed, gone);
  }

  lemma DropCounting<H>(s: Sys<H>, gone: seq<H>, outstanding: int, headers: map<H, Header>)
    requires Inv(s)
    requires headers.Keys == s.core.headers.Keys
    requires NoDup(gone) && (forall h :: h in gone ==> h in s.core.queue && headers[h].state == 3)
    requires forall h :: h in headers && h !in gone ==> headers[h].state == s.core.headers[h].state
    requires outstanding == s.core.outstanding - |gone|
    ensures Counting(outstanding, s.core.settled + gone, headers, s.admitted)
  {
    var settled := s.core.settled + gone;
    assert forall x :: x in settled <==> x in s.core.settled || x in gone;
    assert forall x :: x in gone ==> x !in s.core.settled;
    forall i, j | 0 <= i < j < |settled|
      ensures settled[i] != settled[j]
    {
      if i < |s.core.settled| <= j {
        assert settled[i] in s.core.settled && settled[j] == gone[j - |s.core.settled|] && settled[j] in gone;
      }
    }
  }

  lemma QueueFacts<H>(s: Sys<H>)
    requires Inv(s)
    ensures NoDup(s.core.queue) && QueueKnown(s.core)
    ensures forall h :: h in s.core.queue ==> s.core.headers[h].state == 0
    ensures s.core.outstanding >= |s.core.queue|
  {
    CounterCoversQueue(s);
  }

  /** Dropping the tasks `gone` from the queue, with everything the lock section changes along. */
  lemma DropKeeps<H>(s: Sys<H>, gone: seq<H>, core: Core<H>, dropped: set<H>)
    requires Inv(s)
    requires NoDup(gone) && (forall h :: h in gone ==> h in s.core.queue && h in core.headers && core.headers[h].state == 3)
    requires core.headers.Keys == s.core.headers.Keys
    requires forall h :: h in core.headers && h !in gone ==> core.headers[h].state == s.core.headers[h].state
    requires core.queue == Without(s.core.queue, set h | h in gone)
    requires NoDup(core.queue) && (forall h :: h in core.queue ==> h in s.core.queue && h !in gone)
    requires forall h :: h in s.core.queue && h !in gone ==> h in core.queue
    requires core.outstanding == s.core.outstanding - |gone| && core.settled == s.core.settled + gone
    requires dropped == s.cancelled + s.aborted + set h | h in gone
    ensures ClaimsFit(s.threads, s.claims, core.headers)
    ensures SitesFit(s.threads, s.sites, core.headers.Keys)
    ensures Tasks(core.queue, core.headers, s.claims.Keys, s.sites.Keys, s.admitted)
    ensures Counting(core.outstanding, core.settled, core.headers, s.admitted)
    ensures Order(s.claimed, core.queue, s.admitted, dropped)
    ensures Dropped(dropped, s.admitted, core.headers, s.claims.Keys)
    ensures ClaimLog(s.claimed, core.queue, s.admitted, dropped, s.claims.Keys)
    ensures Bodies(s.bodies, s.claimed, core.headers)
  {
    hide ClaimsFit, SitesFit, Tasks, Counting, Order, Dropped, ClaimLog, Bodies, Lifecycle, ThreadShapes;
    DropTasks(s, (set h | h in gone), core.queue, core.headers);
    DropHistory(s, (set h | h in gone), core.queue, core.headers, dropped);
    DropCounting(s, gone, core.outstanding, core.headers);
  }

  lemma CancelCore<H>(s: Sys<H>, h: H)
    requires Inv(s) && h in s.core.headers && CancelRemoves(s.core, h)
    ensures CancelLocked(s.core, h) == s.core.(
      queue := RemoveFirst(s.core.queue, h), outstanding := s.core.outstanding - 1,
      headers := s.core.headers[h := Header(3, true)], settled := s.core.settled + [h])
  {
    CounterCovers(s, h);
    assert s.core.headers[h := Header(0, true)][h := Header(3, true)] == s.core.headers[h := Header(3, true)];
  }

  lemma CancelKeeps<H>(s: Sys<H>, h: H)
    requires Inv(s) && h in s.core.headers
    ensures Inv(CancelAny(s, h))
  {
    if CancelRemoves(s.core, h) {
      CancelQueuedKeeps(s, h);
    } else {
      hide Inv;
      SameStates(s, CancelLocked(s.core, h).headers);
      WakeKeeps(s.(core := CancelLocked(s.core, h)), {}, false);
    }
  }

  /** What is left of the queue when h is taken out. */
  lemma CancelledQueue<H>(s: Sys<H>, h: H)
    requires Inv(s)
    ensures var q := RemoveFirst(s.core.queue, h);
      && q == Without(s.core.queue, set x | x in [h]) && NoDup(q) && |q| <= |s.core.queue|
      && (forall x :: x in q ==> x in s.core.queue && x !in [h])
      && (forall x :: x in s.core.queue && x !in [h] ==> x in q)
  {
    QueueFacts(s);
    RemoveFirstFacts(s.core.queue, h);
    RemoveIsWithout(s.core.queue, h);
    assert (set x | x in [h]) == {h};
    assert forall x :: x in [h] <==> x == h;
  }

  lemma CancelQueuedKeeps<H>(s: Sys<H>, h: H)
    requires Inv(s) && h in s.core.headers && CancelRemoves(s.core, h)
    ensures Inv(CancelAny(s, h))
  {
    hide ClaimsFit, SitesFit, Tasks, Counting, Order, Dropped, ClaimLog, Bodies, ThreadShapes, CancelLocked,
      RemoveFirst, Without;
    var r := CancelAny(s, h);
    CancelCore(s, h);
    CancelledQueue(s, h);
    assert (set x | x in [h]) == {h};
    DropKeeps(s, [h], r.core, r.cancelled + r.aborted);
  }

  lemma StopAndAbortKeeps<H>(s: Sys<H>)
    requires Inv(s) && s.core.initialized && s.shut != ShutJoin
    ensures QueueKnown(s.core) && Inv(StopAndAbort(s)) && Inv(StopAndAbort(s).(shut := ShutLoop))
    ensures StopAndAbort(s).core.queue == [] && StopAndAbort(s).core.mode == Stopping
    ensures StopAndAbort(s).core.outstanding == s.core.outstanding - |s.core.queue|
    ensures StopAndAbort(s).core.live == s.core.live
  {
    hide ClaimsFit, SitesFit, Tasks, Counting, Order, Dropped, ClaimLog, Bodies, ThreadShapes, AbortQueued;
    QueueFacts(s);
    AbortQueuedFacts(s.core.(mode := Stopping));
    var r := StopAndAbort(s);
    WithoutAll(s.core.queue, set h | h in s.core.queue);
    DropKeeps(s, s.core.queue, r.core, r.cancelled + r.aborted);
  }

  // ---- Starting a task ----

  lemma BeginStartKeeps<H>(s: Sys<H>, t: nat, h: H)
    requires Inv(s) && Enabled(s, StartCall(t, h))
    ensures Inv(BeginStart(s, t, h))
  {
    hide ClaimsFit, SitesFit, Tasks, Counting, Lifecycle, Order, Dropped, ClaimLog, Bodies, ThreadShapes, LiveWorkers;
    var r := BeginStart(s, t, h);
    FreshHeaderKeeps(s, h);
    BeginStartSites(s, t, h);
    BeginStartStacks(s, t, h);
    BeginStartParts(s, t, h);
    hide BeginStart, Enabled;
    FreshClaims(r.threads, s.claims, s.core.headers, h);
    FreshLifecycle(s.core, LiveWorkers(s.threads), s.shut, r.core.headers);
  }

  lemma BeginStartParts<H>(s: Sys<H>, t: nat, h: H)
    requires Present(s, t)
    ensures var r := BeginStart(s, t, h);
      && r == s.(threads := r.threads, core := s.core.(headers := s.core.headers[h := Header(0, false)]),
                 sites := s.sites[h := (t, |s.threads[t].stack|)])
      && r.sites.Keys == s.sites.Keys + {h}
  {
  }

  lemma FreshLifecycle<H>(c: Core<H>, live: set<nat>, shut: Shutdown, headers: map<H, Header>)
    requires Lifecycle(c, live, shut)
    ensures Lifecycle(c.(headers := headers), live, shut)
  {
  }

  lemma BeginStartStacks<H>(s: Sys<H>, t: nat, h: H)
    requires Inv(s) && Enabled(s, StartCall(t, h))
    ensures var r := BeginStart(s, t, h);
      && ThreadShapes(r.threads) && LiveWorkers(r.threads) == LiveWorkers(s.threads)
      && ClaimsFit(r.threads, s.claims, s.core.headers)
  {
    assert ThreadShape(s.threads[t]);
    hide ClaimsFit, SitesFit, Tasks, Counting, Lifecycle, Order, Dropped, ClaimLog, Bodies;
    SameStacks(s, t, BeginStart(s, t, h).threads[t]);
  }

  lemma FreshClaims<H>(threads: map<nat, Thread<H>>, claims: map<H, (nat, nat)>, headers: map<H, Header>, h: H)
    requires ClaimsFit(threads, claims, headers) && h !in headers
    ensures ClaimsFit(threads, claims, headers[h := Header(0, false)])
  {
  }

  lemma FreshHeaderKeeps<H>(s: Sys<H>, h: H)
    requires Inv(s) && h !in s.core.headers
    ensures var headers := s.core.headers[h := Header(0, false)];
      && Tasks(s.core.queue, headers, s.claims.Keys, s.sites.Keys + {h}, s.admitted)
      && Counting(s.core.outstanding, s.core.settled, headers, s.admitted)
      && Dropped(s.cancelled + s.aborted, s.admitted, headers, s.claims.Keys)
      && Bodies(s.bodies, s.claimed, headers)
  {
  }

  lemma BeginStartSites<H>(s: Sys<H>, t: nat, h: H)
    requires Inv(s) && Present(s, t) && h !in s.core.headers
    ensures var r := BeginStart(s, t, h); SitesFit(r.threads, r.sites, r.core.headers.Keys)
  {
    var r := BeginStart(s, t, h);
    assert h !in s.sites;
    forall u, k | u in r.threads && 0 <= k < |r.threads[u].calls|
      ensures match r.threads[u].calls[k]
              case NoCall => true
              case Starting(x, _) => x in r.sites && r.sites[x] == (u, k)
              case Waiting(x, _) => x in r.core.headers
    {
      assert (u == t && k == |s.threads[t].stack|) || r.threads[u].calls[k] == s.threads[u].calls[k];
    }
  }

  /** After its start ends, the site no longer names the task. */
  lemma EndStartSites<H>(s: Sys<H>, t: nat)
    requires Inv(s) && Present(s, t) && s.threads[t].Now().Starting?
    ensures var h := s.threads[t].Now().task;
      SitesFit(SetCall(s, t, NoCall).threads, s.sites - {h}, s.core.headers.Keys)
  {
    var h := s.threads[t].Now().task;
    var r := SetCall(s, t, NoCall).threads;
    forall u, k | u in r && 0 <= k < |r[u].calls|
      ensures match r[u].calls[k]
              case NoCall => true
              case Starting(x, _) => x in s.sites - {h} && (s.sites - {h})[x] == (u, k)
              case Waiting(x, _) => x in s.core.headers.Keys
    {
      assert (u == t && k == |s.threads[t].stack|) || r[u].calls[k] == s.threads[u].calls[k];
      assert s.threads[t].calls[|s.threads[t].stack|].Starting?;
    }
  }

  lemma StartingTask<H>(s: Sys<H>, t: nat)
    requires Inv(s) && Present(s, t) && s.threads[t].Now().Starting?
    ensures var h := s.threads[t].Now().task;
      && h in s.core.headers && s.core.headers[h].state == 0 && h in s.sites && h !in s.admitted
      && (s.threads[t].worker ==> s.threads[t].stack != []) && !s.threads[t].exited
      && h !in s.claims && h !in s.core.queue
  {
    var th := s.threads[t];
    assert ThreadShape(th);
    assert th.calls[|th.stack|].Starting?;
  }

  lemma RefuseTasks<H>(s: Sys<H>, h: H)
    requires Inv(s) && h in s.sites
    ensures h in s.core.headers
    ensures var headers := s.core.headers[h := s.core.headers[h].(state := 3)];
      && ClaimsFit(s.threads, s.claims, headers)
      && Tasks(s.core.queue, headers, s.claims.Keys, (s.sites - {h}).Keys, s.admitted)
      && Counting(s.core.outstanding, s.core.settled, headers, s.admitted)
      && Dropped(s.cancelled + s.aborted, s.admitted, headers, s.claims.Keys)
      && Bodies(s.bodies, s.claimed, headers)
  {
  }

  lemma RefuseKeeps<H>(s: Sys<H>, t: nat)
    requires Inv(s) && Present(s, t) && s.threads[t].Now().Starting?
    ensures s.threads[t].Now().task in s.core.headers
    ensures Inv(Refuse(s, t, s.threads[t].Now().task))
  {
    hide ClaimsFit, SitesFit, Tasks, Counting, Order, Dropped, ClaimLog, Bodies, ThreadShapes;
    StartingTask(s, t);
    var h := s.threads[t].Now().task;
    var r := Refuse(s, t, h);
    RefuseTasks(s, h);
    EndStartSites(s, t);
    assert r.core.headers.Keys == s.core.headers.Keys;
    ThreadAt(s, t);
    SameStacks(s.(core := r.core), t, r.threads[t]);
  }

  lemma ThreadAt<H>(s: Sys<H>, t: nat)
    requires Inv(s) && t in s.threads
    ensures ThreadShape(s.threads[t])
  {
  }

  lemma AdmitTasks<H>(s: Sys<H>, h: H)
    requires Inv(s) && h in s.sites
    ensures var queue, admitted := s.core.queue + [h], s.admitted + [h];
      && Tasks(queue, s.core.headers, s.claims.Keys, (s.sites - {h}).Keys, admitted)
      && Counting(s.core.outstanding + 1, s.core.settled, s.core.headers, admitted)
      && Dropped(s.cancelled + s.aborted, admitted, s.core.headers, s.claims.Keys)
  {
    var queue, admitted := s.core.queue + [h], s.admitted + [h];
    assert forall x :: x in queue <==> x in s.core.queue || x == h;
    assert forall x :: x in admitted <==> x in s.admitted || x == h;
  }

  lemma AdmitHistory<H>(s: Sys<H>, h: H)
    requires Inv(s) && h in s.sites
    ensures var queue, admitted := s.core.queue + [h], s.admitted + [h];
      && Order(s.claimed, queue, admitted, s.cancelled + s.aborted)
      && ClaimLog(s.claimed, queue, admitted, s.cancelled + s.aborted, s.claims.Keys)
  {
    var queue, admitted := s.core.queue + [h], s.admitted + [h];
    var dropped := s.cancelled + s.aborted;
    assert h !in dropped;
    WithoutConcat(s.admitted, [h], dropped);
    WithoutNone([h], dropped);
    assert s.claimed + queue == s.claimed + s.core.queue + [h];
    assert forall x :: x in queue <==> x in s.core.queue || x == h;
    assert forall x :: x in admitted <==> x in s.admitted || x == h;
  }

  lemma AdmitKeeps<H>(s: Sys<H>, t: nat)
    requires Inv(s) && Present(s, t) && s.threads[t].Now().Starting?
    requires s.core.mode == Running && s.core.initialized && |s.core.queue| < s.core.capacity
    ensures Inv(Admit(s, t, s.threads[t].Now().task))
  {
    hide ClaimsFit, SitesFit, Tasks, Counting, Order, Dropped, ClaimLog, Bodies, ThreadShapes;
    StartingTask(s, t);
    var h := s.threads[t].Now().task;
    var r := Admit(s, t, h);
    AdmitTasks(s, h);
    AdmitHistory(s, h);
    EndStartSites(s, t);
    ThreadAt(s, t);
    SameStacks(s, t, r.threads[t]);
  }

  // ---- Blocking loops ----

  lemma TryEnqueueKeeps<H>(s: Sys<H>, t: nat)
    requires Inv(s) && Enabled(s, EnqueueTry(t))
    ensures Inv(TryEnqueue(s, t))
  {
    hide Inv;
    StartingTask(s, t);
    CapacityFacts(s);
    var h := s.threads[t].Now().task;
    var full := |s.core.queue| >= s.core.capacity;
    RefuseKeeps(s, t);
    SetCallKeeps(s, t, Starting(h, false));
    SetCallKeeps(s, t, Starting(h, true));
    if full && s.threads[t].worker && s.core.queue != [] {
      ClaimKeeps(SetCall(s, t, Starting(h, false)), t);
    }
    if !full && s.core.mode == Running && s.core.initialized {
      AdmitKeeps(s, t);
    }
    WakeKeeps(SetCall(s, t, Starting(h, true)), s.asleep + {t}, s.shutAsleep);
  }

  lemma CapacityFacts<H>(s: Sys<H>)
    requires Inv(s)
    ensures !s.core.initialized ==> s.core.capacity == 0 && s.core.queue == []
  {
  }

  lemma CallTaskKnown<H>(s: Sys<H>, t: nat)
    requires Inv(s) && Present(s, t) && s.threads[t].Now() != NoCall
    ensures s.threads[t].Now().task in s.core.headers
    ensures s.threads[t].worker ==> s.threads[t].stack != []
    ensures !s.threads[t].exited
  {
    var th := s.threads[t];
    assert ThreadShape(th);
    assert th.calls[|th.stack|] != NoCall;
  }

  /** The second half of a wait pass: assist with a queued task, or sleep. */
  lemma AssistOrSleepKeeps<H>(s: Sys<H>, t: nat, h: H, self: bool)
    requires Inv(s) && Present(s, t) && h in s.core.headers && s.threads[t].Now().Waiting?
    ensures Inv(Sleep(SetCall(s, t, Waiting(h, self)), t))
    ensures s.core.queue != [] && s.threads[t].worker ==> Inv(Claim(SetCall(s, t, Waiting(h, false)), t))
  {
    hide Inv;
    CallTaskKnown(s, t);
    SetCallKeeps(s, t, Waiting(h, self));
    var asleep := SetCall(s, t, Waiting(h, self));
    WakeKeeps(asleep, asleep.asleep + {t}, asleep.shutAsleep);
    SetCallKeeps(s, t, Waiting(h, false));
    if s.core.queue != [] && s.threads[t].worker {
      ClaimKeeps(SetCall(s, t, Waiting(h, false)), t);
    }
  }

  lemma TryWaitKeeps<H>(s: Sys<H>, t: nat)
    requires Inv(s) && Enabled(s, WaitTry(t))
    ensures Inv(TryWait(s, t))
  {
    hide Inv, CancelAny, Claim, Sleep, SetCall;
    CallTaskKnown(s, t);
    var h := s.threads[t].Now().task;
    if s.core.headers[h].state >= 2 || s.core.mode.AtLeastStopping() {
      SetCallKeeps(s, t, NoCall);
    } else if Propagates(s, t, h) {
      CancelKeeps(s, h);
      CancelKeepsThreads(s, h);
      AssistOrSleepKeeps(CancelAny(s, h), t, h, CancelRemoves(s.core, h));
    } else {
      AssistOrSleepKeeps(s, t, h, false);
    }
  }

  lemma CancelKeepsThreads<H>(s: Sys<H>, h: H)
    requires h in s.core.headers
    ensures CancelAny(s, h).threads == s.threads && CancelAny(s, h).core.mode == s.core.mode
    ensures CancelAny(s, h).core.headers.Keys == s.core.headers.Keys
    ensures forall t :: Present(s, t) ==> Present(CancelAny(s, h), t)
  {
    hide CancelLocked;
    CancelKeepsHeaders(s.core, h);
  }

  lemma CancelKeepsHeaders<H>(c: Core<H>, h: H)
    requires h in c.headers
    ensures CancelLocked(c, h).headers.Keys == c.headers.Keys
    ensures CancelLocked(c, h).mode == c.mode
  {
  }

  lemma WorkerExits<H>(s: Sys<H>, t: nat)
    requires Inv(s) && Free(s, t) && s.threads[t].worker && s.threads[t].stack == []
    ensures s.core.live > 0
    ensures LiveWorkers(s.threads[t := s.threads[t].(exited := true)]) == LiveWorkers(s.threads) - {t}
    ensures |LiveWorkers(s.threads) - {t}| == s.core.live - 1
  {
    assert t in LiveWorkers(s.threads);
  }

  lemma WorkerLoopKeeps<H>(s: Sys<H>, t: nat)
    requires Inv(s) && Enabled(s, WorkerLoop(t))
    ensures Inv(RunWorkerLoop(s, t))
  {
    if s.core.queue != [] {
      hide Inv;
      ClaimKeeps(s, t);
    } else if !s.core.initialized || s.core.mode.AtLeastStopping() {
      WorkerExits(s, t);
      ExitKeeps(s, t);
    } else {
      hide Inv;
      WakeKeeps(s, s.asleep + {t}, s.shutAsleep);
    }
  }

  lemma ExitStacks<H>(s: Sys<H>, t: nat)
    requires Inv(s) && Free(s, t) && s.threads[t].worker && s.threads[t].stack == []
    ensures var r := s.threads[t := s.threads[t].(exited := true)];
      ThreadShapes(r) && ClaimsFit(r, s.claims, s.core.headers) && SitesFit(r, s.sites, s.core.headers.Keys)
  {
    var r := s.threads[t := s.threads[t].(exited := true)];
    assert forall u :: u in r ==> r[u].stack == s.threads[u].stack && r[u].calls == s.threads[u].calls;
    assert ThreadShape(s.threads[t]);
  }

  lemma ExitKeeps<H>(s: Sys<H>, t: nat)
    requires Inv(s) && Free(s, t) && s.threads[t].worker && s.threads[t].stack == []
    requires s.core.queue == [] && (!s.core.initialized || s.core.mode.AtLeastStopping())
    ensures Inv(RunWorkerLoop(s, t))
  {
    hide ClaimsFit, SitesFit, Tasks, Counting, Order, Dropped, ClaimLog, Bodies, ThreadShapes;
    WorkerExits(s, t);
    ExitStacks(s, t);
  }

  // ---- Lifecycle ----

  lemma NewWorkers<H>(s: Sys<H>, workers: set<nat>)
    requires Inv(s) && workers !! s.threads.Keys && s.core.live == 0
    ensures var r := s.threads + map t | t in workers :: Thread(true, false, [], [NoCall]);
      && ThreadShapes(r) && ClaimsFit(r, s.claims, s.core.headers) && SitesFit(r, s.sites, s.core.headers.Keys)
      && LiveWorkers(r) == workers
  {
    var r := s.threads + map t | t in workers :: Thread<H>.Thread(true, false, [], [NoCall]);
    assert forall u :: u in r ==> if u in workers then r[u] == Thread(true, false, [], [NoCall]) else r[u] == s.threads[u];
    assert LiveWorkers(s.threads) == {};
    forall u | u in LiveWorkers(r)
      ensures u in workers
    {
      assert u in s.threads ==> u !in LiveWorkers(s.threads);
    }
  }

  lemma InitialiseKeeps<H>(s: Sys<H>, workers: set<nat>, capacity: nat)
    requires Inv(s) && Enabled(s, Initialise(workers, capacity))
    ensures Inv(InitialiseExecutor(s, workers, capacity))
  {
    hide ClaimsFit, SitesFit, Tasks, Counting, Order, Dropped, ClaimLog, Bodies, ThreadShapes;
    NewWorkers(s, workers);
  }

  lemma FinishShutdownKeeps<H>(s: Sys<H>)
    requires Inv(s) && s.shut == ShutJoin
    ensures Inv(FinishShutdown(s)) && s.core.outstanding == 0 && s.core.queue == []
  {
    NoWorkersNoClaims(s);
    forall h | h in s.admitted
      ensures h in s.core.settled
    {
    }
    NoDupFits(s.admitted, s.core.settled);
    NoDupFits(s.core.settled, s.admitted);
    hide ClaimsFit, SitesFit, Tasks, Order, Dropped, ClaimLog, Bodies, ThreadShapes;
  }

  lemma ModeKeeps<H>(s: Sys<H>, mode: Mode, shut: Shutdown)
    requires Inv(s)
    requires Lifecycle(s.core.(mode := mode), LiveWorkers(s.threads), shut)
    ensures Inv(s.(core := s.core.(mode := mode), shut := shut))
  {
    hide ClaimsFit, SitesFit, Tasks, Counting, Order, Dropped, ClaimLog, Bodies, ThreadShapes;
  }

  lemma CallShutdownKeeps<H>(s: Sys<H>, abort: bool)
    requires Inv(s) && Enabled(s, ShutdownCall(abort))
    ensures Inv(CallShutdown(s, abort))
  {
    hide ClaimsFit, SitesFit, Tasks, Counting, Order, Dropped, ClaimLog, Bodies, ThreadShapes, StopAndAbort;
    if s.core.mode != Stopped && s.core.initialized && (abort || s.core.mode != Running) {
      StopAndAbortKeeps(s);
    }
  }

  lemma IterateShutdownKeeps<H>(s: Sys<H>, timedOut: bool)
    requires Inv(s) && Enabled(s, ShutdownIter(timedOut))
    ensures Inv(IterateShutdown(s, timedOut))
  {
    hide ClaimsFit, SitesFit, Tasks, Counting, Order, Dropped, ClaimLog, Bodies, ThreadShapes, StopAndAbort;
    StopAndAbortKeeps(s);
    StopAndAbortFrame(s);
  }

  lemma StopAndAbortFrame<H>(s: Sys<H>)
    requires QueueKnown(s.core)
    ensures var r := StopAndAbort(s); r.shut == s.shut && r.threads == s.threads && r.core.initialized == s.core.initialized
  {
    AbortFrame(s.core.(mode := Stopping));
  }

  lemma {:induction false} AbortFrame<H>(c: Core<H>)
    requires QueueKnown(c)
    ensures AbortQueued(c).initialized == c.initialized
    decreases |c.queue|
  {
    if c.queue != [] {
      AbortFrame(SetState(RequestCancel(Pop(c), c.queue[0]), c.queue[0], 3));
    }
  }

  // ---- Every step and every run ----

  lemma InitialInv<H(!new)>(s: Sys<H>)
    requires Initial(s)
    ensures Inv(s)
  {
    assert LiveWorkers(s.threads) == {};
  }

  lemma StepKeeps<H>(s: Sys<H>, a: Action<H>)
    requires Inv(s) && Enabled(s, a)
    ensures Inv(Apply(s, a))
  {
    match a
    case Initialise(workers, capacity) => InitialiseKeeps(s, workers, capacity);
    case StartCall(t, h) => BeginStartKeeps(s, t, h);
    case EnqueueTry(t) => TryEnqueueKeeps(s, t);
    case WaitCall(t, h) => SetCallKeeps(s, t, Waiting(h, false));
    case WaitTry(t) => TryWaitKeeps(s, t);
    case Cancel(h) => CancelKeeps(s, h);
    case WorkerLoop(t) => WorkerLoopKeeps(s, t);
    case Begin(t) => BeginKeeps(s, t);
    case Finish(t) => FinishKeeps(s, t);
    case End(t) => EndKeeps(s, t);
    case Wake(t) => WakeKeeps(s, s.asleep - {t}, s.shutAsleep);
    case ShutdownCall(abort) => CallShutdownKeeps(s, abort);
    case ShutdownIter(timedOut) => IterateShutdownKeeps(s, timedOut);
    case ShutdownFinal => FinishShutdownKeeps(s);
    case ShutdownWake => WakeKeeps(s, s.asleep, false);
    case Reset => ModeKeeps(s, Running, NoShutdown);
  }

  /** The invariant holds after every run from an initial state. */
  lemma {:induction false} RunKeeps<H>(s: Sys<H>, run: seq<Action<H>>)
    requires Inv(s) && Legal(s, run)
    ensures Inv(Exec(s, run))
    decreases |run|
  {
    if run != [] {
      StepKeeps(s, run[0]);
      RunKeeps(Apply(s, run[0]), run[1..]);
    }
  }
}
