/**
 Play mode as values: the fixed-step clock and the snapshot
 (engine/engine_runtime.mettle:36-56, 88-162).
 */
module PlaySpec {
  import opened TerrainTable
  import opened SceneSpec

  const FIXED_DT: real := 1.0 / 60.0
  const MAX_STEPS: nat := 5
  const LONGEST_FRAME: real := 0.25

  datatype Clock = Clock(playing: bool, accumulator: real, time: real, frameDt: real)

  const STOPPED := Clock(false, 0.0, 0.0, 0.0)

  function ClampDt(dt: real): real {
    if dt < 0.0 then 0.0 else if dt > LONGEST_FRAME then LONGEST_FRAME else dt
  }

  /** The step count once `done` steps have been taken and acc is left over. */
  function StepsFrom(acc: real, done: nat): (n: nat)
    requires done <= MAX_STEPS
    ensures done <= n <= MAX_STEPS
    decreases MAX_STEPS - done
  {
    if acc >= FIXED_DT && done < MAX_STEPS then StepsFrom(acc - FIXED_DT, done + 1) else done
  }

  /** The clock after n fixed steps of a frame. */
  function Stepped(c: Clock, n: nat): Clock {
    c.(accumulator := c.accumulator - n as real * FIXED_DT, time := c.time + n as real * FIXED_DT)
  }

  lemma SteppedNext(c: Clock, n: nat)
    ensures Stepped(c, 0) == c && Stepped(Stepped(c, n), 1) == Stepped(c, n + 1)
    ensures Stepped(c, 1).accumulator == c.accumulator - FIXED_DT
  {
    assert (n + 1) as real * FIXED_DT == n as real * FIXED_DT + FIXED_DT;
  }

  function Steps(c: Clock, dt: real): nat {
    StepsFrom(c.accumulator + ClampDt(dt), 0)
  }

  function Tick(c: Clock, dt: real): Clock {
    if !c.playing then c
    else
      var n := Steps(c, dt);
      var left := c.accumulator + ClampDt(dt) - n as real * FIXED_DT;
      Clock(true, if n >= MAX_STEPS then 0.0 else left, c.time + n as real * FIXED_DT, ClampDt(dt))
  }

  /** What the scripts of n fixed steps do to the scene, in step order. */
  function Scripted(s: SceneValue, script: nat -> seq<SceneOp>, n: nat): (r: SceneValue)
    requires WellFormed(s.terrain)
    ensures WellFormed(r.terrain)
  {
    if n == 0 then s else Run(Scripted(s, script, n - 1), script(n - 1))
  }

  /** Whether the scripts of one of the first n fixed steps reported a change. */
  predicate AnyReport(reports: nat -> bool, n: nat) {
    n > 0 && (AnyReport(reports, n - 1) || reports(n - 1))
  }

  /** One frame of a session: edits made by the editor, then the tick. */
  datatype Frame = Frame(dt: real, edits: seq<SceneOp>, script: nat -> seq<SceneOp>, reports: nat -> bool)

  /** What the frames make of the scene and the clock. */
  function Played(s: SceneValue, c: Clock, frames: seq<Frame>): (r: (SceneValue, Clock))
    requires WellFormed(s.terrain)
    ensures WellFormed(r.0.terrain)
  {
    if frames == [] then (s, c)
    else
      var p, f := Played(s, c, frames[..|frames| - 1]), frames[|frames| - 1];
      (Scripted(Run(p.0, f.edits), f.script, FrameSteps(p.1, f.dt)), Tick(p.1, f.dt))
  }

  lemma PlayedNext(s: SceneValue, c: Clock, frames: seq<Frame>, i: nat)
    requires WellFormed(s.terrain) && i < |frames|
    ensures var p, f := Played(s, c, frames[..i]), frames[i];
      Played(s, c, frames[..i + 1]) == (Scripted(Run(p.0, f.edits), f.script, FrameSteps(p.1, f.dt)), Tick(p.1, f.dt))
  {
    hide Run, Scripted, FrameSteps, Tick;
    assert frames[..i + 1][..i] == frames[..i];
  }

  lemma ScriptedNext(s: SceneValue, script: nat -> seq<SceneOp>, n: nat)
    requires WellFormed(s.terrain)
    ensures Scripted(s, script, 0) == s
    ensures Scripted(s, script, n + 1) == Run(Scripted(s, script, n), script(n))
  {
    hide Run;
  }

  lemma StepsNext(acc: real, done: nat)
    requires done <= MAX_STEPS
    ensures StepsFrom(acc, done) ==
      if acc >= FIXED_DT && done < MAX_STEPS then StepsFrom(acc - FIXED_DT, done + 1) else done
  {
  }

  function Begun(c: Clock, dt: real): Clock {
    c.(accumulator := c.accumulator + ClampDt(dt), frameDt := ClampDt(dt))
  }

  function Ended(c: Clock, steps: nat): Clock {
    if steps >= MAX_STEPS then c.(accumulator := 0.0) else c
  }

  function FrameSteps(c: Clock, dt: real): nat {
    if c.playing then Steps(c, dt) else 0
  }

  /** A frame is its clamped time added, then its steps, then the leftover dropped at the limit. */
  lemma TickParts(c: Clock, dt: real)
    ensures !c.playing ==> Tick(c, dt) == c && FrameSteps(c, dt) == 0
    ensures c.playing ==>
      var n := StepsFrom(Begun(c, dt).accumulator, 0);
      n == FrameSteps(c, dt) && Tick(c, dt) == Ended(Stepped(Begun(c, dt), n), n)
  {
  }

  lemma {:induction false} StepsUnfold(c: Clock, k: nat)
    requires k <= StepsFrom(c.accumulator, 0)
    ensures StepsFrom(Stepped(c, k).accumulator, k) == StepsFrom(c.accumulator, 0)
  {
    if k > 0 {
      StepsUnfold(c, k - 1);
      SteppedNext(c, k - 1);
      SteppedNext(Stepped(c, k - 1), 0);
      StepsNext(Stepped(c, k - 1).accumulator, k - 1);
    }
  }

  /** The loop takes another step exactly while it has taken fewer than the counted ones. */
  lemma AnotherStep(c: Clock, k: nat)
    requires k <= StepsFrom(c.accumulator, 0)
    ensures Stepped(c, k).accumulator >= FIXED_DT && k < MAX_STEPS <==> k < StepsFrom(c.accumulator, 0)
  {
    StepsUnfold(c, k);
    StepsNext(Stepped(c, k).accumulator, k);
  }

  // ---- The clock ----

  lemma {:induction false} StepsExact(acc: real, done: nat)
    requires done <= MAX_STEPS && acc >= 0.0
    ensures var n := StepsFrom(acc, done);
      && (n - done) as real * FIXED_DT <= acc
      && (n < MAX_STEPS ==> acc < (n - done + 1) as real * FIXED_DT)
    decreases MAX_STEPS - done
  {
    if acc >= FIXED_DT && done < MAX_STEPS {
      StepsExact(acc - FIXED_DT, done + 1);
    }
  }

  predicate Between(c: Clock) {
    c.playing && 0.0 <= c.accumulator < FIXED_DT
  }

  /**
   A frame leaves less than one step over and never runs ahead of the wall clock; it loses
   time exactly when more than five steps were due.
   */
  lemma TickExact(c: Clock, dt: real)
    requires Between(c)
    ensures Between(Tick(c, dt))
    ensures var due := c.accumulator + ClampDt(dt); var t := Tick(c, dt);
      && c.time <= t.time <= c.time + due
      && (t.time + t.accumulator == c.time + due <==> due <= MAX_STEPS as real * FIXED_DT)
      && t.time + t.accumulator <= c.time + due
  {
    StepsExact(c.accumulator + ClampDt(dt), 0);
  }

  /**
   A frame time from 0 to a quarter of a second counts in full: n sixtieths are simulated, the
   most that fit but never more than five, and the rest is kept unless there were five.
   */
  lemma FrameCountsInFull(c: Clock, dt: real)
    requires c.playing && 0.0 <= c.accumulator < 1.0 / 60.0 && 0.0 <= dt <= 0.25
    ensures var n, due, t := FrameSteps(c, dt), c.accumulator + dt, Tick(c, dt);
      && n <= 5 && n as real / 60.0 <= due && (n < 5 ==> due < (n + 1) as real / 60.0)
      && t.time == c.time + n as real / 60.0 && t.frameDt == dt && t.playing
      && t.accumulator == if n == 5 then 0.0 else due - n as real / 60.0
  {
    StepsExact(c.accumulator + dt, 0);
  }

  /** A negative frame time counts as none, a longer one as a quarter of a second; a stopped clock stands still. */
  lemma OtherFrames(c: Clock, dt: real)
    ensures dt < 0.0 ==> Tick(c, dt) == Tick(c, 0.0) && FrameSteps(c, dt) == FrameSteps(c, 0.0)
    ensures dt > 0.25 ==> Tick(c, dt) == Tick(c, 0.25) && FrameSteps(c, dt) == FrameSteps(c, 0.25)
    ensures !c.playing ==> Tick(c, dt) == c && FrameSteps(c, dt) == 0
  {
  }

  /** A frame reports a change exactly when the scripts of one of its steps did. */
  lemma {:induction false} ReportsIff(reports: nat -> bool, n: nat)
    ensures AnyReport(reports, n) <==> exists k: nat :: k < n && reports(k)
  {
    if n > 0 {
      ReportsIff(reports, n - 1);
    }
  }

  function TickAll(c: Clock, dts: seq<real>): Clock {
    if dts == [] then c else Tick(TickAll(c, dts[..|dts| - 1]), dts[|dts| - 1])
  }

  function Elapsed(dts: seq<real>): real {
    if dts == [] then 0.0 else Elapsed(dts[..|dts| - 1]) + ClampDt(dts[|dts| - 1])
  }

  /** No frame was asked for more than five steps. */
  predicate KeptUp(c: Clock, dts: seq<real>) {
    dts == [] ||
    (KeptUp(c, dts[..|dts| - 1]) &&
     TickAll(c, dts[..|dts| - 1]).accumulator + ClampDt(dts[|dts| - 1]) <= MAX_STEPS as real * FIXED_DT)
  }

  /** Simulated time never passes elapsed time, and accounts for all of it exactly when every frame kept up. */
  lemma {:induction false} RunExact(c: Clock, dts: seq<real>)
    requires Between(c)
    ensures var t := TickAll(c, dts);
      && Between(t) && t.time + t.accumulator <= c.time + c.accumulator + Elapsed(dts)
      && (t.time + t.accumulator == c.time + c.accumulator + Elapsed(dts) <==> KeptUp(c, dts))
  {
    if dts != [] {
      RunExact(c, dts[..|dts| - 1]);
      TickExact(TickAll(c, dts[..|dts| - 1]), dts[|dts| - 1]);
    }
  }

  // ---- The snapshot ----

  predicate Fits(s: SceneValue) {
    |s.rows| <= s.cap && |s.terrain| <= s.patchCap
  }

  /** Copying out and back over any later scene of the same capacities restores everything, if it all fitted. */
  lemma CopyRestoresIff(s: SceneValue, later: SceneValue, snap: SceneValue)
    requires Fits(s) && later.cap == s.cap && later.patchCap == s.patchCap && |s.rows| <= snap.cap
    ensures CopyInto(later, CopyInto(snap, s)) == s <==> |s.terrain| <= snap.patchCap
  {
  }
}
