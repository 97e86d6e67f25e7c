/**
 The runtime object: begin and stop play around a snapshot scene it owns, and the frame tick
 (engine/engine_runtime.mettle:36-162).
 */
module PlayMode {
  import opened TerrainTable
  import opened SceneSpec
  import opened PlaySpec
  import S = Scene

  class RuntimeState {
    const snapshot: S.Scene
    var playing: bool
    var accumulator: real
    var runtimeTime: real
    var frameDt: real

    ghost function Clock(): PlaySpec.Clock
      reads this
    {
      PlaySpec.Clock(playing, accumulator, runtimeTime, frameDt)
    }

    /** The live scene shares nothing with the snapshot, height arrays included. */
    ghost predicate Apart(sc: S.Scene)
      reads snapshot, snapshot.rows, snapshot.terrain, snapshot.terrain.Repr
      reads sc, sc.rows, sc.terrain, sc.terrain.Repr
      ensures Apart(sc) ==>
        snapshot.Valid() && sc.Valid() && snapshot.terrain.patches.Length == sc.terrain.patches.Length
    {
      && snapshot.Valid() && sc.Valid() && snapshot.Repr() !! sc.Repr()
      && this !in snapshot.Repr() && this !in sc.Repr()
      && snapshot.terrain.patches.Length == sc.terrain.patches.Length
    }

    /** The snapshot's contents and footprint. */
    ghost function Kept(): (SceneValue, set<object>)
      reads snapshot, snapshot.rows, snapshot.terrain, snapshot.terrain.Repr
      requires snapshot.Valid()
    {
      (snapshot.Value(), snapshot.terrain.Repr)
    }

    constructor (sceneCap: int)
      ensures snapshot.Valid() && fresh(snapshot.Repr()) && this !in snapshot.Repr()
      ensures snapshot.terrain.patches.Length == 128 && Clock() == STOPPED
    {
      snapshot := new S.Scene(sceneCap);
      playing, accumulator, runtimeTime, frameDt := false, 0.0, 0.0, 0.0;
    }

    method BeginPlay(sc: S.Scene) returns (ok: bool)
      requires Apart(sc)
      modifies this, snapshot, snapshot.rows, snapshot.terrain.Repr
      ensures Apart(sc) && fresh(snapshot.terrain.Repr - old(snapshot.terrain.Repr))
      ensures sc.terrain.Repr == old(sc.terrain.Repr) && sc.Value() == old(sc.Value())
      ensures ok == (old(playing) || sc.count <= snapshot.rows.Length)
      ensures snapshot.Value() ==
        if old(playing) then old(snapshot.Value()) else CopyInto(old(snapshot.Value()), sc.Value())
      ensures Clock() == if old(playing) || !ok then old(Clock()) else STOPPED.(playing := true)
    {
      if playing {
        return true;
      }
      var copied := snapshot.CopyFrom(sc);
      if !copied {
        return false;
      }
      playing, accumulator, runtimeTime, frameDt := true, 0.0, 0.0, 0.0;
      ok := true;
    }

    method StopPlay(sc: S.Scene)
      requires Apart(sc)
      modifies this, sc, sc.rows, sc.terrain.Repr
      ensures Apart(sc) && fresh(sc.terrain.Repr - old(sc.terrain.Repr))
      ensures Kept() == old(Kept())
      ensures sc.Value() == if old(playing) then CopyInto(old(sc.Value()), old(snapshot.Value())) else old(sc.Value())
      ensures Clock() == if old(playing) then STOPPED else old(Clock())
    {
      if !playing {
        return;
      }
      var _ := sc.CopyFrom(snapshot);
      playing, accumulator, runtimeTime, frameDt := false, 0.0, 0.0, 0.0;
    }

    /** Edits of the live scene do not reach the snapshot. */
    method EditLive(sc: S.Scene, ops: seq<SceneOp>)
      requires Apart(sc)
      modifies sc, sc.rows, sc.terrain.Repr
      ensures Apart(sc) && fresh(sc.terrain.Repr - old(sc.terrain.Repr))
      ensures Kept() == old(Kept()) && Clock() == old(Clock())
      ensures sc.Value() == Run(old(sc.Value()), ops)
    {
      sc.EditAll(ops);
    }

    method FixedStep(sc: S.Scene, ops: seq<SceneOp>)
      requires Apart(sc)
      modifies this`accumulator, this`runtimeTime, sc, sc.rows, sc.terrain.Repr
      ensures Apart(sc) && fresh(sc.terrain.Repr - old(sc.terrain.Repr)) && Kept() == old(Kept())
      ensures sc.Value() == Run(old(sc.Value()), ops)
      ensures Clock() == Stepped(old(Clock()), 1)
    {
      runtimeTime := runtimeTime + FIXED_DT;
      EditLive(sc, ops);
      accumulator := accumulator - FIXED_DT;
    }

    /** Where the loop stands after `done` of its steps. */
    ghost predicate Midway(sc: S.Scene, start: SceneValue, clock: PlaySpec.Clock, snap: (SceneValue, set<object>),
                           script: nat -> seq<SceneOp>, done: nat)
      reads this, snapshot, snapshot.rows, snapshot.terrain, snapshot.terrain.Repr
      reads sc, sc.rows, sc.terrain, sc.terrain.Repr
      ensures Midway(sc, start, clock, snap, script, done) ==>
        done <= MAX_STEPS && (accumulator >= FIXED_DT && done < MAX_STEPS <==> done < StepsFrom(clock.accumulator, 0))
    {
      && Apart(sc) && Kept() == snap && WellFormed(start.terrain)
      && done <= StepsFrom(clock.accumulator, 0) && Clock() == Stepped(clock, done)
      && sc.Value() == Scripted(start, script, done)
      && (AnotherStep(clock, done); true)
    }

    method NextStep(sc: S.Scene, script: nat -> seq<SceneOp>, done: nat,
                    ghost start: SceneValue, ghost clock: PlaySpec.Clock, ghost snap: (SceneValue, set<object>))
      requires Midway(sc, start, clock, snap, script, done) && accumulator >= FIXED_DT && done < MAX_STEPS
      modifies this`accumulator, this`runtimeTime, sc, sc.rows, sc.terrain.Repr
      ensures fresh(sc.terrain.Repr - old(sc.terrain.Repr))
      ensures Midway(sc, start, clock, snap, script, done + 1)
    {
      ScriptedNext(start, script, done);
      SteppedNext(clock, done);
      hide Scripted, Run, Stepped, StepsFrom, Apart, Kept, S.Scene.Valid, S.Scene.Value;
      FixedStep(sc, script(done));
    }

    /** Fixed steps while enough time has accumulated, at most five. */
    method FixedSteps(sc: S.Scene, script: nat -> seq<SceneOp>, reports: nat -> bool) returns (steps: nat, changed: bool)
      requires Apart(sc)
      modifies this`accumulator, this`runtimeTime, sc, sc.rows, sc.terrain.Repr
      ensures Apart(sc) && fresh(sc.terrain.Repr - old(sc.terrain.Repr)) && Kept() == old(Kept())
      ensures steps == StepsFrom(old(Clock()).accumulator, 0) && changed == AnyReport(reports, steps)
      ensures sc.Value() == Scripted(old(sc.Value()), script, steps)
      ensures Clock() == Stepped(old(Clock()), steps)
    {
      ghost var start, snap, clock := sc.Value(), Kept(), Clock();
      SteppedNext(clock, 0);
      assert WellFormed(start.terrain) && Midway(sc, start, clock, snap, script, 0);
      steps, changed := RunSteps(sc, script, reports, start, clock, snap);
    }

    method RunSteps(sc: S.Scene, script: nat -> seq<SceneOp>, reports: nat -> bool,
                    ghost start: SceneValue, ghost clock: PlaySpec.Clock, ghost snap: (SceneValue, set<object>))
      returns (steps: nat, changed: bool)
      requires Midway(sc, start, clock, snap, script, 0)
      modifies this`accumulator, this`runtimeTime, sc, sc.rows, sc.terrain.Repr
      ensures fresh(sc.terrain.Repr - old(sc.terrain.Repr))
      ensures Midway(sc, start, clock, snap, script, steps) && steps >= StepsFrom(clock.accumulator, 0)
      ensures changed == AnyReport(reports, steps)
    {
      hide *;
      steps, changed := 0, false;
      ReportsSoFar(reports, 0);
      while accumulator >= FIXED_DT && steps < MAX_STEPS
        invariant fresh(sc.terrain.Repr - old(sc.terrain.Repr))
        invariant Midway(sc, start, clock, snap, script, steps) && changed == AnyReport(reports, steps)
        decreases MAX_STEPS - steps
      {
        NextStep(sc, script, steps, start, clock, snap);
        ReportsSoFar(reports, steps);
        changed := changed || reports(steps);
        steps := steps + 1;
      }
    }

    lemma ReportsSoFar(reports: nat -> bool, n: nat)
      ensures !AnyReport(reports, 0) && AnyReport(reports, n + 1) == (AnyReport(reports, n) || reports(n))
    {
    }

    method AddTime(sc: S.Scene, dt: real)
      requires Apart(sc)
      modifies this`frameDt, this`accumulator
      ensures Apart(sc) && Kept() == old(Kept()) && sc.Value() == old(sc.Value())
      ensures sc.terrain.Repr == old(sc.terrain.Repr) && Clock() == Begun(old(Clock()), dt)
    {
      hide S.Scene.Valid, S.Scene.Value;
      frameDt := if dt < 0.0 then 0.0 else if dt > 0.25 then 0.25 else dt;
      accumulator := accumulator + frameDt;
    }

    method DropLeftover(sc: S.Scene, steps: nat)
      requires Apart(sc)
      modifies this`accumulator
      ensures Apart(sc) && Kept() == old(Kept()) && sc.Value() == old(sc.Value())
      ensures sc.terrain.Repr == old(sc.terrain.Repr) && Clock() == Ended(old(Clock()), steps)
    {
      hide S.Scene.Valid, S.Scene.Value;
      if steps >= MAX_STEPS {
        accumulator := 0.0;
      }
    }

    method FrameTick(sc: S.Scene, dt: real, script: nat -> seq<SceneOp>, reports: nat -> bool) returns (changed: bool)
      requires Apart(sc)
      modifies this, sc, sc.rows, sc.terrain.Repr
      ensures Apart(sc) && fresh(sc.terrain.Repr - old(sc.terrain.Repr)) && Kept() == old(Kept())
      ensures Clock() == Tick(old(Clock()), dt)
      ensures sc.Value() == Scripted(old(sc.Value()), script, FrameSteps(old(Clock()), dt))
      ensures changed == AnyReport(reports, FrameSteps(old(Clock()), dt))
    {
      TickParts(Clock(), dt);
      ClockFields();
      ScriptedNext(sc.Value(), script, 0);
      ReportsSoFar(reports, 0);
      hide S.Scene.Valid, S.Scene.Value, Scripted, StepsFrom, Tick, FrameSteps, Begun, Ended, Stepped, Kept, Clock;
      if !playing {
        return false;
      }
      AddTime(sc, dt);
      var steps;
      steps, changed := FixedSteps(sc, script, reports);
      DropLeftover(sc, steps);
    }

    lemma ClockFields()
      ensures Clock().playing == playing
    {
    }

    lemma SceneCaps(sc: S.Scene)
      requires sc.Valid()
      ensures sc.Value().cap == sc.rows.Length && sc.Value().patchCap == sc.terrain.patches.Length
      ensures |sc.Value().rows| == sc.count && Fits(sc.Value()) && WellFormed(sc.Value().terrain)
    {
    }

    method RunFrames(sc: S.Scene, frames: seq<Frame>)
      requires Apart(sc)
      modifies this, sc, sc.rows, sc.terrain.Repr
      ensures Apart(sc) && fresh(sc.terrain.Repr - old(sc.terrain.Repr)) && Kept() == old(Kept())
      ensures WellFormed(old(sc.Value()).terrain) && (sc.Value(), Clock()) == Played(old(sc.Value()), old(Clock()), frames)
    {
      hide S.Scene.Valid, S.Scene.Value, Apart, Kept, Run, Scripted, FrameSteps, Tick, Played, Clock;
      SceneCaps(sc);
      ghost var start, clock := sc.Value(), Clock();
      var i := 0;
      NoFrames(start, clock);
      assert frames[..0] == [];
      while i < |frames|
        invariant 0 <= i <= |frames| && WellFormed(start.terrain)
        invariant Apart(sc) && fresh(sc.terrain.Repr - old(sc.terrain.Repr)) && Kept() == old(Kept())
        invariant (sc.Value(), Clock()) == Played(start, clock, frames[..i])
      {
        PlayedNext(start, clock, frames, i);
        EditLive(sc, frames[i].edits);
        var _ := FrameTick(sc, frames[i].dt, frames[i].script, frames[i].reports);
        i := i + 1;
      }
      assert frames[..i] == frames;
    }

    lemma NoFrames(s: SceneValue, c: PlaySpec.Clock)
      requires WellFormed(s.terrain)
      ensures Played(s, c, []) == (s, c)
    {
    }

    lemma KeptValue()
      requires snapshot.Valid()
      ensures Kept().0 == snapshot.Value()
    {
    }

    /**
     Whatever edits and scripts do between begin and stop, the scene comes back exactly; a
     session begun while already playing copies the older snapshot over what was played.
     */
    method PlaySession(sc: S.Scene, frames: seq<Frame>) returns (ok: bool)
      requires Apart(sc)
      modifies this, snapshot, snapshot.rows, snapshot.terrain.Repr, sc, sc.rows, sc.terrain.Repr
      ensures Apart(sc) && ok == (old(playing) || old(sc.count) <= snapshot.rows.Length)
      ensures Clock() == if ok then STOPPED else old(Clock())
      ensures !old(playing) ==> sc.Value() == old(sc.Value())
      ensures WellFormed(old(sc.Value()).terrain)
      ensures old(playing) ==>
        sc.Value() == CopyInto(Played(old(sc.Value()), old(Clock()), frames).0, old(snapshot.Value()))
    {
      hide S.Scene.Valid, S.Scene.Value, Apart, Kept, CopyInto, Played;
      SceneCaps(sc);
      SceneCaps(snapshot);
      ghost var start, shot := sc.Value(), snapshot.Value();
      ok := BeginPlay(sc);
      SceneCaps(sc);
      if !ok {
        return;
      }
      KeptValue();
      ClockFields();
      PlayedPlaying(start, Clock(), frames);
      RunFrames(sc, frames);
      ClockFields();
      KeptValue();
      SceneCaps(sc);
      if !old(playing) {
        CopyRestoresIff(start, sc.Value(), shot);
      }
      StopPlay(sc);
    }

    lemma {:induction false} PlayedPlaying(s: SceneValue, c: PlaySpec.Clock, frames: seq<Frame>)
      requires WellFormed(s.terrain)
      ensures Played(s, c, frames).1.playing == c.playing
    {
      if frames != [] {
        PlayedPlaying(s, c, frames[..|frames| - 1]);
        hide Run, Scripted, FrameSteps;
      }
    }
  }
}
