/**
 When the state of the device is saved and restored during a pass.
 */
module PassProtocol {
  import opened TestNumbering
  import opened Dependencies
  import opened Schedule
  import opened PassEvents
  import opened PassRefinement
  import opened PassLedger

  predicate FailsAt(log: Log, q: int) {
    0 <= q < |log| && IsFailure(log[q])
  }

  /**
   The state is saved by the first event and by no other, and restored right
   after each failing visit and at no other time.
   */
  predicate Paired(log: Log) {
    forall q | 0 <= q < |log| :: PairedAt(log, q)
  }

  predicate PairedAt(log: Log, q: nat)
    requires q < |log|
  {
    && !log[q].Disabled?
    && (log[q].Saved? <==> q == 0) && log[q] != Saved(false)
    && (FailsAt(log, q) ==> q + 1 < |log| && log[q + 1] == Restored(true))
    && (log[q].Restored? ==> FailsAt(log, q - 1))
  }

  /**
   A finished pass: paired, with one more restore if the last test did not fail.
   Whether that last restore succeeds makes no difference.
   */
  predicate Finished(log: Log) {
    && |log| >= 3 && log[|log| - 1].Restored? && log[|log| - 2].Visited?
    && Paired(if FailsAt(log, |log| - 2) then log[|log| - 1 := Restored(true)] else log[..|log| - 1])
  }

  /** Between two calls the events so far are paired; none means the pass has not begun. */
  predicate UnderWay(log: Log, p: Progress) {
    Paired(log) && (log == [] <==> p.tstIdx == 0)
  }

  /** A visit that does not fail, or a failing one with its restore, can follow. */
  lemma PairedExtends(log: Log, more: Log)
    requires Paired(log) && log != []
    requires |more| >= 1 && more[0].Visited?
    requires more == if FailsAt(more, 0) then [more[0], Restored(true)] else [more[0]]
    ensures Paired(log + more)
  {
    var all := log + more;
    forall q | 0 <= q < |all| ensures PairedAt(all, q) {
      if q < |log| {
        assert PairedAt(log, q);
        assert all[q] == log[q];
        assert q > 0 ==> all[q - 1] == log[q - 1];
        assert q + 1 < |log| ==> all[q + 1] == log[q + 1];
      } else {
        assert all[q] == more[q - |log|];
        assert q > |log| ==> all[q - 1] == more[q - 1 - |log|];
        assert q + 1 < |all| ==> all[q + 1] == more[q + 1 - |log|];
      }
    }
  }

  lemma PairedVisit(log: Log, t: TestRef, v: Verdict, ok: bool)
    requires Paired(log) && log != []
    ensures !v.Fails() ==> Paired(log + [Visited(t, v)])
    ensures v.Fails() ==> Paired(log + [Visited(t, v)] + [Restored(true)])
    ensures Finished(log + [Visited(t, v)] + [Restored(ok)])
  {
    hide Paired;
    var visited := log + [Visited(t, v)];
    var restored := visited + [Restored(ok)];
    if v.Fails() {
      PairedExtends(log, [Visited(t, v), Restored(true)]);
      assert visited + [Restored(true)] == log + [Visited(t, v), Restored(true)];
      assert restored[|restored| - 1 := Restored(true)] == visited + [Restored(true)];
    } else {
      PairedExtends(log, [Visited(t, v)]);
      assert restored[..|restored| - 1] == visited;
    }
    assert restored[|log|] == Visited(t, v);
  }

  /** One call of RunTest with --restore, whose save, if it does one, succeeds. */
  lemma StepProtocol(env: Setup, g: nat, shape: Shape, deps: seq<TestRef>, start: nat, p: Progress)
    requires env.restore && Runnable(g, shape, deps, p) && !SaveFails(env, p)
    requires start <= |p.log| && UnderWay(p.log[start..], p)
    ensures var s := Step(env, g, shape, deps, p);
      && start <= |s.after.log|
      && (s.after.tstIdx == -1 || s.result == TR_FAIL ==> Finished(s.after.log[start..]))
      && (s.after.tstIdx != -1 ==> UnderWay(s.after.log[start..], s.after))
  {
    hide Judge, Visit, Paired, Finished;
    var i := p.tstIdx;
    var ready := MaybeSave(env, p);
    var log := ready.log[start..];
    assert log == (if i == 0 then [Saved(true)] else p.log[start..]);
    var v := Judge(env, ready.log, deps[i]);
    var visited := ready.log + [Visited(deps[i], v)];
    var ok := env.dut.restoreState(visited);
    StepAttempts(env, g, shape, deps, p);
    AttemptEvents(env, deps, i, ready);
    PairedStart();
    PairedVisit(log, deps[i], v, ok);
    assert visited[start..] == log + [Visited(deps[i], v)];
    assert (visited + [Restored(ok)])[start..] == log + [Visited(deps[i], v)] + [Restored(ok)];
  }

  lemma PairedStart()
    ensures Paired([Saved(true)])
  {
    var log := [Saved(true)];
    assert log[0] == Saved(true) && PairedAt(log, 0);
  }

  lemma AttemptEvents(env: Setup, deps: seq<TestRef>, i: nat, ready: Progress)
    requires env.restore && i < |deps|
    ensures var s := Attempt(env, deps, i, ready);
      var v := Judge(env, ready.log, deps[i]);
      var visited := ready.log + [Visited(deps[i], v)];
      var ok := env.dut.restoreState(visited);
      && s.after.log == (if s.after.tstIdx == -1 || v.Fails() then visited + [Restored(ok)] else visited)
      && (s.result == TR_FAIL ==> v.Fails() || s.after.tstIdx == -1)
      && (s.after.tstIdx != -1 && v.Fails() ==> ok)
  {
    hide Judge, NumSkipped, BlockEnd;
  }

  lemma {:induction false} PassFinishes(env: Setup, g: nat, shape: Shape, deps: seq<TestRef>,
      start: nat, p: Progress, c: Counts)
    requires env.restore && AllExist(g, shape, deps) && 0 <= p.tstIdx < |deps| && !SaveFails(env, p)
    requires start <= |p.log| && UnderWay(p.log[start..], p)
    ensures var end := RunPass(env, g, shape, deps, p, c).after;
      start <= |end.log| && Finished(end.log[start..])
    decreases Remaining(deps, p)
  {
    hide Step, Tally, Paired, Finished;
    var s := Step(env, g, shape, deps, p);
    var c' := Tally(c, s.result, s.numSkipped);
    StepProtocol(env, g, shape, deps, start, p);
    if s.result != TR_FAIL || env.ignore {
      if s.after.tstIdx == -1 {
        NothingLeft(env, g, shape, deps, s.after, c');
      } else {
        PassFinishes(env, g, shape, deps, start, s.after, c');
      }
    }
  }

  /**
   With --restore every pass over a non-empty existing set, on any device, saves
   the state exactly once, before any test; and unless that fails, the last
   thing it does is to restore it: when it completes, when a failure stops it,
   and when restoring itself fails.
   */
  lemma PassSavesAndRestores(env: Setup, g: nat, shape: Shape, deps: seq<TestRef>,
      log: Log, failed: seq<TestRef>, skipped: seq<TestRef>, c: Counts)
    requires env.restore && AllExist(g, shape, deps) && deps != []
    ensures var end := RunPass(env, g, shape, deps, Start(log, failed, skipped), c).after;
      && |log| <= |end.log|
      && if env.dut.saveState(log) then Finished(end.log[|log|..]) else end.log[|log|..] == [Saved(false)]
  {
    hide RunPass, Finished;
    assert log[|log|..] == [];
    var p := Start(log, failed, skipped);
    if env.dut.saveState(log) {
      PassFinishes(env, g, shape, deps, |log|, p, c);
    } else {
      SaveFailureEndsPass(env, g, shape, deps, log, failed, skipped, c);
    }
  }

  /**
   A missing x.y.0 is noticed only after x.0.0 has run.  If that passes, the
   state that was saved is not restored; only a failure or skip of x.0.0
   restores it.
   */
  lemma MissingTargetLeavesState(env: Setup, g: nat, shape: Shape, target: TestRef,
      log: Log, failed: seq<TestRef>, skipped: seq<TestRef>, c: Counts)
    requires target.group == g && target.Specific() && target.yLev > 0 && target.zLev == 0
    requires Exists(g, shape, TestRef(g, target.xLev, 0, 0)) && !Exists(g, shape, target)
    requires env.restore && env.dut.saveState(log)
    ensures TestSet(g, shape, target).Some?
    ensures var end := RunPass(env, g, shape, TestSet(g, shape, target).value, Start(log, failed, skipped), c).after;
      var config := TestRef(g, target.xLev, 0, 0);
      var v := Judge(env, log + [Saved(true)], config);
      var visited := log + [Saved(true)] + [Visited(config, v)];
      end.log == if v.Fails() || v.Skips() then visited + [Restored(env.dut.restoreState(visited))] else visited
  {
    hide Judge, RunPass;
    var config := TestRef(g, target.xLev, 0, 0);
    var deps := [config, target];
    var p := Start(log, failed, skipped);
    var s := Step(env, g, shape, deps, p);
    assert BlockEnd(deps, 0, 1, true) == 2 && BlockEnd(deps, 0, 1, false) == 2;
    StepAttempts(env, g, shape, deps, p);
    AttemptEvents(env, deps, 0, MaybeSave(env, p));
    PassStep(env, g, shape, deps, p, c);
    NothingLeft(env, g, shape, deps, s.after, Tally(c, s.result, s.numSkipped));
  }

  /** A pass is its first call and, unless that ends it, the pass from there on. */
  lemma PassStep(env: Setup, g: nat, shape: Shape, deps: seq<TestRef>, p: Progress, c: Counts)
    requires Runnable(g, shape, deps, p)
    ensures var s := Step(env, g, shape, deps, p);
      RunPass(env, g, shape, deps, p, c).after
      == if s.result == TR_FAIL && !env.ignore then s.after
         else RunPass(env, g, shape, deps, s.after, Tally(c, s.result, s.numSkipped)).after
  {
    hide Step, Tally;
  }
}
