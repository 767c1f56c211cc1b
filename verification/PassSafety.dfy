/**
 What every pass keeps, whatever the device does, and which tests it reaches.
 */
module PassSafety {
  import opened TestNumbering
  import opened Dependencies
  import opened Schedule
  import opened PassEvents

  /** Only entries below n were visited. */
  ghost predicate From(deps: seq<TestRef>, log: Log, n: nat) {
    forall q | 0 <= q < |log| && log[q].Visited? ::
      exists k | 0 <= k < n && k < |deps| :: deps[k] == log[q].test
  }

  /** Below n exactly the existing entries that nothing blocks were visited. */
  predicate Complete(g: nat, shape: Shape, deps: seq<TestRef>, log: Log, n: nat) {
    forall k | 0 <= k < n && k < |deps| ::
      VisitedIn(log, deps[k]) <==> Exists(g, shape, deps[k]) && !Blocked(log, deps[k])
  }

  /** Nothing from n on is blocked yet. */
  predicate Clear(deps: seq<TestRef>, log: Log, n: nat) {
    forall k | n <= k < |deps| :: !Blocked(log, deps[k])
  }

  /**
   When a test is visited, all it depends on was run earlier and did not fail,
   no earlier test of its x level failed, and it was not visited before.
   */
  ghost predicate SafeAt(log: Log, q: nat)
    requires q < |log| && log[q].Visited?
  {
    var u := log[q].test;
    && (forall t | IsDependency(t, u) ::
          exists r | 0 <= r < q :: log[r].Visited? && log[r].test == t && IsPass(log[r]))
    && (forall r | 0 <= r < q && log[r].Visited? :: log[r].test.xLev == u.xLev ==> !IsFailure(log[r]))
    && !VisitedIn(log[..q], u)
  }

  ghost predicate Safe(log: Log) {
    forall q | 0 <= q < |log| && log[q].Visited? :: SafeAt(log, q)
  }

  lemma SafeExtend(log: Log, e: Event)
    requires Safe(log)
    requires e.Visited? ==> SafeAt(log + [e], |log|)
    ensures Safe(log + [e])
  {
    var wide := log + [e];
    forall q | 0 <= q < |wide| && wide[q].Visited? ensures SafeAt(wide, q) {
      if q < |log| {
        assert SafeAt(log, q);
        assert wide[..q] == log[..q];
        forall t | IsDependency(t, wide[q].test)
          ensures exists r | 0 <= r < q :: wide[r].Visited? && wide[r].test == t && IsPass(wide[r])
        {
          var r :| 0 <= r < q && log[r].Visited? && log[r].test == t && IsPass(log[r]);
          assert wide[r] == log[r] && IsPass(wide[r]);
        }
      }
    }
  }

  lemma BlockedExtend(log: Log, e: Event, u: TestRef)
    ensures Blocked(log + [e], u) <==>
      Blocked(log, u) || (e.Visited? && Blocks(e.test, e.verdict, u))
    ensures VisitedIn(log + [e], u) <==> VisitedIn(log, u) || (e.Visited? && e.test == u)
  {
    var wide := log + [e];
    assert wide[|log|] == e;
    assert forall q | 0 <= q < |log| :: wide[q] == log[q];
  }

  /** Everything a pass keeps at a point where entry n comes next. */
  ghost predicate Invariant(g: nat, shape: Shape, deps: seq<TestRef>, log: Log, n: nat) {
    From(deps, log, n) && Complete(g, shape, deps, log, n) && Clear(deps, log, n) && Safe(log)
  }

  lemma QuietExtend(g: nat, shape: Shape, deps: seq<TestRef>, log: Log, n: nat, e: Event)
    requires Invariant(g, shape, deps, log, n) && !e.Visited?
    ensures Invariant(g, shape, deps, log + [e], n)
  {
    var wide := log + [e];
    forall k | 0 <= k < |deps|
      ensures Blocked(wide, deps[k]) == Blocked(log, deps[k])
      ensures VisitedIn(wide, deps[k]) == VisitedIn(log, deps[k])
    {
      BlockedExtend(log, e, deps[k]);
    }
    assert forall q | 0 <= q < |wide| && wide[q].Visited? :: q < |log| && wide[q] == log[q];
    SafeExtend(log, e);
  }

  /** A blocked dependency blocks whatever depends on it. */
  lemma BlockedIsInherited(log: Log, t: TestRef, u: TestRef)
    requires IsDependency(t, u) && Blocked(log, t)
    ensures Blocked(log, u)
  {
    var q :| 0 <= q < |log| && log[q].Visited? && Blocks(log[q].test, log[q].verdict, t);
    assert Before(t, u);
    assert Blocks(log[q].test, log[q].verdict, u);
  }

  /** The next entry may be visited safely. */
  lemma NextIsSafe(g: nat, shape: Shape, deps: seq<TestRef>, log: Log, i: nat, v: Verdict)
    requires Schedulable(g, shape, deps) && i < |deps| && Invariant(g, shape, deps, log, i)
    ensures SafeAt(log + [Visited(deps[i], v)], |log|)
  {
    var u := deps[i];
    var wide := log + [Visited(u, v)];
    assert wide[..|log|] == log;
    forall t | IsDependency(t, u)
      ensures exists r | 0 <= r < |log| :: wide[r].Visited? && wide[r].test == t && IsPass(wide[r])
    {
      assert u in deps && t in deps;
      var k :| 0 <= k < |deps| && deps[k] == t;
      assert k < i && deps[..|deps| - 1][k] == t;
      if Blocked(log, t) { BlockedIsInherited(log, t, u); }
      assert VisitedIn(log, deps[k]);
      var r :| 0 <= r < |log| && log[r].Visited? && log[r].test == t;
      assert !Blocks(log[r].test, log[r].verdict, u);
      assert wide[r] == log[r] && IsPass(wide[r]);
    }
    forall r | 0 <= r < |log| && wide[r].Visited? && wide[r].test.xLev == u.xLev
      ensures !IsFailure(wide[r])
    {
      VisitedBefore(g, shape, deps, log, i, r);
      assert !Blocks(log[r].test, log[r].verdict, u);
    }
    NotVisitedYet(g, shape, deps, log, i, i);
  }

  lemma NotVisitedYet(g: nat, shape: Shape, deps: seq<TestRef>, log: Log, i: nat, k: nat)
    requires Schedulable(g, shape, deps) && From(deps, log, i) && i <= k < |deps|
    ensures !VisitedIn(log, deps[k])
  {
    forall r | 0 <= r < |log| && log[r].Visited? ensures log[r].test != deps[k] {
      VisitedBefore(g, shape, deps, log, i, r);
    }
  }

  lemma VisitedBefore(g: nat, shape: Shape, deps: seq<TestRef>, log: Log, i: nat, r: nat)
    requires Schedulable(g, shape, deps) && From(deps, log, i) && r < |log| && log[r].Visited?
    ensures forall k | i <= k < |deps| :: Before(log[r].test, deps[k])
  {
    var j :| 0 <= j < i && j < |deps| && deps[j] == log[r].test;
  }

  /** One visit, with the jump that follows it, keeps the invariant. */
  lemma VisitKeeps(g: nat, shape: Shape, deps: seq<TestRef>, log: Log, i: nat, v: Verdict)
    requires Schedulable(g, shape, deps) && i < |deps| && Invariant(g, shape, deps, log, i)
    requires Exists(g, shape, deps[i])
    ensures Invariant(g, shape, deps, log + [Visited(deps[i], v)], Next(deps, i, v))
  {
    var e := Visited(deps[i], v);
    var wide := log + [e];
    var n := Next(deps, i, v);
    NextIsSafe(g, shape, deps, log, i, v);
    SafeExtend(log, e);
    forall k | 0 <= k < |deps|
      ensures k < i ==> Blocked(wide, deps[k]) == Blocked(log, deps[k])
                        && VisitedIn(wide, deps[k]) == VisitedIn(log, deps[k])
      ensures k == i ==> !Blocked(wide, deps[k]) && VisitedIn(wide, deps[k])
      ensures i < k < n ==> Blocked(wide, deps[k]) && !VisitedIn(wide, deps[k])
      ensures n <= k ==> !Blocked(wide, deps[k])
    {
      BlockedExtend(log, e, deps[k]);
      if i < k {
        BlockIsCondemned(g, deps, i, v.Fails());
        assert Before(deps[i], deps[k]);
        NotVisitedYet(g, shape, deps, log, i, k);
      } else if k < i {
        assert Before(deps[k], deps[i]);
      }
    }
    forall q | 0 <= q < |wide| && wide[q].Visited?
      ensures exists k | 0 <= k < n && k < |deps| :: deps[k] == wide[q].test
    {
      if q < |log| {
        assert wide[q] == log[q];
      } else {
        assert deps[i] == wide[q].test;
      }
    }
  }

  /**
   What holds of the events of this pass (those from position 'start' on)
   between two calls of RunTest.  Reaching the end through a failed hook keeps
   the run safe but may leave tests unvisited.
   */
  ghost predicate Sound(g: nat, shape: Shape, deps: seq<TestRef>, start: nat, p: Progress) {
    && start <= |p.log| && -1 <= p.tstIdx < |deps|
    && Safe(p.log[start..])
    && From(deps, p.log[start..], |deps|)
    && (p.tstIdx >= 0 || NoFaultSince(p.log, start)
        ==> Invariant(g, shape, deps, p.log[start..], Reached(deps, p)))
  }

  lemma SoundStart(g: nat, shape: Shape, deps: seq<TestRef>, log: Log, failed: seq<TestRef>, skipped: seq<TestRef>)
    requires deps != []
    ensures Sound(g, shape, deps, |log|, Start(log, failed, skipped))
  {
    assert log[|log|..] == [];
  }

  lemma SaveKeeps(env: Setup, g: nat, shape: Shape, deps: seq<TestRef>, start: nat, p: Progress)
    requires 0 <= p.tstIdx && start <= |p.log| && Invariant(g, shape, deps, p.log[start..], p.tstIdx)
    ensures var log := MaybeSave(env, p).log;
      && p.log <= log && Invariant(g, shape, deps, log[start..], p.tstIdx)
      && (SaveFails(env, p) ==> !NoFaultSince(log, start))
  {
    if env.restore && p.tstIdx == 0 {
      var log := p.log[start..];
      var e := Saved(env.dut.saveState(p.log));
      assert (p.log + [e])[start..] == log + [e];
      QuietExtend(g, shape, deps, log, 0, e);
      assert (log + [e])[|log|] == e;
    }
  }

  lemma RestoreKeeps(g: nat, shape: Shape, deps: seq<TestRef>, start: nat, log: Log, n: nat, ok: bool)
    requires start <= |log| && Invariant(g, shape, deps, log[start..], n)
    ensures Invariant(g, shape, deps, (log + [Restored(ok)])[start..], n)
    ensures !ok ==> !NoFaultSince(log + [Restored(ok)], start)
  {
    var e := Restored(ok);
    assert (log + [e])[start..] == log[start..] + [e];
    QuietExtend(g, shape, deps, log[start..], n, e);
    assert (log[start..] + [e])[|log| - start] == e;
  }

  lemma FromWeaken(deps: seq<TestRef>, log: Log, n: nat)
    requires From(deps, log, n) && n <= |deps|
    ensures From(deps, log, |deps|)
  {
    forall q | 0 <= q < |log| && log[q].Visited?
      ensures exists k | 0 <= k < |deps| :: deps[k] == log[q].test
    {
      var k :| 0 <= k < n && k < |deps| && deps[k] == log[q].test;
    }
  }

  /** At a missing entry, which can only be the last one, the pass is complete. */
  lemma MissingIsLast(g: nat, shape: Shape, deps: seq<TestRef>, log: Log, i: nat)
    requires Schedulable(g, shape, deps) && i < |deps| && !Exists(g, shape, deps[i])
    requires Invariant(g, shape, deps, log, i)
    ensures i == |deps| - 1 && Invariant(g, shape, deps, log, |deps|)
  {
    assert forall k | 0 <= k < |deps| - 1 :: deps[..|deps| - 1][k] == deps[k];
    FromWeaken(deps, log, i);
    NotVisitedYet(g, shape, deps, log, i, i);
  }

  /** Every call of RunTest keeps the pass sound. */
  lemma StepKeepsSound(env: Setup, g: nat, shape: Shape, deps: seq<TestRef>, start: nat, p: Progress)
    requires Schedulable(g, shape, deps) && Sound(g, shape, deps, start, p)
    ensures Sound(g, shape, deps, start, Step(env, g, shape, deps, p).after)
    ensures p.log <= Step(env, g, shape, deps, p).after.log
  {
    if p.tstIdx >= 0 {
      var i := p.tstIdx;
      var ready := MaybeSave(env, p);
      SaveKeeps(env, g, shape, deps, start, p);
      FromWeaken(deps, ready.log[start..], i);
      if !Exists(g, shape, deps[i]) {
        MissingIsLast(g, shape, deps, p.log[start..], i);
      } else if !SaveFails(env, p) {
        var v := Judge(env, ready.log, deps[i]);
        var done := Visit(deps, i, ready, v);
        var n := Next(deps, i, v);
        assert done.log[start..] == ready.log[start..] + [Visited(deps[i], v)];
        VisitKeeps(g, shape, deps, ready.log[start..], i, v);
        FromWeaken(deps, done.log[start..], n);
        if Restores(env, done, v) {
          var ok := env.dut.restoreState(done.log);
          RestoreKeeps(g, shape, deps, start, done.log, n, ok);
          FromWeaken(deps, (done.log + [Restored(ok)])[start..], n);
        }
      }
    }
  }

  lemma {:induction false} RunPassKeepsSound(env: Setup, g: nat, shape: Shape, deps: seq<TestRef>,
      start: nat, p: Progress, c: Counts)
    requires Schedulable(g, shape, deps) && Sound(g, shape, deps, start, p)
    ensures var end := RunPass(env, g, shape, deps, p, c);
      && Sound(g, shape, deps, start, end.after)
      && p.log <= end.after.log
      && (!end.stopped ==> end.after.tstIdx == -1)
    decreases Remaining(deps, p)
  {
    var s := Step(env, g, shape, deps, p);
    StepKeepsSound(env, g, shape, deps, start, p);
    if s.result != TR_NOTFOUND && (s.result != TR_FAIL || env.ignore) {
      RunPassKeepsSound(env, g, shape, deps, start, s.after, Tally(c, s.result, s.numSkipped));
    }
  }

  /**
   Safety of every run: in any pass, on any device, with or without --ignore,
   and whether or not saving and restoring work, a test is visited only after
   all its dependencies ran and passed, never after a failure in its x level,
   and at most once.
   */
  lemma PassIsSafe(env: Setup, g: nat, shape: Shape, deps: seq<TestRef>,
      log: Log, failed: seq<TestRef>, skipped: seq<TestRef>, c: Counts)
    requires Schedulable(g, shape, deps)
    ensures var end := RunPass(env, g, shape, deps, Start(log, failed, skipped), c).after;
      log <= end.log && Safe(end.log[|log|..]) && From(deps, end.log[|log|..], |deps|)
  {
    SoundStart(g, shape, deps, log, failed, skipped);
    RunPassKeepsSound(env, g, shape, deps, |log|, Start(log, failed, skipped), c);
  }

  /** A listed test is visited iff it exists and nothing blocks it. */
  predicate Settled(g: nat, shape: Shape, deps: seq<TestRef>, events: Log) {
    forall u | u in deps :: VisitedIn(events, u) <==> Exists(g, shape, u) && !Blocked(events, u)
  }

  /**
   Which tests a pass reaches that no failure stops, as none does with errors
   ignored, and in which no hook failed: exactly those existing u for which no
   earlier test of the same x level failed and no dependency was skipped.
   */
  lemma PassVerdict(env: Setup, g: nat, shape: Shape, deps: seq<TestRef>,
      log: Log, failed: seq<TestRef>, skipped: seq<TestRef>, c: Counts)
    requires Schedulable(g, shape, deps)
    ensures var end := RunPass(env, g, shape, deps, Start(log, failed, skipped), c);
      && log <= end.after.log
      && (env.ignore ==> !end.stopped)
      && (!end.stopped && NoFaultSince(end.after.log, |log|)
          ==> Settled(g, shape, deps, end.after.log[|log|..]))
  {
    var p := Start(log, failed, skipped);
    SoundStart(g, shape, deps, log, failed, skipped);
    RunPassKeepsSound(env, g, shape, deps, |log|, p, c);
    if env.ignore {
      NeverStopped(env, g, shape, deps, p, c);
    }
    var end := RunPass(env, g, shape, deps, p, c);
    if !end.stopped && NoFaultSince(end.after.log, |log|) {
      assert Complete(g, shape, deps, end.after.log[|log|..], |deps|);
    }
  }

  lemma {:induction false} NeverStopped(env: Setup, g: nat, shape: Shape, deps: seq<TestRef>, p: Progress, c: Counts)
    requires env.ignore && -1 <= p.tstIdx
    ensures !RunPass(env, g, shape, deps, p, c).stopped
    decreases Remaining(deps, p)
  {
    var s := Step(env, g, shape, deps, p);
    if s.result != TR_NOTFOUND {
      NeverStopped(env, g, shape, deps, s.after, Tally(c, s.result, s.numSkipped));
    }
  }
}
