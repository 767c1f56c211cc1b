/**
 Requesting a single test against running its whole group.
 */
module TargetAgreement {
  import opened Wrappers
  import opened TestNumbering
  import opened Dependencies
  import opened Schedule
  import opened PassEvents
  import opened PassSafety

  /** Nothing fails, and whether a test is skipped depends only on the test. */
  ghost predicate Steady(env: Setup) {
    && (forall h, t :: env.dut.run(h, t) != TR_FAIL)
    && (forall h, t :: env.dut.runnable(h, t, env.preserve) != RUN_FAIL)
    && (forall h, h', t :: env.dut.runnable(h, t, env.preserve) == env.dut.runnable(h', t, env.preserve))
  }

  /** t is in the skip list, or not runnable, now as ever. */
  ghost predicate WillSkip(env: Setup, t: TestRef) {
    NamedToSkip(t, env.skiptest) || env.dut.runnable([], t, env.preserve) == RUN_FALSE
  }

  lemma VisitIsSteady(env: Setup, log: Log, t: TestRef, v: Verdict)
    requires Steady(env) && VerdictIsRight(env, log, t, v)
    ensures IsSkip(Visited(t, v)) == WillSkip(env, t) && !IsFailure(Visited(t, v))
  {
  }

  /** The events of a pass over deps that were judged by env. */
  ghost predicate Judged(env: Setup, events: Log) {
    forall q | 0 <= q < |events| && events[q].Visited? ::
      IsSkip(events[q]) == WillSkip(env, events[q].test) && !IsFailure(events[q])
  }

  /** In such a trace, if it is settled, a listed test is visited iff no dependency would be skipped. */
  lemma SettledReaches(env: Setup, g: nat, shape: Shape, deps: seq<TestRef>, events: Log, k: nat)
    requires Schedulable(g, shape, deps) && k < |deps|
    requires Judged(env, events) && Settled(g, shape, deps, events)
    ensures VisitedIn(events, deps[k]) <==>
      Exists(g, shape, deps[k]) && forall t | IsDependency(t, deps[k]) :: !WillSkip(env, t)
  {
    var u := deps[k];
    assert u in deps;
    forall t | IsDependency(t, u) && WillSkip(env, t)
      ensures Blocked(events, u)
    {
      assert t in deps;
      DependencyExists(g, shape, deps, t, k);
      if VisitedIn(events, t) {
        var q :| 0 <= q < |events| && events[q].Visited? && events[q].test == t;
        assert Blocks(events[q].test, events[q].verdict, u);
      } else {
        assert t in deps && Blocked(events, t);
        BlockedIsInherited(events, t, u);
      }
    }
    if Blocked(events, u) {
      var q :| 0 <= q < |events| && events[q].Visited? && Blocks(events[q].test, events[q].verdict, u);
      assert IsDependency(events[q].test, u) && WillSkip(env, events[q].test);
    }
  }

  /** A dependency stands in front of another entry, so it is not the last one and exists. */
  lemma DependencyExists(g: nat, shape: Shape, deps: seq<TestRef>, t: TestRef, k: nat)
    requires Schedulable(g, shape, deps) && k < |deps| && t in deps && IsDependency(t, deps[k])
    ensures Exists(g, shape, t)
  {
    var j :| 0 <= j < |deps| && deps[j] == t;
    assert Before(deps[j], deps[k]);
    assert j < k;
    assert deps[..|deps| - 1][j] == t;
  }

  /** The events of a pass that starts with the given log. */
  function Events(env: Setup, g: nat, shape: Shape, deps: seq<TestRef>, log: Log): Log {
    Appended(env, g, shape, deps, log, [], [], NO_COUNTS)
  }

  lemma StepPasses(env: Setup, g: nat, shape: Shape, deps: seq<TestRef>, p: Progress)
    requires Steady(env) && -1 <= p.tstIdx
    requires NoFaultSince(Step(env, g, shape, deps, p).after.log, |p.log|)
    ensures Step(env, g, shape, deps, p).result != TR_FAIL
  {
    hide Judge, Visit, NumSkipped, VerdictIsRight;
    if Runnable(g, shape, deps, p) {
      StepFaults(env, g, shape, deps, p);
      var log, t := MaybeSave(env, p).log, deps[p.tstIdx];
      JudgedRightly(env, log, t);
      VisitIsSteady(env, log, t, Judge(env, log, t));
    }
  }

  /** Without failures of tests or hooks nothing stops a pass. */
  lemma {:induction false} SteadyNeverStops(env: Setup, g: nat, shape: Shape, deps: seq<TestRef>,
      p: Progress, c: Counts)
    requires Steady(env) && -1 <= p.tstIdx
    requires NoFaultSince(RunPass(env, g, shape, deps, p, c).after.log, |p.log|)
    ensures !RunPass(env, g, shape, deps, p, c).stopped
    decreases Remaining(deps, p)
  {
    hide Step, Tally, Steady;
    var s := Step(env, g, shape, deps, p);
    if s.result != TR_NOTFOUND {
      var c' := Tally(c, s.result, s.numSkipped);
      StepGrows(env, g, shape, deps, p);
      if s.result != TR_FAIL || env.ignore {
        PassGrows(env, g, shape, deps, s.after, c');
        NoFaultSplits(RunPass(env, g, shape, deps, s.after, c').after.log, |p.log|, s.after.log);
        SteadyNeverStops(env, g, shape, deps, s.after, c');
      } else {
        StepPasses(env, g, shape, deps, p);
      }
    }
  }

  lemma EventsSettle(env: Setup, g: nat, shape: Shape, deps: seq<TestRef>, log: Log)
    requires Steady(env) && Schedulable(g, shape, deps)
    requires NoFaultSince(Events(env, g, shape, deps, log), 0)
    ensures Judged(env, Events(env, g, shape, deps, log))
    ensures Settled(g, shape, deps, Events(env, g, shape, deps, log))
  {
    hide RunPass, VerdictIsRight, WillSkip;
    var p := Start(log, [], []);
    var end := RunPass(env, g, shape, deps, p, NO_COUNTS).after;
    var events := Events(env, g, shape, deps, log);
    PassVerdict(env, g, shape, deps, log, [], [], NO_COUNTS);
    assert forall q | |log| <= q < |end.log| :: end.log[q] == events[q - |log|];
    SteadyNeverStops(env, g, shape, deps, p, NO_COUNTS);
    PassAnswers(env, g, shape, deps, |log|, p, NO_COUNTS);
    forall q | |log| <= q < |end.log| && end.log[q].Visited?
      ensures IsSkip(end.log[q]) == WillSkip(env, end.log[q].test) && !IsFailure(end.log[q])
    {
      assert Answered(env, end.log, q);
      VisitIsSteady(env, end.log[..q], end.log[q].test, end.log[q].verdict);
    }
  }

  /**
   When no test and no hook fails and skipping depends only on the test, a pass
   visits exactly the existing tests of its set none of whose dependencies
   would be skipped.
   */
  lemma ReachedIff(env: Setup, g: nat, shape: Shape, deps: seq<TestRef>, log: Log, u: TestRef)
    requires Steady(env) && Schedulable(g, shape, deps) && u in deps
    requires NoFaultSince(Events(env, g, shape, deps, log), 0)
    ensures VisitedIn(Events(env, g, shape, deps, log), u) <==>
      Exists(g, shape, u) && forall t | IsDependency(t, u) :: !WillSkip(env, t)
  {
    hide Events, Steady, Judged, Settled;
    EventsSettle(env, g, shape, deps, log);
    var k :| 0 <= k < |deps| && deps[k] == u;
    SettledReaches(env, g, shape, deps, Events(env, g, shape, deps, log), k);
  }

  /**
   A test of the set requested for a target is then reached, and skipped,
   exactly as it is in the run of the whole group.
   */
  lemma TargetAgreesWithGroup(env: Setup, g: nat, shape: Shape, target: TestRef, u: TestRef,
      log: Log, log': Log)
    requires Steady(env)
    requires Jagged(shape) && Exists(g, shape, target) && target.Specific()
    requires u in TestSet(g, shape, target).value
    requires NoFaultSince(Events(env, g, shape, TestSet(g, shape, target).value, log), 0)
    requires NoFaultSince(Events(env, g, shape, Iterated(g, shape), log'), 0)
    ensures var alone := Events(env, g, shape, TestSet(g, shape, target).value, log);
      var all := Events(env, g, shape, Iterated(g, shape), log');
      && (VisitedIn(alone, u) <==> VisitedIn(all, u))
      && (forall q, r | 0 <= q < |alone| && 0 <= r < |all| && alone[q].Visited? && all[r].Visited?
            && alone[q].test == u && all[r].test == u :: IsSkip(alone[q]) == IsSkip(all[r]))
  {
    var deps := TestSet(g, shape, target).value;
    var whole := TestRef(g, UINT_MAX, UINT_MAX, UINT_MAX);
    var group := Iterated(g, shape);
    assert TestSet(g, shape, whole) == Some(group);
    TestSetIsSchedulable(g, shape, target);
    TestSetIsSchedulable(g, shape, whole);
    TestSetIsDependencies(g, shape, target);
    IteratedIsExact(g, shape);
    EventsSettle(env, g, shape, deps, log);
    EventsSettle(env, g, shape, group, log');
    assert Exists(g, shape, u) && u in group;
    ReachedIff(env, g, shape, deps, log, u);
    ReachedIff(env, g, shape, group, log', u);
  }
}
