/**
 The index-jumping pass against a scheduler that never jumps: it looks at every
 entry in turn and asks the log whether something blocks it.
 */
module PassRefinement {
  import opened TestNumbering
  import opened Dependencies
  import opened Schedule
  import opened PassEvents
  import opened PassSafety

  datatype Ledger = Ledger(log: Log, failed: seq<TestRef>, skipped: seq<TestRef>)

  /** The state is restored at the end unless a failure has just restored it. */
  function CloseOut(env: Setup, start: nat, l: Ledger): Ledger {
    if env.restore && start < |l.log| && !l.log[|l.log| - 1].Restored? then
      l.(log := l.log + [Restored(env.dut.restoreState(l.log))])
    else l
  }

  function SaveFirst(env: Setup, first: bool, l: Ledger): Ledger {
    if env.restore && first then l.(log := l.log + [Saved(env.dut.saveState(l.log))]) else l
  }

  /** Visit u, then restore the state if it failed. */
  function WalkVisit(env: Setup, u: TestRef, l: Ledger): Ledger {
    var v := Judge(env, l.log, u);
    var e := Visited(u, v);
    var visited := l.log + [e];
    Ledger(
      if env.restore && IsFailure(e) then visited + [Restored(env.dut.restoreState(visited))] else visited,
      if IsFailure(e) then l.failed + [u] else l.failed,
      if IsSkip(e) then l.skipped + [u] else l.skipped)
  }

  /** Consider the entries from i on, one after the other; a missing one ends the pass. */
  function Walk(env: Setup, g: nat, shape: Shape, deps: seq<TestRef>, i: nat, start: nat, l: Ledger): Ledger
    requires i <= |deps| && start <= |l.log|
    decreases |deps| - i
  {
    if i == |deps| then CloseOut(env, start, l)
    else if Blocked(l.log[start..], deps[i]) then
      Walk(env, g, shape, deps, i + 1, start, l.(skipped := l.skipped + [deps[i]]))
    else if !Exists(g, shape, deps[i]) then l
    else
      Walk(env, g, shape, deps, i + 1, start, WalkVisit(env, deps[i], SaveFirst(env, i == 0, l)))
  }

  function LedgerOf(p: Progress): Ledger {
    Ledger(p.log, p.failed, p.skipped)
  }

  /** Entries that are blocked one after the other just move to the skipped list. */
  lemma {:induction false} WalkOverBlock(env: Setup, g: nat, shape: Shape, deps: seq<TestRef>,
      i: nat, n: nat, start: nat, l: Ledger)
    requires i <= n <= |deps| && start <= |l.log|
    requires forall k | i <= k < n :: Blocked(l.log[start..], deps[k])
    ensures Walk(env, g, shape, deps, i, start, l)
         == Walk(env, g, shape, deps, n, start, l.(skipped := l.skipped + deps[i..n]))
    decreases n - i
  {
    if i < n {
      var l' := l.(skipped := l.skipped + [deps[i]]);
      WalkOverBlock(env, g, shape, deps, i + 1, n, start, l');
      assert l'.skipped + deps[i + 1..n] == l.skipped + deps[i..n];
    } else {
      assert l.skipped + deps[i..n] == l.skipped;
    }
  }

  /** After a visit exactly the entries of the jump are blocked. */
  lemma JumpIsBlocked(g: nat, deps: seq<TestRef>, i: nat, v: Verdict, log: Log)
    requires Ascending(deps) && AllIn(g, deps) && i < |deps|
    requires exists q | 0 <= q < |log| :: log[q] == Visited(deps[i], v)
    ensures forall k | i < k < Next(deps, i, v) :: Blocked(log, deps[k])
  {
    var q :| 0 <= q < |log| && log[q] == Visited(deps[i], v);
    BlockIsCondemned(g, deps, i, v.Fails());
    forall k | i < k < Next(deps, i, v) ensures Blocked(log, deps[k]) {
      assert Before(deps[i], deps[k]);
      assert Blocks(log[q].test, log[q].verdict, deps[k]);
    }
  }

  /** Where a visit to entry i lands: the next entry to consider ... */
  function LandingIndex(env: Setup, deps: seq<TestRef>, i: nat, log: Log): (n: nat)
    requires i < |deps|
    ensures i < n <= |deps|
  {
    Next(deps, i, Judge(env, log, deps[i]))
  }

  /** ... and the ledger, with the jumped entries listed as skipped. */
  function Landing(env: Setup, deps: seq<TestRef>, i: nat, l: Ledger): Ledger
    requires i < |deps|
  {
    var seen := WalkVisit(env, deps[i], l);
    seen.(skipped := seen.skipped + deps[i + 1..LandingIndex(env, deps, i, l.log)])
  }

  /** Unless restoring fails, a visit lands there. */
  lemma AttemptLands(env: Setup, deps: seq<TestRef>, i: nat, start: nat, ready: Progress)
    requires i < |deps| && start <= |ready.log| && RestoreHolds(env, deps, i, ready)
    ensures var s := Attempt(env, deps, i, ready);
      var n := LandingIndex(env, deps, i, ready.log);
      var land := Landing(env, deps, i, LedgerOf(ready));
      && s.result != TR_NOTFOUND && s.after.tstIdx == Index(n, deps)
      && LedgerOf(s.after) == if n < |deps| then land else CloseOut(env, start, land)
  {
    var v := Judge(env, ready.log, deps[i]);
    var done := Visit(deps, i, ready, v);
    var land := Landing(env, deps, i, LedgerOf(ready));
    assert land.failed == done.failed;
    assert land.skipped == done.skipped;
  }

  lemma VisitIsLogged(env: Setup, u: TestRef, start: nat, l: Ledger)
    requires start <= |l.log|
    ensures var log := WalkVisit(env, u, l).log;
      && start <= |log|
      && exists q | 0 <= q < |log[start..]| :: log[start..][q] == Visited(u, Judge(env, l.log, u))
  {
    var log := WalkVisit(env, u, l).log;
    var q := |l.log| - start;
    assert log[start..][q] == log[q + start] == Visited(u, Judge(env, l.log, u));
  }

  lemma LandingIsBlocked(env: Setup, g: nat, deps: seq<TestRef>, i: nat, start: nat, l: Ledger)
    requires Ascending(deps) && AllIn(g, deps) && i < |deps| && start <= |l.log|
    ensures var log := WalkVisit(env, deps[i], l).log;
      && start <= |log|
      && forall k | i < k < LandingIndex(env, deps, i, l.log) :: Blocked(log[start..], deps[k])
  {
    VisitIsLogged(env, deps[i], start, l);
    JumpIsBlocked(g, deps, i, Judge(env, l.log, deps[i]), WalkVisit(env, deps[i], l).log[start..]);
  }

  lemma WalkUnfolds(env: Setup, g: nat, shape: Shape, deps: seq<TestRef>, i: nat, start: nat, l: Ledger)
    requires i < |deps| && start <= |l.log| && !Blocked(l.log[start..], deps[i])
    requires Exists(g, shape, deps[i])
    ensures Walk(env, g, shape, deps, i, start, l)
         == Walk(env, g, shape, deps, i + 1, start, WalkVisit(env, deps[i], SaveFirst(env, i == 0, l)))
  {
  }

  /** The walk, too, gets from entry i to the end n of the jump. */
  lemma WalkLands(env: Setup, g: nat, shape: Shape, deps: seq<TestRef>,
      i: nat, n: nat, start: nat, l: Ledger, seen: Ledger)
    requires i < n <= |deps| && start <= |l.log| && start <= |seen.log|
    requires !Blocked(l.log[start..], deps[i]) && Exists(g, shape, deps[i])
    requires seen == WalkVisit(env, deps[i], SaveFirst(env, i == 0, l))
    requires forall k | i < k < n :: Blocked(seen.log[start..], deps[k])
    ensures Walk(env, g, shape, deps, i, start, l)
         == Walk(env, g, shape, deps, n, start, seen.(skipped := seen.skipped + deps[i + 1..n]))
  {
    hide *;
    WalkUnfolds(env, g, shape, deps, i, start, l);
    WalkOverBlock(env, g, shape, deps, i + 1, n, start, seen);
  }

  lemma StepAttempts(env: Setup, g: nat, shape: Shape, deps: seq<TestRef>, p: Progress)
    requires Runnable(g, shape, deps, p) && !SaveFails(env, p)
    ensures Step(env, g, shape, deps, p) == Attempt(env, deps, p.tstIdx, MaybeSave(env, p))
    ensures LedgerOf(MaybeSave(env, p)) == SaveFirst(env, p.tstIdx == 0, LedgerOf(p))
  {
  }

  lemma WalkEnds(env: Setup, g: nat, shape: Shape, deps: seq<TestRef>, start: nat, l: Ledger)
    requires start <= |l.log|
    ensures Walk(env, g, shape, deps, |deps|, start, l) == CloseOut(env, start, l)
  {
  }

  lemma WalkMisses(env: Setup, g: nat, shape: Shape, deps: seq<TestRef>, i: nat, start: nat, l: Ledger)
    requires i < |deps| && start <= |l.log| && !Blocked(l.log[start..], deps[i])
    requires !Exists(g, shape, deps[i])
    ensures Walk(env, g, shape, deps, i, start, l) == l
  {
  }

  /** The walk goes on from p as it does from p', or ends with p' when that is at the end. */
  predicate Continues(env: Setup, g: nat, shape: Shape, deps: seq<TestRef>, start: nat, p: Progress, p': Progress)
    requires start <= |p.log| && start <= |p'.log|
    requires 0 <= p.tstIdx <= |deps| && -1 <= p'.tstIdx <= |deps|
  {
    Walk(env, g, shape, deps, p.tstIdx, start, LedgerOf(p))
    == if p'.tstIdx >= 0 then Walk(env, g, shape, deps, p'.tstIdx, start, LedgerOf(p')) else LedgerOf(p')
  }

  /** RunTest and the walk agree on one visit. */
  lemma StepIsWalk(env: Setup, g: nat, shape: Shape, deps: seq<TestRef>, start: nat, p: Progress)
    requires Schedulable(g, shape, deps) && start <= |p.log| && Runnable(g, shape, deps, p)
    requires !Blocked(p.log[start..], deps[p.tstIdx])
    requires !SaveFails(env, p) && RestoreHolds(env, deps, p.tstIdx, MaybeSave(env, p))
    ensures var s := Step(env, g, shape, deps, p);
      && s.result != TR_NOTFOUND && start <= |s.after.log|
      && Continues(env, g, shape, deps, start, p, s.after)
  {
    hide Walk, RunPass, Visit, Restores, RestoreHolds, Judge, Blocked;
    var i := p.tstIdx;
    var ready := SaveFirst(env, i == 0, LedgerOf(p));
    var n := LandingIndex(env, deps, i, ready.log);
    StepAttempts(env, g, shape, deps, p);
    AttemptLands(env, deps, i, start, MaybeSave(env, p));
    LandingIsBlocked(env, g, deps, i, start, ready);
    WalkEnds(env, g, shape, deps, start, Landing(env, deps, i, ready));
    WalkLands(env, g, shape, deps, i, n, start, LedgerOf(p), WalkVisit(env, deps[i], ready));
  }

  /** a's log and lists are beginnings of b's. */
  predicate Begins(a: Ledger, b: Ledger) {
    a.log <= b.log && a.failed <= b.failed && a.skipped <= b.skipped
  }

  /** The walk only appends. */
  lemma {:induction false} WalkExtends(env: Setup, g: nat, shape: Shape, deps: seq<TestRef>,
      i: nat, start: nat, l: Ledger)
    requires i <= |deps| && start <= |l.log|
    ensures Begins(l, Walk(env, g, shape, deps, i, start, l))
    decreases |deps| - i
  {
    hide Blocked, Judge;
    if i < |deps| {
      if Blocked(l.log[start..], deps[i]) {
        WalkExtends(env, g, shape, deps, i + 1, start, l.(skipped := l.skipped + [deps[i]]));
      } else if Exists(g, shape, deps[i]) {
        WalkExtends(env, g, shape, deps, i + 1, start, WalkVisit(env, deps[i], SaveFirst(env, i == 0, l)));
      }
    }
  }

  /** A pass yields what the walk does, or a beginning of it when a failure stops it. */
  predicate AgreesWithWalk(end: PassEnd, walked: Ledger) {
    Begins(LedgerOf(end.after), walked) && (!end.stopped ==> LedgerOf(end.after) == walked)
  }

  lemma {:induction false} PassIsWalkFrom(env: Setup, g: nat, shape: Shape, deps: seq<TestRef>,
      start: nat, p: Progress, c: Counts)
    requires Schedulable(g, shape, deps) && Sound(g, shape, deps, start, p) && p.tstIdx >= 0
    requires NoFaultSince(RunPass(env, g, shape, deps, p, c).after.log, |p.log|)
    ensures AgreesWithWalk(RunPass(env, g, shape, deps, p, c), Walk(env, g, shape, deps, p.tstIdx, start, LedgerOf(p)))
    decreases Remaining(deps, p)
  {
    var end := RunPass(env, g, shape, deps, p, c);
    assert !Blocked(p.log[start..], deps[p.tstIdx]);
    if !Runnable(g, shape, deps, p) {
      WalkMisses(env, g, shape, deps, p.tstIdx, start, LedgerOf(p));
      NothingLeft(env, g, shape, deps, p, c);
    } else {
      var s := Step(env, g, shape, deps, p);
      var c' := Tally(c, s.result, s.numSkipped);
      StepGrows(env, g, shape, deps, p);
      StepKeepsSound(env, g, shape, deps, start, p);
      StepFaults(env, g, shape, deps, p);
      if s.result == TR_FAIL && !env.ignore {
        StepIsWalk(env, g, shape, deps, start, p);
        if s.after.tstIdx >= 0 {
          WalkExtends(env, g, shape, deps, s.after.tstIdx, start, LedgerOf(s.after));
        }
      } else {
        PassGrows(env, g, shape, deps, s.after, c');
        NoFaultSplits(end.after.log, |p.log|, s.after.log);
        StepIsWalk(env, g, shape, deps, start, p);
        if s.after.tstIdx >= 0 {
          PassIsWalkFrom(env, g, shape, deps, start, s.after, c');
        } else {
          NothingLeft(env, g, shape, deps, s.after, c');
        }
      }
    }
  }

  /**
   As long as no hook fails, the jumping pass and the walk over every entry
   produce the same log, the same failed list and the same skipped list, in the
   same order; a pass that a failure stops produces a beginning of each.
   */
  lemma PassIsWalk(env: Setup, g: nat, shape: Shape, deps: seq<TestRef>,
      log: Log, failed: seq<TestRef>, skipped: seq<TestRef>, c: Counts)
    requires Schedulable(g, shape, deps)
    ensures var end := RunPass(env, g, shape, deps, Start(log, failed, skipped), c);
      var walked := Walk(env, g, shape, deps, 0, |log|, Ledger(log, failed, skipped));
      NoFaultSince(end.after.log, |log|) ==> AgreesWithWalk(end, walked)
  {
    SoundStart(g, shape, deps, log, failed, skipped);
    if NoFaultSince(RunPass(env, g, shape, deps, Start(log, failed, skipped), c).after.log, |log|) {
      PassIsWalkFrom(env, g, shape, deps, |log|, Start(log, failed, skipped), c);
    }
  }
}
