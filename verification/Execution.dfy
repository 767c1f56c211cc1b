/**
 ExecuteTests: all loops over all selected groups, with the summary counters.
 */
module Execution {
  import opened Wrappers
  import opened TestNumbering
  import opened Dependencies
  import opened Schedule
  import opened Groups

  // ------------------------------------------------------------ TestResults

  class TestResults {
    var results: array<int>

    ghost predicate Valid()
      reads this
    {
      results.Length == 5
    }

    function Contents(): Counts
      requires Valid()
      reads this, results
    {
      results[..]
    }

    constructor ()
      ensures Valid() && fresh(results) && Contents() == NO_COUNTS
    {
      results := new int[5](_ => 0);
    }

    method AddResult(testResult: TestResult, amount: int := 1)
      requires Valid() && testResult != TR_FENCE
      modifies results
      ensures Contents() == Add(old(Contents()), testResult, amount)
    {
      results[Code(testResult)] := results[Code(testResult)] + amount;
    }

    predicate AllTestsPass()
      requires Valid()
      reads this, results
    {
      results[Code(TR_FAIL)] == 0
    }

    /** The "total tests" line. */
    method Report() returns (totalTests: int)
      requires Valid()
      ensures totalTests == Total(Contents())
    {
      totalTests := 0;
      ghost var c := Contents();
      for i := 0 to 4
        invariant c == Contents()
        invariant totalTests == (if i > 0 then c[0] else 0) + (if i > 1 then c[1] else 0)
                              + (if i > 2 then c[2] else 0) + (if i > 3 then c[3] else 0)
      {
        totalTests := totalTests + results[i];
      }
    }
  }

  // ---------------------------------------------------------- specification

  datatype GroupInfo = GroupInfo(num: nat, shape: Shape)

  /** What a run has done so far. */
  datatype Tour = Tour(
    log: Log,
    failed: seq<TestRef>,
    skipped: seq<TestRef>,
    counts: Counts,
    numGrps: nat,
    reports: seq<int>)

  datatype Status = Going | EarlyOut | Aborted

  /** The target for group iGrp; None when the group was not requested. */
  function TargetFor(test: TestRef, iGrp: nat): Option<TestRef> {
    if test.group == UINT_MAX then Some(TestRef(iGrp, UINT_MAX, UINT_MAX, UINT_MAX))
    else if iGrp == test.group then Some(TestRef(iGrp, test.xLev, test.yLev, test.zLev))
    else None
  }

  /** One pass over one group. */
  function GroupPass(env: Setup, info: GroupInfo, target: TestRef, r: Tour): (Tour, Status) {
    var ok := env.dut.disable(r.log);
    var log := r.log + [Disabled(ok)];
    if !ok then (r.(log := log), Aborted)
    else match TestSet(info.num, info.shape, target)
      case None => (r.(log := log), Aborted)
      case Some(deps) =>
        var end := RunPass(env, info.num, info.shape, deps, Start(log, r.failed, r.skipped), r.counts);
        (Tour(end.after.log, end.after.failed, end.after.skipped, end.counts, r.numGrps + 1, r.reports),
         if end.stopped then EarlyOut else Going)
  }

  /** The groups from i on. */
  function GroupLoop(env: Setup, infos: seq<GroupInfo>, test: TestRef, i: nat, r: Tour): (Tour, Status)
    requires i <= |infos|
    decreases |infos| - i
  {
    if i == |infos| then (r, Going)
    else match TargetFor(test, i)
      case None => GroupLoop(env, infos, test, i + 1, r)
      case Some(target) =>
        var (r', status) := GroupPass(env, infos[i], target, r);
        if status == Going then GroupLoop(env, infos, test, i + 1, r') else (r', status)
  }

  function Reporting(r: Tour): Tour {
    r.(reports := r.reports + [Total(r.counts)])
  }

  /** n loops over all groups, each followed by a report unless aborted. */
  function LoopAll(env: Setup, infos: seq<GroupInfo>, test: TestRef, n: nat, r: Tour): (Tour, Status) {
    if n == 0 then (r, Going)
    else
      var (r', status) := GroupLoop(env, infos, test, 0, r);
      match status
      case Going => LoopAll(env, infos, test, n - 1, Reporting(r'))
      case EarlyOut => (Reporting(r'), EarlyOut)
      case Aborted => (r', Aborted)
  }

  const FRESH: Tour := Tour([], [], [], NO_COUNTS, 0, [])

  function Execute(env: Setup, infos: seq<GroupInfo>, test: TestRef, loop: nat, compatible: bool): (Tour, Status) {
    if (test.group != UINT_MAX && test.group >= |infos|) || !compatible then (FRESH, Aborted)
    else LoopAll(env, infos, test, loop, FRESH)
  }

  // --------------------------------------------------------- implementation

  function InfoOf(group: Group): GroupInfo
    reads group
  {
    GroupInfo(group.mGrpNum, group.Matrix())
  }

  ghost function Infos(groups: seq<Group>): seq<GroupInfo>
    reads groups
  {
    seq(|groups|, i requires 0 <= i < |groups| reads groups => InfoOf(groups[i]))
  }

  ghost function TourOf(session: Session, results: TestResults, numGrps: nat, reports: seq<int>): Tour
    requires results.Valid()
    reads session, results, results.results
  {
    Tour(session.log, session.failedTests, session.skippedTests, results.Contents(), numGrps, reports)
  }

  /** The inner loop of ExecuteTests: run one group's set to its end. */
  method RunSet(group: Group, deps: seq<TestRef>, session: Session, results: TestResults)
    returns (stopped: bool)
    requires group.Valid() && results.Valid()
    modifies group, session, results.results
    ensures group.Valid() && group.Matrix() == old(group.Matrix())
    ensures var end := RunPass(session.env, group.mGrpNum, old(group.Matrix()), deps,
                               old(session.At(0)), old(results.Contents()));
      && stopped == end.stopped && results.Contents() == end.counts
      && session.At(end.after.tstIdx) == end.after
  {
    hide Step;
    ghost var shape := group.Matrix();
    ghost var end := RunPass(session.env, group.mGrpNum, shape, deps, session.At(0), results.Contents());
    var tstIdx := 0;
    var result := TR_FENCE;
    while result != TR_NOTFOUND
      invariant group.Valid() && group.Matrix() == shape && -1 <= tstIdx
      invariant result == TR_NOTFOUND ==>
        end.after == session.At(tstIdx) && end.counts == results.Contents() && !end.stopped
      invariant result != TR_NOTFOUND ==>
        var rest := RunPass(session.env, group.mGrpNum, shape, deps, session.At(tstIdx), results.Contents());
        end.after == rest.after && end.counts == rest.counts && end.stopped == rest.stopped
      decreases result != TR_NOTFOUND, Remaining(deps, session.At(tstIdx))
    {
      var skipped;
      result, tstIdx, skipped := group.RunTest(deps, tstIdx, session);
      if result == TR_SKIPPING {
        results.AddResult(result, skipped);
      } else {
        results.AddResult(result);
        if result == TR_FAIL {
          results.AddResult(TR_SKIPPING, skipped);
          if !session.env.ignore {
            return true;
          }
        }
      }
    }
    return false;
  }

  /** One selected group: disable the controller, get the set, run it. */
  method RunGroup(group: Group, target: TestRef, session: Session, results: TestResults, numGrps: nat,
      ghost reports: seq<int>) returns (status: Status, newNumGrps: nat)
    requires group.Valid() && results.Valid()
    modifies group, session, results.results
    ensures group.Valid() && group.Matrix() == old(group.Matrix())
    ensures (TourOf(session, results, newNumGrps, reports), status)
      == GroupPass(session.env, old(InfoOf(group)), target, old(TourOf(session, results, numGrps, reports)))
  {
    hide RunPass, TestSet;
    newNumGrps := numGrps;
    var disabled := session.env.dut.disable(session.log);
    session.log := session.log + [Disabled(disabled)];
    if !disabled {
      return Aborted, newNumGrps;
    }
    var tstSetOK, testsToRun, tstIdx := group.GetTestSet(target);
    if !tstSetOK {
      return Aborted, newNumGrps;
    }
    newNumGrps := newNumGrps + 1;
    var stopped := RunSet(group, testsToRun, session, results);
    status := if stopped then EarlyOut else Going;
  }

  method RunGroups(groups: seq<Group>, test: TestRef, session: Session, results: TestResults, numGrps: nat,
      ghost reports: seq<int>) returns (status: Status, newNumGrps: nat)
    requires results.Valid() && forall g | g in groups :: g.Valid()
    modifies groups, session, results.results
    ensures forall g | g in groups :: g.Valid()
    ensures Infos(groups) == old(Infos(groups))
    ensures (TourOf(session, results, newNumGrps, reports), status)
      == GroupLoop(session.env, old(Infos(groups)), test, 0, old(TourOf(session, results, numGrps, reports)))
  {
    hide GroupPass, Jagged;
    ghost var infos := Infos(groups);
    newNumGrps := numGrps;
    for iGrp := 0 to |groups|
      invariant forall g | g in groups :: g.Valid()
      invariant forall k | 0 <= k < |groups| :: InfoOf(groups[k]) == infos[k]
      invariant
        GroupLoop(session.env, infos, test, iGrp, TourOf(session, results, newNumGrps, reports))
        == GroupLoop(session.env, infos, test, 0, old(TourOf(session, results, numGrps, reports)))
    {
      var targetTst;
      if test.group == UINT_MAX {
        targetTst := TestRef(iGrp, UINT_MAX, UINT_MAX, UINT_MAX);
      } else if iGrp == test.group {
        targetTst := TestRef(iGrp, test.xLev, test.yLev, test.zLev);
      } else {
        continue;
      }
      label Before:
      status, newNumGrps := RunGroup(groups[iGrp], targetTst, session, results, newNumGrps, reports);
      forall k | 0 <= k < |groups| ensures InfoOf(groups[k]) == infos[k] && groups[k].Valid() {
        assert groups[k] == groups[iGrp] || groups[k].Matrix() == old@Before(groups[k].Matrix());
      }
      if status != Going {
        assert Infos(groups) == infos;
        return;
      }
    }
    assert Infos(groups) == infos;
    status := Going;
  }

  /**
   Run the requested tests loop times; pass tells whether nothing failed, and
   reports holds the total of every summary printed.
   */
  method ExecuteTests(loop: nat, test: TestRef, compatible: bool, groups: seq<Group>, session: Session)
    returns (pass: bool, reports: seq<int>)
    requires forall g | g in groups :: g.Valid()
    requires session.log == [] && session.failedTests == [] && session.skippedTests == []
    modifies groups, session
    ensures forall g | g in groups :: g.Valid()
    ensures Infos(groups) == old(Infos(groups))
    ensures var (tour, status) := Execute(session.env, old(Infos(groups)), test, loop, compatible);
      && pass == (status != Aborted && tour.counts[1] == 0)
      && reports == tour.reports
      && session.log == tour.log && session.failedTests == tour.failed && session.skippedTests == tour.skipped
  {
    hide GroupLoop;
    reports := [];
    ghost var infos := Infos(groups);
    if (test.group != UINT_MAX && test.group >= |groups|) || !compatible {
      return false, reports;
    }
    var results := new TestResults();
    var numGrps := 0;
    for iLoop := 0 to loop
      invariant results.Valid() && fresh(results) && fresh(results.results)
      invariant forall g | g in groups :: g.Valid()
      invariant Infos(groups) == infos
      invariant LoopAll(session.env, infos, test, loop - iLoop, TourOf(session, results, numGrps, reports))
        == Execute(session.env, infos, test, loop, compatible)
    {
      var status;
      status, numGrps := RunGroups(groups, test, session, results, numGrps, reports);
      if status == Aborted {
        return false, reports;
      }
      var totalTests := results.Report();
      reports := reports + [totalTests];
      if status == EarlyOut {
        return results.AllTestsPass(), reports;
      }
    }
    return results.AllTestsPass(), reports;
  }
}
