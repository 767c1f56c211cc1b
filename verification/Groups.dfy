/**
 The Group class: building the matrix, iterating over it, and running tests.
 */
module Groups {
  import opened Wrappers
  import opened TestNumbering
  import opened Dependencies
  import opened Schedule

  /** A test object; its Runnable and Run are the oracles of the Device. */
  class Test {
    const mTestName: string

    constructor (name: string)
      ensures mTestName == name
    {
      mTestName := name;
    }

    method Clone() returns (copy: Test)
      ensures fresh(copy) && copy.mTestName == mTestName
    {
      copy := new Test(mTestName);
    }
  }

  /** What ExecuteTests hands to every RunTest call and gets back changed. */
  class Session {
    const env: Setup
    var log: Log
    var failedTests: seq<TestRef>
    var skippedTests: seq<TestRef>

    constructor (env: Setup)
      ensures this.env == env && log == [] && failedTests == [] && skippedTests == []
    {
      this.env := env;
      log, failedTests, skippedTests := [], [], [];
    }

    function At(tstIdx: int): Progress
      reads this
    {
      Progress(tstIdx, log, failedTests, skippedTests)
    }
  }

  // ---------------------------------------------------- shapes of a matrix

  function RowShape<T>(row: seq<seq<T>>): (s: seq<nat>)
    ensures |s| == |row|
    ensures forall y | 0 <= y < |row| :: s[y] == |row[y]|
  {
    seq(|row|, y requires 0 <= y < |row| => |row[y]|)
  }

  function MatrixShape<T>(m: seq<seq<seq<T>>>): (s: Shape)
    ensures |s| == |m|
    ensures forall x | 0 <= x < |m| :: s[x] == RowShape(m[x])
  {
    seq(|m|, x requires 0 <= x < |m| => RowShape(m[x]))
  }

  function AppendedX(shape: Shape): Shape {
    shape + [[1]]
  }

  function AppendedY(shape: Shape): Shape
    requires shape != []
  {
    shape[|shape| - 1 := shape[|shape| - 1] + [1]]
  }

  function AppendedZ(shape: Shape): Shape
    requires shape != [] && shape[|shape| - 1] != []
  {
    var row := shape[|shape| - 1];
    shape[|shape| - 1 := row[|row| - 1 := row[|row| - 1] + 1]]
  }

  /**
   Each append macro adds one test behind all others and renumbers none: the
   new one is x.0.0, x.y.0 or x.y.z for the next free x, y or z.
   */
  lemma AppendXAddsLast(g: nat, shape: Shape)
    requires Jagged(shape)
    ensures Jagged(AppendedX(shape))
    ensures AllTests(g, AppendedX(shape)) == AllTests(g, shape) + [TestRef(g, |shape|, 0, 0)]
  {
    assert AppendedX(shape)[..|shape|] == shape;
    assert [1][..0] == [];
    assert RowTests(g, |shape|, [1]) == [TestRef(g, |shape|, 0, 0)];
  }

  lemma AppendYAddsLast(g: nat, shape: Shape)
    requires Jagged(shape) && shape != []
    ensures Jagged(AppendedY(shape))
    ensures AllTests(g, AppendedY(shape))
         == AllTests(g, shape) + [TestRef(g, |shape| - 1, |shape[|shape| - 1]|, 0)]
  {
    var x := |shape| - 1;
    var row := shape[x];
    assert AppendedY(shape)[..x] == shape[..x];
    assert (row + [1])[..|row|] == row;
    assert RowTests(g, x, row + [1]) == RowTests(g, x, row) + [TestRef(g, x, |row|, 0)];
  }

  lemma AppendZAddsLast(g: nat, shape: Shape)
    requires Jagged(shape) && shape != []
    ensures Jagged(AppendedZ(shape))
    ensures var x := |shape| - 1;
      var y := |shape[x]| - 1;
      AllTests(g, AppendedZ(shape)) == AllTests(g, shape) + [TestRef(g, x, y, shape[x][y])]
  {
    var x := |shape| - 1;
    var row := shape[x];
    var y := |row| - 1;
    var longer := row[y := row[y] + 1];
    assert AppendedZ(shape)[..x] == shape[..x];
    assert longer[..y] == row[..y];
    assert ColumnTests(g, x, y, row[y] + 1) == ColumnTests(g, x, y, row[y]) + [TestRef(g, x, y, row[y])];
    assert RowTests(g, x, longer) == RowTests(g, x, row) + [TestRef(g, x, y, row[y])];
  }

  // ----------------------------------------------------- the iterator's cursor

  /** The number r that the iterator holds after count steps. */
  ghost predicate Cursor(g: nat, shape: Shape, r: TestRef, count: nat) {
    if shape == [] then r == TestRef(g, 0, 0, 0) && count == 0
    else Exists(g, shape, r) && Rank(shape, r) == count
  }

  lemma CursorStarts(g: nat, shape: Shape)
    requires Jagged(shape)
    ensures Cursor(g, shape, TestRef(g, 0, 0, 0), 0)
  {
    if shape != [] {
      assert shape[..0] == [] && shape[0][..0] == [];
    }
  }

  lemma CursorMoves(g: nat, shape: Shape, r: TestRef, count: nat)
    requires Jagged(shape) && Cursor(g, shape, r, count)
    ensures count < |Iterated(g, shape)| && Iterated(g, shape)[count] == r
    ensures match Successor(g, shape, r)
      case Some(s) => Cursor(g, shape, s, count + 1)
      case None => count + 1 == |Iterated(g, shape)|
  {
    hide Rank, AllTests;
    if shape != [] {
      ListedAtRank(g, shape, r);
      SuccessorRank(g, shape, r);
    }
  }

  /** From x.y.0 to an existing x.y.z the iterator meets x.y.0, x.y.1, and so on. */
  lemma SequenceIsContiguous(g: nat, shape: Shape, target: TestRef, seqIter: nat, targetIter: nat)
    requires Exists(g, shape, target)
    requires seqIter < |AllTests(g, shape)| && targetIter < |AllTests(g, shape)|
    requires AllTests(g, shape)[seqIter] == TestRef(g, target.xLev, target.yLev, 0)
    requires AllTests(g, shape)[targetIter] == target
    ensures targetIter == seqIter + target.zLev
    ensures forall k | 0 <= k < target.zLev ::
      AllTests(g, shape)[seqIter + k] == TestRef(g, target.xLev, target.yLev, k)
  {
    ListedExists(g, shape, seqIter);
    ListedExists(g, shape, targetIter);
    forall k | 0 <= k < target.zLev
      ensures AllTests(g, shape)[seqIter + k] == TestRef(g, target.xLev, target.yLev, k)
    {
      ListedAtRank(g, shape, TestRef(g, target.xLev, target.yLev, k));
    }
  }

  // ------------------------------------------------------------------- Group

  class Group {
    const mGrpNum: nat
    var mTests: seq<seq<seq<Test>>>

    constructor (grpNum: nat)
      ensures mGrpNum == grpNum && mTests == []
    {
      mGrpNum := grpNum;
      mTests := [];
    }

    function Matrix(): Shape
      reads this
    {
      MatrixShape(mTests)
    }

    ghost predicate Valid()
      reads this
    {
      Jagged(Matrix())
    }

    method AppendTestAtXLevel(test: Test)
      requires Valid()
      modifies this
      ensures Valid() && Matrix() == AppendedX(old(Matrix()))
      ensures mTests == old(mTests) + [[[test]]]
    {
      var zlevel := [test];
      var ylevel := [zlevel];
      mTests := mTests + [ylevel];
      assert RowShape(ylevel) == [1];
      assert Matrix() == AppendedX(old(Matrix()));
      AppendXAddsLast(mGrpNum, old(Matrix()));
    }

    method AppendTestAtYLevel(test: Test)
      requires Valid() && mTests != []
      modifies this
      ensures Valid() && Matrix() == AppendedY(old(Matrix()))
      ensures mTests == old(mTests[|mTests| - 1 := mTests[|mTests| - 1] + [[test]]])
    {
      var back := |mTests| - 1;
      mTests := mTests[back := mTests[back] + [[test]]];
      assert RowShape(mTests[back]) == old(Matrix())[back] + [1];
      assert Matrix() == AppendedY(old(Matrix()));
      AppendYAddsLast(mGrpNum, old(Matrix()));
    }

    method AppendTestAtZLevel(test: Test)
      requires Valid() && mTests != []
      modifies this
      ensures Valid() && Matrix() == AppendedZ(old(Matrix()))
      ensures var x := |mTests| - 1;
        && |old(mTests)| == x + 1 && |old(mTests)[x]| > 0
        && var y := |old(mTests)[x]| - 1;
        mTests == old(mTests)[x := old(mTests)[x][y := old(mTests)[x][y] + [test]]]
    {
      var x := |mTests| - 1;
      assert Matrix()[x] != [];
      var y := |mTests[x]| - 1;
      mTests := mTests[x := mTests[x][y := mTests[x][y] + [test]]];
      assert Matrix()[x] == AppendedZ(old(Matrix()))[x];
      assert Matrix() == AppendedZ(old(Matrix()));
      AppendZAddsLast(mGrpNum, old(Matrix()));
    }

    predicate TestExists(tr: TestRef)
      reads this
      ensures TestExists(tr) <==> Exists(mGrpNum, Matrix(), tr)
    {
      && tr.group == mGrpNum
      && tr.xLev < |mTests|
      && tr.yLev < |mTests[tr.xLev]|
      && tr.zLev < |mTests[tr.xLev][tr.yLev]|
    }

    /** The testIter'th test, None when there are not that many. */
    method IteraterToTestRef(testIter: nat) returns (tr: Option<TestRef>)
      requires Valid()
      ensures var all := Iterated(mGrpNum, Matrix());
        tr == if testIter < |all| then Some(all[testIter]) else None
    {
      hide Iterated, Exists;
      var count := 0;
      var x, y, z := 0, 0, 0;
      CursorStarts(mGrpNum, Matrix());
      while count < testIter
        invariant count <= testIter
        invariant Cursor(mGrpNum, Matrix(), TestRef(mGrpNum, x, y, z), count)
      {
        CursorMoves(mGrpNum, Matrix(), TestRef(mGrpNum, x, y, z), count);
        if TestExists(TestRef(mGrpNum, x, y, z + 1)) {
          z := z + 1;
          count := count + 1;
        } else if TestExists(TestRef(mGrpNum, x, y + 1, 0)) {
          y := y + 1;
          z := 0;
          count := count + 1;
        } else if TestExists(TestRef(mGrpNum, x + 1, 0, 0)) {
          x := x + 1;
          y := 0;
          z := 0;
          count := count + 1;
        } else {
          break;
        }
      }
      CursorMoves(mGrpNum, Matrix(), TestRef(mGrpNum, x, y, z), count);
      if count != testIter {
        return None;
      }
      return Some(TestRef(mGrpNum, x, y, z));
    }

    /** The index at which the iterator yields tr, None when it never does. */
    method TestRefToIterator(tr: TestRef) returns (testIter: Option<nat>)
      requires Valid()
      ensures var all := Iterated(mGrpNum, Matrix());
        match testIter
        case Some(i) => i < |all| && all[i] == tr && tr !in all[..i]
        case None => tr !in all
    {
      ghost var all := Iterated(mGrpNum, Matrix());
      var i := 0;
      var proposedTr := IteraterToTestRef(i);
      while proposedTr.Some?
        invariant i <= |all| && tr !in all[..i]
        invariant proposedTr == if i < |all| then Some(all[i]) else None
        decreases |all| - i
      {
        if tr == proposedTr.value {
          return Some(i);
        }
        i := i + 1;
        proposedTr := IteraterToTestRef(i);
      }
      return None;
    }

    /** The tests to run for a target, and the index of the first of them. */
    method GetTestSet(target: TestRef) returns (ok: bool, dependencies: seq<TestRef>, tstIdx: int)
      requires Valid()
      ensures ok == TestSet(mGrpNum, Matrix(), target).Some?
      ensures ok ==> dependencies == TestSet(mGrpNum, Matrix(), target).value && tstIdx == 0
      ensures !ok ==> tstIdx == -1
    {
      ok, dependencies, tstIdx := false, [], -1;
      if target.group != mGrpNum {
        return;
      } else if target.Specific() {
        if target.yLev == 0 && target.zLev == 0 {
        } else if target.zLev == 0 {
          var config := TestRef(target.group, target.xLev, 0, 0);
          if !TestExists(config) {
            return;
          }
          dependencies := dependencies + [config];
        } else {
          if target.yLev != 0 {
            var config := TestRef(target.group, target.xLev, 0, 0);
            if !TestExists(config) {
              return;
            }
            dependencies := dependencies + [config];
          }
          var found, sequence := SequenceDependencies(target);
          if !found {
            return;
          }
          dependencies := dependencies + sequence;
        }
        dependencies := dependencies + [target];
      } else {
        dependencies := WholeGroup();
      }
      ok, tstIdx := true, 0;
    }

    /** The part of GetTestSet that collects x.y.0 .. x.y.(z-1). */
    method SequenceDependencies(target: TestRef) returns (found: bool, sequence: seq<TestRef>)
      requires Valid() && target.group == mGrpNum && target.zLev != 0
      ensures found == Exists(mGrpNum, Matrix(), target)
      ensures found ==> sequence == ColumnTests(mGrpNum, target.xLev, target.yLev, target.zLev)
    {
      hide AllTests;
      ghost var all := Iterated(mGrpNum, Matrix());
      IteratedIsExact(mGrpNum, Matrix());
      sequence := [];
      var rootSeq := TestRef(target.group, target.xLev, target.yLev, 0);
      var seqIter := TestRefToIterator(rootSeq);
      if seqIter.None? {
        return false, sequence;
      }
      var targetIter := TestRefToIterator(target);
      if targetIter.None? {
        return false, sequence;
      }
      assert target in all && all != [TestRef(mGrpNum, 0, 0, 0)];
      SequenceIsContiguous(mGrpNum, Matrix(), target, seqIter.value, targetIter.value);
      for i := seqIter.value to targetIter.value
        invariant sequence == ColumnTests(mGrpNum, target.xLev, target.yLev, i - seqIter.value)
      {
        var thisTest := IteraterToTestRef(i);
        assert all[seqIter.value + (i - seqIter.value)] == all[i];
        sequence := sequence + [thisTest.value];
      }
      return true, sequence;
    }

    /** The part of GetTestSet that lists the whole group. */
    method WholeGroup() returns (dependencies: seq<TestRef>)
      requires Valid()
      ensures dependencies == Iterated(mGrpNum, Matrix())
    {
      ghost var all := Iterated(mGrpNum, Matrix());
      dependencies := [];
      var tstIter := 0;
      var thisTest := IteraterToTestRef(tstIter);
      while thisTest.Some?
        invariant tstIter <= |all| && dependencies == all[..tstIter]
        invariant thisTest == if tstIter < |all| then Some(all[tstIter]) else None
        decreases |all| - tstIter
      {
        dependencies := dependencies + [thisTest.value];
        tstIter := tstIter + 1;
        thisTest := IteraterToTestRef(tstIter);
      }
    }

    method SkippingTest(tr: TestRef, skipTest: seq<TestRef>) returns (skip: bool)
      ensures skip == SkipListed(tr, skipTest)
    {
      for i := 0 to |skipTest|
        invariant !SkipListed(tr, skipTest[..i])
      {
        if tr.group == skipTest[i].group && tr.xLev == skipTest[i].xLev
            && tr.yLev == skipTest[i].yLev && tr.zLev == skipTest[i].zLev {
          return true;
        } else if tr.group == skipTest[i].group
            && (UINT_MAX == skipTest[i].xLev || UINT_MAX == skipTest[i].yLev || UINT_MAX == skipTest[i].zLev) {
          return true;
        }
      }
      assert skipTest[..|skipTest|] == skipTest;
      return false;
    }

    /**
     Move past the test at tstIdx and past what must not run because of it;
     what is jumped over is listed as skipped and counted by the result.
     */
    method AdvanceDependencies(dependencies: seq<TestRef>, tstIdx: int, failed: bool, session: Session)
      returns (newIdx: int, numSkipped: nat)
      requires -1 <= tstIdx
      modifies session`skippedTests
      ensures 0 <= tstIdx < |dependencies| ==>
        var e := BlockEnd(dependencies, tstIdx, tstIdx + 1, failed);
        && newIdx == Index(e, dependencies)
        && numSkipped == e - tstIdx - 1
        && session.skippedTests == old(session.skippedTests) + dependencies[tstIdx + 1..e]
      ensures !(0 <= tstIdx < |dependencies|) ==>
        newIdx == -1 && numSkipped == 0 && session.skippedTests == old(session.skippedTests)
    {
      newIdx, numSkipped := tstIdx, 0;
      if newIdx >= |dependencies| || newIdx == -1 {
        newIdx := -1;
        return;
      }
      var dt := dependencies[newIdx];
      newIdx := newIdx + 1;
      ghost var e := BlockEnd(dependencies, tstIdx, tstIdx + 1, failed);
      while newIdx < |dependencies| && JumpsOver(dt, dependencies[newIdx], failed)
        invariant tstIdx < newIdx <= |dependencies|
        invariant BlockEnd(dependencies, tstIdx, newIdx, failed) == e
        invariant session.skippedTests == old(session.skippedTests) + dependencies[tstIdx + 1..newIdx]
      {
        var st := dependencies[newIdx];
        session.skippedTests := session.skippedTests + [st];
        newIdx := newIdx + 1;
      }
      numSkipped := newIdx - tstIdx - 1;
      if newIdx >= |dependencies| {
        newIdx := -1;
      }
    }

    /** The three loop conditions of AdvanceDependencies. */
    static predicate JumpsOver(dt: TestRef, st: TestRef, failed: bool)
      ensures JumpsOver(dt, st, failed) == Follows(dt, st, failed)
    {
      if failed then dt.xLev == st.xLev
      else if dt.yLev == 0 && dt.zLev == 0 then dt.xLev == st.xLev
      else dt.xLev == st.xLev && dt.yLev == st.yLev
    }

    /** Only the slot of t may hold another object than before. */
    static ghost predicate DiffersAt(t: TestRef, was: seq<seq<seq<Test>>>, now: seq<seq<seq<Test>>>) {
      && t.xLev < |was| && t.yLev < |was[t.xLev]| && t.zLev < |was[t.xLev][t.yLev]|
      && t.xLev < |now| && t.yLev < |now[t.xLev]| && t.zLev < |now[t.xLev][t.yLev]|
      && now == was[t.xLev := was[t.xLev][t.yLev := was[t.xLev][t.yLev][t.zLev := now[t.xLev][t.yLev][t.zLev]]]]
    }

    /** Replace the test object of tr by a clone of itself. */
    method ReplaceByClone(tr: TestRef)
      requires Valid() && Exists(mGrpNum, Matrix(), tr)
      modifies this
      ensures Valid() && Matrix() == old(Matrix())
      ensures TestExists(tr) && fresh(mTests[tr.xLev][tr.yLev][tr.zLev])
      ensures mTests[tr.xLev][tr.yLev][tr.zLev].mTestName == old(mTests[tr.xLev][tr.yLev][tr.zLev].mTestName)
      ensures DiffersAt(tr, old(mTests), mTests)
    {
      var column := mTests[tr.xLev][tr.yLev];
      var cleanMeUp := column[tr.zLev];
      var copy := cleanMeUp.Clone();
      var erased := column[..tr.zLev] + column[tr.zLev + 1..];
      var inserted := erased[..tr.zLev] + [copy] + erased[tr.zLev..];
      assert inserted == column[tr.zLev := copy];
      mTests := mTests[tr.xLev := mTests[tr.xLev][tr.yLev := inserted]];
      assert Matrix()[tr.xLev] == old(Matrix())[tr.xLev];
      assert Matrix() == old(Matrix());
    }

    /**
     Run the test at tstIdx, or skip it, and move on.  The outcome is the one
     of the specification's Step.  The object of the test is replaced by a fresh
     one of the same name unless there was no test or a hook failed; the matrix
     keeps its shape and all other objects.
     */
    method RunTest(dependencies: seq<TestRef>, tstIdx: int, session: Session)
      returns (result: TestResult, newIdx: int, numSkipped: nat)
      requires Valid() && -1 <= tstIdx
      modifies this, session
      ensures Valid() && Matrix() == old(Matrix())
      ensures var s := Step(session.env, mGrpNum, old(Matrix()), dependencies, old(session.At(tstIdx)));
        result == s.result && numSkipped == s.numSkipped && session.At(newIdx) == s.after
      ensures session.log == old(session.log) || HookFault(session.log[|session.log| - 1]) ==> mTests == old(mTests)
      ensures session.log != old(session.log) && !HookFault(session.log[|session.log| - 1]) ==>
        && 0 <= tstIdx < |dependencies| && old(TestExists(dependencies[tstIdx]))
        && TestExists(dependencies[tstIdx])
        && var t := dependencies[tstIdx];
        && fresh(mTests[t.xLev][t.yLev][t.zLev])
        && mTests[t.xLev][t.yLev][t.zLev].mTestName == old(mTests[t.xLev][t.yLev][t.zLev].mTestName)
        && DiffersAt(t, old(mTests), mTests)
    {
      hide BlockEnd, DiffersAt;
      numSkipped := 0;
      result := TR_FAIL;
      newIdx := tstIdx;
      if newIdx >= |dependencies| || newIdx == -1 {
        return TR_NOTFOUND, -1, 0;
      }
      var tr := dependencies[newIdx];
      if !TestExists(tr) {
        return TR_NOTFOUND, -1, 0;
      }
      if session.env.restore && newIdx == 0 {
        var saved := session.env.dut.saveState(session.log);
        session.log := session.log + [Saved(saved)];
        if !saved {
          return TR_FAIL, -1, 0;
        }
      }
      result, newIdx, numSkipped := VisitTest(dependencies, tstIdx, session);
      if session.env.restore && (newIdx == -1 || result == TR_FAIL) {
        var restored := session.env.dut.restoreState(session.log);
        session.log := session.log + [Restored(restored)];
        if !restored {
          return TR_FAIL, -1, numSkipped;
        }
      }
      ReplaceByClone(tr);
    }

    /** The part of RunTest between saving and restoring the state. */
    method VisitTest(dependencies: seq<TestRef>, tstIdx: int, session: Session)
      returns (result: TestResult, newIdx: int, numSkipped: nat)
      requires Valid() && 0 <= tstIdx < |dependencies|
      modifies session
      ensures var v := Judge(session.env, old(session.log), dependencies[tstIdx]);
        && result == v.Result()
        && numSkipped == NumSkipped(dependencies, tstIdx, v)
        && session.At(newIdx) == Visit(dependencies, tstIdx, old(session.At(tstIdx)), v)
    {
      hide BlockEnd, SkipListed;
      var tr := dependencies[tstIdx];
      var skipping := SkippingTest(tr, session.env.skiptest);
      result, newIdx, numSkipped := TR_FAIL, tstIdx, 0;
      if skipping {
        session.log := session.log + [Visited(tr, ListedToSkip)];
        result := TR_SKIPPING;
        session.skippedTests := session.skippedTests + [tr];
        newIdx, numSkipped := AdvanceDependencies(dependencies, tstIdx, false, session);
        numSkipped := numSkipped + 1;
      } else {
        var history := session.log;
        match session.env.dut.runnable(history, tr, session.env.preserve) {
          case RUN_TRUE =>
            result := session.env.dut.run(history, tr);
            session.log := history + [Visited(tr, Ran(result))];
            if result == TR_FAIL {
              session.failedTests := session.failedTests + [tr];
              newIdx, numSkipped := AdvanceDependencies(dependencies, tstIdx, true, session);
            } else {
              newIdx := newIdx + 1;
              if newIdx >= |dependencies| {
                newIdx := -1;
              }
            }
          case RUN_FALSE =>
            session.log := history + [Visited(tr, NotRunnable)];
            result := TR_SKIPPING;
            session.skippedTests := session.skippedTests + [tr];
            newIdx, numSkipped := AdvanceDependencies(dependencies, tstIdx, false, session);
            numSkipped := numSkipped + 1;
          case RUN_FAIL =>
            session.log := history + [Visited(tr, AskFailed)];
            session.failedTests := session.failedTests + [tr];
            newIdx, numSkipped := AdvanceDependencies(dependencies, tstIdx, true, session);
        }
      }
    }
  }
}
