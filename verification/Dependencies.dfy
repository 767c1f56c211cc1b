/**
 The dependency relation between tests, in the two forms the scheduler uses it:
 as the list GetTestSet builds for a target, and as the run of entries that
 AdvanceDependencies jumps over.
 */
module Dependencies {
  import opened Wrappers
  import opened TestNumbering

  /**
   u needs t: t is the configuration test x.0.0 of u's x level, or an earlier
   member of u's sequence x.y.*.
   */
  predicate IsDependency(t: TestRef, u: TestRef) {
    && t.group == u.group
    && t.xLev == u.xLev
    && ((t.IsConfig() && !u.IsConfig()) || (t.yLev == u.yLev && t.zLev < u.zLev))
  }

  predicate AllIn(g: nat, s: seq<TestRef>) {
    forall i | 0 <= i < |s| :: s[i].group == g
  }

  predicate AllExist(g: nat, shape: Shape, s: seq<TestRef>) {
    forall i | 0 <= i < |s| :: Exists(g, shape, s[i])
  }

  ghost predicate Closed(s: seq<TestRef>) {
    forall t, u | u in s && IsDependency(t, u) :: t in s
  }

  /** The tests to run, in order, for a target; None when the request is refused. */
  function TestSet(g: nat, shape: Shape, target: TestRef): Option<seq<TestRef>> {
    var config := TestRef(g, target.xLev, 0, 0);
    var configList := if target.yLev == 0 then [] else [config];
    if target.group != g then None
    else if !target.Specific() then Some(Iterated(g, shape))
    else if target.IsConfig() then Some([target])
    else if target.zLev == 0 then
      if Exists(g, shape, config) then Some([config, target]) else None
    else if Exists(g, shape, target) then
      Some(configList + ColumnTests(g, target.xLev, target.yLev, target.zLev) + [target])
    else None
  }

  /**
   The set of an existing test is its dependencies and itself, strictly
   ascending with the target last.
   */
  lemma TestSetIsDependencies(g: nat, shape: Shape, target: TestRef)
    requires Jagged(shape) && Exists(g, shape, target) && target.Specific()
    ensures TestSet(g, shape, target).Some?
    ensures var s := TestSet(g, shape, target).value;
      && Ascending(s) && |s| > 0 && s[|s| - 1] == target
      && AllExist(g, shape, s)
      && forall t :: t in s <==> t == target || IsDependency(t, target)
  {
    var s := TestSet(g, shape, target).value;
    var column := ColumnTests(g, target.xLev, target.yLev, target.zLev);
    forall t ensures t in s <==> t == target || IsDependency(t, target) {
      if IsDependency(t, target) && t.yLev == target.yLev {
        assert column[t.zLev] == t;
      }
    }
  }

  /**
   It is the least list that holds the target and is closed under dependency,
   and the only ascending one with these members.
   */
  lemma TestSetIsLeastClosed(g: nat, shape: Shape, target: TestRef, other: seq<TestRef>)
    requires Jagged(shape) && Exists(g, shape, target) && target.Specific()
    ensures Closed(TestSet(g, shape, target).value)
    ensures target in other && Closed(other) ==>
      forall t | t in TestSet(g, shape, target).value :: t in other
    ensures Ascending(other) && (forall t :: t in other <==> t == target || IsDependency(t, target))
      ==> other == TestSet(g, shape, target).value
  {
    var s := TestSet(g, shape, target).value;
    TestSetIsDependencies(g, shape, target);
    if Ascending(other) && (forall t :: t in other <==> t == target || IsDependency(t, target)) {
      AscendingUnique(other, s);
    }
  }

  lemma {:induction false} AscendingUnique(a: seq<TestRef>, b: seq<TestRef>)
    requires Ascending(a) && Ascending(b)
    requires forall t :: t in a <==> t in b
    ensures a == b
  {
    assert forall i | 0 <= i < |a| :: a[i] in b;
    assert forall i | 0 <= i < |b| :: b[i] in a;
    if a != [] && b != [] {
      assert a[0] in b && b[0] in a;
      assert a[0] == b[0];
      forall t ensures t in a[1..] <==> t in b[1..] {
        if t in a[1..] {
          assert t in a && t != b[0];
          assert t in b;
        }
        if t in b[1..] {
          assert t in b && t != a[0];
          assert t in a;
        }
      }
      AscendingUnique(a[1..], b[1..]);
    }
  }

  /**
   A target that does not exist is not always refused: x.0.0 and x.y.0 are
   listed unseen.  Every listed test exists if and only if the target does.
   */
  lemma TestSetMissingTarget(g: nat, shape: Shape, target: TestRef)
    requires Jagged(shape) && target.group == g && target.Specific()
    ensures TestSet(g, shape, target).Some? && AllExist(g, shape, TestSet(g, shape, target).value)
      <==> Exists(g, shape, target)
    ensures TestSet(g, shape, target) == None
      <==> !Exists(g, shape, target) && (target.zLev != 0 || (target.yLev != 0 && target.xLev >= |shape|))
  {
    if Exists(g, shape, target) {
      TestSetIsDependencies(g, shape, target);
    } else if TestSet(g, shape, target).Some? {
      var s := TestSet(g, shape, target).value;
      assert s[|s| - 1] == target;
    }
  }

  /** The whole group, when it has tests, is ascending, existing and closed. */
  lemma GroupSetIsClosed(g: nat, shape: Shape)
    requires Jagged(shape) && shape != []
    ensures var s := Iterated(g, shape);
      Ascending(s) && AllExist(g, shape, s) && Closed(s) && |s| > 0
  {
    var s := Iterated(g, shape);
    AllTestsAscending(g, shape);
    IteratedIsExact(g, shape);
    assert Exists(g, shape, TestRef(g, 0, 0, 0));
    forall i | 0 <= i < |s| ensures Exists(g, shape, s[i]) {
      assert s[i] in s;
    }
  }

  /**
   A set to schedule: ascending and closed under dependency, with no missing
   test in front of the last one.
   */
  ghost predicate Schedulable(g: nat, shape: Shape, deps: seq<TestRef>) {
    && deps != [] && Ascending(deps) && AllIn(g, deps) && Closed(deps)
    && AllExist(g, shape, deps[..|deps| - 1])
  }

  /**
   Whatever the request, a set that GetTestSet returns is schedulable: also
   that of a missing test and that of a matrix without tests.
   */
  lemma TestSetIsSchedulable(g: nat, shape: Shape, target: TestRef)
    requires Jagged(shape) && TestSet(g, shape, target).Some?
    ensures Schedulable(g, shape, TestSet(g, shape, target).value)
  {
    if !target.Specific() {
      if shape != [] {
        GroupSetIsClosed(g, shape);
      }
    } else if Exists(g, shape, target) {
      TestSetIsDependencies(g, shape, target);
      TestSetIsLeastClosed(g, shape, target, []);
    } else {
      TestSetMissingTarget(g, shape, target);
    }
  }

  // ------------------------------------------------------- jumping over tests

  /** The condition under which the scheduler keeps jumping past st because of dt. */
  predicate Follows(dt: TestRef, st: TestRef, failed: bool) {
    dt.xLev == st.xLev && (failed || dt.IsConfig() || dt.yLev == st.yLev)
  }

  /** The first index from j on where the jump that began at i stops. */
  function BlockEnd(deps: seq<TestRef>, i: nat, j: nat, failed: bool): (e: nat)
    requires i < j <= |deps|
    ensures j <= e <= |deps|
    ensures forall k | j <= k < e :: Follows(deps[i], deps[k], failed)
    ensures e < |deps| ==> !Follows(deps[i], deps[e], failed)
    decreases |deps| - j
  {
    if j < |deps| && Follows(deps[i], deps[j], failed) then BlockEnd(deps, i, j + 1, failed) else j
  }

  /** What must not run any more once t failed or was skipped. */
  predicate Condemns(t: TestRef, u: TestRef, failed: bool) {
    if failed then t.xLev == u.xLev else IsDependency(t, u)
  }

  /**
   The two encodings agree: the entries jumped over are exactly the later
   entries that depend on the skipped test, or share the x level of the failed
   one; so they form one block.
   */
  lemma BlockIsCondemned(g: nat, deps: seq<TestRef>, i: nat, failed: bool)
    requires Ascending(deps) && AllIn(g, deps) && i < |deps|
    ensures forall k | i < k < |deps| ::
      k < BlockEnd(deps, i, i + 1, failed) <==> Condemns(deps[i], deps[k], failed)
  {
    var e := BlockEnd(deps, i, i + 1, failed);
    forall k | i < k < |deps|
      ensures k < e <==> Condemns(deps[i], deps[k], failed)
    {
      assert Before(deps[i], deps[k]);
      if e <= k {
        assert Before(deps[i], deps[e]);
        assert e < k ==> Before(deps[e], deps[k]);
      }
    }
  }

  /** The same agreement, said of the lists that GetTestSet itself returns. */
  lemma SkipBlockMatchesTestSets(g: nat, shape: Shape, deps: seq<TestRef>, i: nat)
    requires Jagged(shape) && Ascending(deps) && AllIn(g, deps) && i < |deps|
    requires AllExist(g, shape, deps) && forall k | 0 <= k < |deps| :: deps[k].Specific()
    ensures forall k | i < k < |deps| ::
      k < BlockEnd(deps, i, i + 1, false) <==>
      (TestSet(g, shape, deps[k]).Some? && deps[i] in TestSet(g, shape, deps[k]).value)
  {
    BlockIsCondemned(g, deps, i, false);
    forall k | i < k < |deps|
      ensures TestSet(g, shape, deps[k]).Some?
      ensures deps[i] in TestSet(g, shape, deps[k]).value <==> IsDependency(deps[i], deps[k])
    {
      TestSetIsDependencies(g, shape, deps[k]);
      assert Before(deps[i], deps[k]);
    }
  }
}
