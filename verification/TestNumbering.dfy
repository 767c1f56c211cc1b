/**
 Test numbers and the jagged matrix they index.

 A group holds its tests in a three level matrix and refers to one of them as
 <group>:<x>.<y>.<z>.  Everything the scheduler decides depends only on the
 sizes of the levels, so the specification works on the matrix's Shape.
 */
module TestNumbering {
  import opened Wrappers

  // The C type 'unsigned int' is 32 bits wide; a level equal to this value
  // stands for "ALL".
  const UINT_MAX: nat := 0xFFFF_FFFF

  datatype TestRef = TestRef(group: nat, xLev: nat, yLev: nat, zLev: nat) {

    /** All three levels are given, none of them stands for "ALL". */
    predicate Specific() {
      xLev != UINT_MAX && yLev != UINT_MAX && zLev != UINT_MAX
    }

    /** Numbered x.0.0, the configuration test of its x level. */
    predicate IsConfig() {
      yLev == 0 && zLev == 0
    }
  }

  /** shape[x][y] is the number of tests numbered x.y.<z>. */
  type Shape = seq<seq<nat>>

  /** No level below the top one is empty: what the APPEND_TEST macros build. */
  predicate Jagged(shape: Shape) {
    forall x | 0 <= x < |shape| ::
      |shape[x]| > 0 && forall y | 0 <= y < |shape[x]| :: shape[x][y] > 0
  }

  predicate Exists(g: nat, shape: Shape, r: TestRef) {
    && r.group == g
    && r.xLev < |shape|
    && r.yLev < |shape[r.xLev]|
    && r.zLev < shape[r.xLev][r.yLev]
  }

  /** Lexicographic order of the levels. */
  predicate Before(a: TestRef, b: TestRef) {
    || a.xLev < b.xLev
    || (a.xLev == b.xLev && a.yLev < b.yLev)
    || (a.xLev == b.xLev && a.yLev == b.yLev && a.zLev < b.zLev)
  }

  predicate Ascending(s: seq<TestRef>) {
    forall i, j | 0 <= i < j < |s| :: Before(s[i], s[j])
  }

  // ---------------------------------------------------------------- listing

  function ColumnTests(g: nat, x: nat, y: nat, n: nat): (s: seq<TestRef>)
    ensures |s| == n
    ensures forall z | 0 <= z < n :: s[z] == TestRef(g, x, y, z)
  {
    seq(n, (z: nat) => TestRef(g, x, y, z))
  }

  function RowTests(g: nat, x: nat, row: seq<nat>): seq<TestRef> {
    if row == [] then []
    else
      var last := |row| - 1;
      RowTests(g, x, row[..last]) + ColumnTests(g, x, last, row[last])
  }

  /** Every test of the matrix, row by row. */
  function AllTests(g: nat, shape: Shape): seq<TestRef> {
    if shape == [] then []
    else
      var last := |shape| - 1;
      AllTests(g, shape[..last]) + RowTests(g, last, shape[last])
  }

  /** The number of tests listed ahead of r. */
  function Rank(shape: Shape, r: TestRef): nat
    requires r.xLev < |shape| && r.yLev < |shape[r.xLev]|
  {
    |AllTests(r.group, shape[..r.xLev])|
    + |RowTests(r.group, r.xLev, shape[r.xLev][..r.yLev])|
    + r.zLev
  }

  lemma {:induction false} RowPrefix(g: nat, x: nat, row: seq<nat>, n: nat)
    requires n <= |row|
    ensures RowTests(g, x, row[..n]) <= RowTests(g, x, row)
    ensures n < |row| ==>
      RowTests(g, x, row[..n]) + ColumnTests(g, x, n, row[n]) <= RowTests(g, x, row)
  {
    if n < |row| {
      var last := |row| - 1;
      RowPrefix(g, x, row[..last], n);
      assert row[..last][..n] == row[..n];
    } else {
      assert row[..n] == row;
    }
  }

  lemma {:induction false} MatrixPrefix(g: nat, shape: Shape, n: nat)
    requires n <= |shape|
    ensures AllTests(g, shape[..n]) <= AllTests(g, shape)
    ensures n < |shape| ==>
      AllTests(g, shape[..n]) + RowTests(g, n, shape[n]) <= AllTests(g, shape)
  {
    if n < |shape| {
      var last := |shape| - 1;
      MatrixPrefix(g, shape[..last], n);
      assert shape[..last][..n] == shape[..n];
    } else {
      assert shape[..n] == shape;
    }
  }

  /** An existing test is listed at its rank. */
  lemma ListedAtRank(g: nat, shape: Shape, r: TestRef)
    requires Exists(g, shape, r)
    ensures Rank(shape, r) < |AllTests(g, shape)|
    ensures AllTests(g, shape)[Rank(shape, r)] == r
  {
    var row := shape[r.xLev];
    MatrixPrefix(g, shape, r.xLev);
    RowPrefix(g, r.xLev, row, r.yLev);
    var above := AllTests(g, shape[..r.xLev]);
    var left := RowTests(g, r.xLev, row[..r.yLev]);
    var column := ColumnTests(g, r.xLev, r.yLev, row[r.yLev]);
    assert (left + column)[|left| + r.zLev] == column[r.zLev] == r;
    assert RowTests(g, r.xLev, row)[|left| + r.zLev] == r;
    assert (above + RowTests(g, r.xLev, row))[|above| + |left| + r.zLev] == r;
  }

  lemma {:induction false} RowSound(g: nat, x: nat, row: seq<nat>, i: nat)
    requires i < |RowTests(g, x, row)|
    ensures var r := RowTests(g, x, row)[i];
      && r.group == g && r.xLev == x && r.yLev < |row| && r.zLev < row[r.yLev]
      && i == |RowTests(g, x, row[..r.yLev])| + r.zLev
  {
    var last := |row| - 1;
    var shorter := row[..last];
    if i < |RowTests(g, x, shorter)| {
      RowSound(g, x, shorter, i);
      var r := RowTests(g, x, shorter)[i];
      assert shorter[..r.yLev] == row[..r.yLev];
    }
  }

  /** Whatever is listed exists, and stands at its rank. */
  lemma {:induction false} ListedExists(g: nat, shape: Shape, i: nat)
    requires i < |AllTests(g, shape)|
    ensures Exists(g, shape, AllTests(g, shape)[i])
    ensures Rank(shape, AllTests(g, shape)[i]) == i
  {
    var last := |shape| - 1;
    var shorter := shape[..last];
    if i < |AllTests(g, shorter)| {
      ListedExists(g, shorter, i);
      var r := AllTests(g, shorter)[i];
      assert shorter[..r.xLev] == shape[..r.xLev];
    } else {
      RowSound(g, last, shape[last], i - |AllTests(g, shorter)|);
    }
  }

  /** Ranks respect the order of the numbers. */
  lemma RankMonotone(g: nat, shape: Shape, a: TestRef, b: TestRef)
    requires Exists(g, shape, a) && Exists(g, shape, b) && Before(a, b)
    ensures Rank(shape, a) < Rank(shape, b)
  {
    if a.xLev == b.xLev {
      if a.yLev < b.yLev {
        var row := shape[a.xLev][..b.yLev];
        RowPrefix(g, a.xLev, row, a.yLev);
        assert row[..a.yLev] == shape[a.xLev][..a.yLev];
      }
    } else {
      var rows := shape[..b.xLev];
      MatrixPrefix(g, rows, a.xLev);
      assert rows[..a.xLev] == shape[..a.xLev];
      RowPrefix(g, a.xLev, shape[a.xLev], a.yLev);
    }
  }

  /** The listing is in strictly ascending order. */
  lemma AllTestsAscending(g: nat, shape: Shape)
    ensures Ascending(AllTests(g, shape))
  {
    var s := AllTests(g, shape);
    forall i, j | 0 <= i < j < |s| ensures Before(s[i], s[j]) {
      ListedExists(g, shape, i);
      ListedExists(g, shape, j);
      if !Before(s[i], s[j]) && s[i] != s[j] {
        RankMonotone(g, shape, s[j], s[i]);
      }
    }
  }

  // ------------------------------------------------------ stepping by number

  /** The number the iterator tries after r: next z, else next y, else next x. */
  function Successor(g: nat, shape: Shape, r: TestRef): Option<TestRef> {
    if Exists(g, shape, TestRef(g, r.xLev, r.yLev, r.zLev + 1)) then
      Some(TestRef(g, r.xLev, r.yLev, r.zLev + 1))
    else if Exists(g, shape, TestRef(g, r.xLev, r.yLev + 1, 0)) then
      Some(TestRef(g, r.xLev, r.yLev + 1, 0))
    else if Exists(g, shape, TestRef(g, r.xLev + 1, 0, 0)) then
      Some(TestRef(g, r.xLev + 1, 0, 0))
    else
      None
  }

  /** The successor is the test of the next rank; only the last test has none. */
  lemma SuccessorRank(g: nat, shape: Shape, r: TestRef)
    requires Jagged(shape) && Exists(g, shape, r)
    ensures match Successor(g, shape, r)
      case Some(s) => Exists(g, shape, s) && Rank(shape, s) == Rank(shape, r) + 1
      case None => Rank(shape, r) + 1 == |AllTests(g, shape)|
  {
    var row := shape[r.xLev];
    if r.zLev + 1 == row[r.yLev] {
      assert row[..r.yLev + 1][..r.yLev] == row[..r.yLev];
      if r.yLev + 1 == |row| {
        assert row[..r.yLev + 1] == row;
        assert shape[..r.xLev + 1][..r.xLev] == shape[..r.xLev];
        if r.xLev + 1 == |shape| {
          assert shape[..r.xLev + 1] == shape;
        }
      }
    }
  }

  /**
   What the iterator walks over.  On a matrix without any test it still yields
   0.0.0 for index 0, because the loop that checks for existence is not entered.
   */
  function Iterated(g: nat, shape: Shape): seq<TestRef> {
    if shape == [] then [TestRef(g, 0, 0, 0)] else AllTests(g, shape)
  }

  /**
   The iterator lists exactly the existing tests if and only if the matrix is
   not empty.
   */
  lemma IteratedIsExact(g: nat, shape: Shape)
    ensures (forall r :: r in Iterated(g, shape) <==> Exists(g, shape, r)) <==> shape != []
    ensures shape != [] ==> |Iterated(g, shape)| == |AllTests(g, shape)|
  {
    if shape == [] {
      var phantom := TestRef(g, 0, 0, 0);
      assert phantom in Iterated(g, shape) && !Exists(g, shape, phantom);
    } else {
      forall r ensures r in Iterated(g, shape) <==> Exists(g, shape, r) {
        if r in Iterated(g, shape) {
          var i :| 0 <= i < |AllTests(g, shape)| && AllTests(g, shape)[i] == r;
          ListedExists(g, shape, i);
        }
        if Exists(g, shape, r) {
          ListedAtRank(g, shape, r);
        }
      }
    }
  }
}
