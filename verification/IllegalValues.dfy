/**
 GetIllegalQIDs and GetIllegalQSizes: queue identifiers and queue sizes beyond
 what a controller supports, around the doublings of the first one.
 */
module IllegalValues {

  const MAX_IOQ_ID: nat := 0xFFFF
  const MAX_Q_ENTRIES: nat := 0x1_0000
  const UINT32_SIZE: nat := 0x1_0000_0000

  /** Each value below the limit with its neighbours, doubling from q on. */
  function Doubling(q: nat, limit: nat): seq<nat>
    requires 0 < q
    decreases limit + 2 - q
  {
    if q > limit + 1 then []
    else (if q < limit then [q - 1, q, q + 1] else []) + Doubling(2 * q, limit)
  }

  /** list::remove: all elements equal to v go. */
  function Remove(s: seq<nat>, v: nat): seq<nat> {
    if s == [] then []
    else if s[0] == v then Remove(s[1..], v) else [s[0]] + Remove(s[1..], v)
  }

  /** The first value of qId, in 32 bits. */
  function FirstQID(maxQIds: nat): nat {
    (maxQIds + 1) % UINT32_SIZE
  }

  /** The first value of qSize, in 32 bits. */
  function FirstQSize(maxEntries: nat): nat {
    (maxEntries + 2) % UINT32_SIZE
  }

  function IllegalQIDs(maxQIds: nat): seq<nat>
    requires FirstQID(maxQIds) != 0
  {
    var s := Doubling(FirstQID(maxQIds), MAX_IOQ_ID);
    if maxQIds < MAX_IOQ_ID then
      Remove(Remove(s, MAX_IOQ_ID - 1), MAX_IOQ_ID) + [MAX_IOQ_ID - 1, MAX_IOQ_ID]
    else s
  }

  function IllegalQSizes(maxEntries: nat): seq<nat>
    requires FirstQSize(maxEntries) != 0
  {
    var s := Doubling(FirstQSize(maxEntries), MAX_Q_ENTRIES);
    if maxEntries < MAX_Q_ENTRIES then Remove(s, MAX_Q_ENTRIES) + [MAX_Q_ENTRIES] else s
  }

  lemma DoublingStep(q: nat, limit: nat)
    requires 0 < q
    ensures q <= limit + 1 ==>
      Doubling(q, limit) == (if q < limit then [q - 1, q, q + 1] else []) + Doubling(2 * q, limit)
    ensures q > limit + 1 ==> Doubling(q, limit) == []
  {
  }

  // ----------------------------------------------------------- the C++ loops

  /** The doubling loop, from any value but 0. */
  method CollectDoublings(first: nat, limit: nat) returns (s: seq<nat>)
    requires 0 < first < UINT32_SIZE && limit <= MAX_Q_ENTRIES
    ensures s == Doubling(first, limit)
  {
    hide Doubling;
    s := [];
    var q := first;
    while q <= limit + 1
      invariant 0 < q < UINT32_SIZE
      invariant s + Doubling(q, limit) == Doubling(first, limit)
      decreases limit + 2 - q
    {
      DoublingStep(q, limit);
      ghost var before := s;
      if q < limit {
        s := s + [q - 1];
        s := s + [q];
        s := s + [q + 1];
        assert s == before + [q - 1, q, q + 1];
      }
      q := (q * 2) % UINT32_SIZE;
    }
    DoublingStep(q, limit);
  }

  method RemoveAll(s: seq<nat>, v: nat) returns (r: seq<nat>)
    ensures r == Remove(s, v)
  {
    r := [];
    for i := 0 to |s|
      invariant r + Remove(s[i..], v) == Remove(s, v)
    {
      assert s[i..][1..] == s[i + 1..];
      if s[i] != v {
        r := r + [s[i]];
      }
    }
  }

  /** Ends unless the first value is 0: DoublingEndsIff. */
  method GetIllegalQIDs(maxQIdsSupported: nat) returns (illegalQIDs: seq<nat>)
    requires maxQIdsSupported < UINT32_SIZE && FirstQID(maxQIdsSupported) != 0
    ensures illegalQIDs == IllegalQIDs(maxQIdsSupported)
  {
    illegalQIDs := CollectDoublings((maxQIdsSupported + 1) % UINT32_SIZE, MAX_IOQ_ID);
    if maxQIdsSupported < MAX_IOQ_ID {
      illegalQIDs := RemoveAll(illegalQIDs, MAX_IOQ_ID - 1);
      illegalQIDs := RemoveAll(illegalQIDs, MAX_IOQ_ID);
      illegalQIDs := illegalQIDs + [MAX_IOQ_ID - 1];
      illegalQIDs := illegalQIDs + [MAX_IOQ_ID];
    }
  }

  method GetIllegalQSizes(maxIOQEntries: nat) returns (illegalQSizes: seq<nat>)
    requires maxIOQEntries < UINT32_SIZE && FirstQSize(maxIOQEntries) != 0
    ensures illegalQSizes == IllegalQSizes(maxIOQEntries)
  {
    illegalQSizes := CollectDoublings((maxIOQEntries + 2) % UINT32_SIZE, MAX_Q_ENTRIES);
    if maxIOQEntries < MAX_Q_ENTRIES {
      illegalQSizes := RemoveAll(illegalQSizes, MAX_Q_ENTRIES);
      illegalQSizes := illegalQSizes + [MAX_Q_ENTRIES];
    }
  }

  // -------------------------------------------------------------- termination

  /** The loop variable after k turns of the doubling loop. */
  function AfterTurns(q: nat, k: nat): nat
    decreases k
  {
    if k == 0 then q else AfterTurns(q * 2 % UINT32_SIZE, k - 1)
  }

  /** After some number of turns the condition of the loop is false. */
  ghost predicate LoopEnds(q: nat, limit: nat) {
    exists k :: AfterTurns(q, k) > limit + 1
  }

  /** From 0 the loop stands still. */
  lemma {:induction false} ZeroStandsStill(k: nat)
    ensures AfterTurns(0, k) == 0
  {
    if k > 0 {
      ZeroStandsStill(k - 1);
    }
  }

  lemma {:induction false} TurnsReachLimit(q: nat, limit: nat) returns (k: nat)
    requires 0 < q < UINT32_SIZE && limit <= MAX_Q_ENTRIES
    ensures AfterTurns(q, k) > limit + 1
    decreases limit + 2 - q
  {
    if q > limit + 1 {
      k := 0;
    } else {
      k := TurnsReachLimit(2 * q, limit);
      k := k + 1;
    }
  }

  /** The doubling loop ends if and only if it does not start from 0. */
  lemma DoublingEndsIff(q: nat, limit: nat)
    requires q < UINT32_SIZE && limit <= MAX_Q_ENTRIES
    ensures LoopEnds(q, limit) <==> q != 0
  {
    if q == 0 {
      forall k ensures AfterTurns(q, k) == 0 {
        ZeroStandsStill(k);
      }
    } else {
      var k := TurnsReachLimit(q, limit);
    }
  }

  /**
   So each generator ends for every limit but one: 2^32 - 1 supported
   identifiers, and 2^32 - 2 supported entries, from which 2 more wrap to 0.
   */
  lemma GeneratorsEndIff(m: nat)
    requires m < UINT32_SIZE
    ensures LoopEnds(FirstQID(m), MAX_IOQ_ID) <==> m != 0xFFFF_FFFF
    ensures LoopEnds(FirstQSize(m), MAX_Q_ENTRIES) <==> m != 0xFFFF_FFFE
  {
    DoublingEndsIff(FirstQID(m), MAX_IOQ_ID);
    DoublingEndsIff(FirstQSize(m), MAX_Q_ENTRIES);
  }

  // --------------------------------------------------------------------- laws

  function Power2(k: nat): (p: nat)
    ensures p > 0
  {
    if k == 0 then 1 else 2 * Power2(k - 1)
  }

  /** v is within one of first * 2^k, which is below the limit. */
  predicate NearPower(v: int, first: nat, limit: nat, k: nat) {
    var q := first * Power2(k);
    q < limit && (v == q - 1 || v == q || v == q + 1)
  }

  ghost predicate NearDoubling(v: int, first: nat, limit: nat) {
    exists k: nat :: NearPower(v, first, limit, k)
  }

  lemma {:induction false} DoublingHolds(q: nat, limit: nat, v: nat)
    requires 0 < q
    ensures v in Doubling(q, limit) <==> NearDoubling(v, q, limit)
    decreases limit + 2 - q
  {
    hide NearDoubling;
    if q <= limit + 1 {
      DoublingHolds(2 * q, limit, v);
      var rest := Doubling(2 * q, limit);
      var triple := if q < limit then [q - 1, q, q + 1] else [];
      assert v in triple + rest <==> v in triple || v in rest;
    }
    NearUnfolds(v, q, limit);
  }

  lemma NearShifts(v: int, q: nat, limit: nat, k: nat)
    ensures NearPower(v, 2 * q, limit, k) <==> NearPower(v, q, limit, k + 1)
    ensures NearPower(v, q, limit, 0) <==> q < limit && (v == q - 1 || v == q || v == q + 1)
    ensures NearPower(v, q, limit, k) ==> q < limit
  {
    assert 2 * q * Power2(k) == q * Power2(k + 1);
    assert q * (Power2(k) - 1) >= 0;
    assert q * Power2(0) == q;
  }

  /** Near a doubling of q is near q itself or near a doubling of 2 * q. */
  lemma NearUnfolds(v: int, q: nat, limit: nat)
    ensures NearDoubling(v, q, limit) <==>
      (q < limit && (v == q - 1 || v == q || v == q + 1)) || NearDoubling(v, 2 * q, limit)
    ensures q >= limit ==> !NearDoubling(v, q, limit)
  {
    hide NearPower;
    NearShifts(v, q, limit, 0);
    if NearDoubling(v, q, limit) {
      var k: nat :| NearPower(v, q, limit, k);
      NearShifts(v, q, limit, k);
      if k > 0 {
        NearShifts(v, q, limit, k - 1);
      }
    }
    if NearDoubling(v, 2 * q, limit) {
      var k: nat :| NearPower(v, 2 * q, limit, k);
      NearShifts(v, q, limit, k);
    }
  }

  lemma {:induction false} RemoveHolds(s: seq<nat>, v: nat, w: nat)
    ensures w in Remove(s, v) <==> w in s && w != v
  {
    if s != [] {
      RemoveHolds(s[1..], v, w);
    }
  }

  /**
   Which identifiers are tried: the last two there are, if they are not
   supported, and all within one of a doubling of the first unsupported one
   that is below the last.
   */
  lemma QIDsHold(m: nat, v: nat)
    requires m < UINT32_SIZE && FirstQID(m) != 0
    ensures v in IllegalQIDs(m) <==>
      || (m < 0xFFFF && (v == 0xFFFE || v == 0xFFFF))
      || NearDoubling(v, (m + 1) % 0x1_0000_0000, 0xFFFF)
  {
    hide Doubling, Remove, NearDoubling;
    var s := Doubling(FirstQID(m), MAX_IOQ_ID);
    DoublingHolds(FirstQID(m), MAX_IOQ_ID, v);
    RemoveHolds(s, MAX_IOQ_ID - 1, v);
    RemoveHolds(Remove(s, MAX_IOQ_ID - 1), MAX_IOQ_ID, v);
  }

  /**
   Which sizes are tried: the largest one, if it is not supported, and all
   within one of a doubling of the second unsupported size that is below it.
   */
  lemma QSizesHold(m: nat, v: nat)
    requires m < UINT32_SIZE && FirstQSize(m) != 0
    ensures v in IllegalQSizes(m) <==>
      || (m < 0x1_0000 && v == 0x1_0000)
      || NearDoubling(v, (m + 2) % 0x1_0000_0000, 0x1_0000)
  {
    hide Doubling, Remove, NearDoubling;
    var s := Doubling(FirstQSize(m), MAX_Q_ENTRIES);
    DoublingHolds(FirstQSize(m), MAX_Q_ENTRIES, v);
    RemoveHolds(s, MAX_Q_ENTRIES, v);
  }

  /** Each element is greater than the one in front of it. */
  predicate Increasing(s: seq<nat>) {
    forall i | 0 < i < |s| :: s[i - 1] < s[i]
  }

  /** Each element is less than twice the one in front of it. */
  predicate Gradual(s: seq<nat>) {
    forall i | 0 < i < |s| :: s[i] < 2 * s[i - 1]
  }

  predicate Within(s: seq<nat>, low: nat, high: nat) {
    forall i | 0 <= i < |s| :: low <= s[i] <= high
  }

  lemma DoublingUnfolds(q: nat, limit: nat)
    requires 0 < q
    ensures q < limit ==> Doubling(q, limit) == [q - 1, q, q + 1] + Doubling(2 * q, limit)
    ensures q >= limit && 2 * q > limit + 1 ==> Doubling(q, limit) == []
  {
    hide Doubling;
    DoublingStep(q, limit);
    DoublingStep(2 * q, limit);
  }

  lemma Concatenation(a: seq<nat>, b: seq<nat>, low: nat, high: nat)
    requires Within(a, low, high) && Within(b, low, high)
    ensures Within(a + b, low, high)
    ensures Increasing(a) && Increasing(b) && (a != [] && b != [] ==> a[|a| - 1] < b[0])
      ==> Increasing(a + b)
    ensures Gradual(a) && Gradual(b) && (a != [] && b != [] ==> b[0] < 2 * a[|a| - 1])
      ==> Gradual(a + b)
  {
  }

  lemma {:induction false} LastIsLargest(s: seq<nat>, i: nat)
    requires Increasing(s) && i < |s|
    ensures s[i] <= s[|s| - 1]
    decreases |s| - i
  {
    if i + 1 < |s| {
      LastIsLargest(s, i + 1);
    }
  }

  lemma Prefix(s: seq<nat>, n: nat, low: nat, high: nat)
    requires n <= |s|
    ensures Increasing(s) ==> Increasing(s[..n])
    ensures Gradual(s) ==> Gradual(s[..n])
    ensures Within(s, low, high) ==> Within(s[..n], low, high)
  {
  }

  lemma TripleInFront(q: nat, limit: nat, rest: seq<nat>)
    requires 3 <= q < limit && Increasing(rest) && Gradual(rest) && Within(rest, 2 * q - 1, limit)
    requires rest != [] ==> rest[0] == 2 * q - 1
    ensures var s := [q - 1, q, q + 1] + rest;
      Increasing(s) && Gradual(s) && Within(s, q - 1, limit)
      && s[|s| - 1] == if rest == [] then q + 1 else rest[|rest| - 1]
  {
    var triple := [q - 1, q, q + 1];
    assert Increasing(triple) && Gradual(triple) && Within(triple, q - 1, limit);
    assert Within(rest, q - 1, limit);
    hide Increasing, Gradual, Within;
    Concatenation(triple, rest, q - 1, limit);
  }

  /** From 3 on the triples do not overlap. */
  lemma {:induction false} DoublingLaws(q: nat, limit: nat)
    requires 3 <= q && 3 <= limit
    ensures var s := Doubling(q, limit);
      && Increasing(s) && Gradual(s) && Within(s, q - 1, limit)
      && (q < limit ==> |s| >= 3 && s[0] == q - 1 && 2 * (s[|s| - 1] - 1) >= limit)
      && (q >= limit ==> s == [])
    decreases limit + 2 - q
  {
    hide Doubling;
    DoublingUnfolds(q, limit);
    if q < limit {
      DoublingLaws(2 * q, limit);
      TripleInFront(q, limit, Doubling(2 * q, limit));
    }
  }

  /** The number of doublings bounds the length. */
  lemma {:induction false} DoublingLength(q: nat, limit: nat, k: nat)
    requires 2 <= q && 2 <= limit && q * Power2(k) >= limit
    ensures |Doubling(q, limit)| <= 3 * k
    decreases limit + 2 - q
  {
    hide Doubling;
    DoublingUnfolds(q, limit);
    if q < limit {
      assert k > 0;
      assert (2 * q) * Power2(k - 1) == q * Power2(k);
      DoublingLength(2 * q, limit, k - 1);
    }
  }

  /** Removing the top value from an increasing list cuts off its last element. */
  lemma {:induction false} RemoveTop(s: seq<nat>, v: nat)
    requires Increasing(s) && Within(s, 0, v)
    ensures Remove(s, v) == if s != [] && s[|s| - 1] == v then s[..|s| - 1] else s
  {
    if s != [] {
      RemoveTop(s[1..], v);
    }
  }

  lemma {:induction false} RemoveCommutes(s: seq<nat>, v: nat, w: nat)
    ensures Remove(Remove(s, v), w) == Remove(Remove(s, w), v)
  {
    if s != [] {
      RemoveCommutes(s[1..], v, w);
    }
  }

  lemma {:induction false} RemovedIsGone(s: seq<nat>, v: nat)
    ensures v !in Remove(s, v)
  {
    if s != [] {
      RemovedIsGone(s[1..], v);
    }
  }

  lemma {:induction false} RemoveBehind(front: seq<nat>, tail: seq<nat>, v: nat)
    requires v !in front
    ensures Remove(front + tail, v) == front + Remove(tail, v)
  {
    if front == [] {
      assert front + tail == tail;
    } else {
      assert (front + tail)[1..] == front[1..] + tail;
      RemoveBehind(front[1..], tail, v);
    }
  }

  /** Below 3 the triples overlap. */
  lemma DoublingOverlaps(q: nat, limit: nat) returns (tail: seq<nat>)
    requires 0 < q < 3 && 8 <= limit
    ensures Doubling(q, limit) == [q - 1, q, q + 1, 2 * q - 1] + tail
  {
    hide Doubling;
    DoublingUnfolds(q, limit);
    DoublingUnfolds(2 * q, limit);
    tail := [2 * q, 2 * q + 1] + Doubling(4 * q, limit);
  }

  /** How much of an increasing list is below v - 1 or v, of which it holds at most both. */
  lemma CutTop(s: seq<nat>, v: nat) returns (n: nat)
    requires Increasing(s) && Within(s, 0, v)
    ensures n <= |s| <= n + 1 && Remove(s, v) == s[..n] && Within(s[..n], 0, if v > 0 then v - 1 else 0)
    ensures n < |s| ==> s[n] == v
  {
    RemoveTop(s, v);
    hide Remove;
    n := if s != [] && s[|s| - 1] == v then |s| - 1 else |s|;
    assert s[..n] == if n == |s| then s else s[..|s| - 1];
    Prefix(s, n, 0, v);
    forall i | 0 <= i < n ensures s[..n][i] <= if v > 0 then v - 1 else 0 {
      LastIsLargest(s[..n], i);
    }
  }

  /** What stays of an increasing list without v - 1 and v. */
  lemma CutTopTwo(s: seq<nat>, v: nat) returns (n: nat)
    requires Increasing(s) && Within(s, 0, v) && v > 1
    ensures n <= |s| <= n + 2 && Remove(Remove(s, v - 1), v) == s[..n] && Within(s[..n], 0, v - 2)
    ensures n < |s| ==> s[n] >= v - 1
  {
    hide Remove, Increasing, Within;
    RemoveCommutes(s, v - 1, v);
    var m := CutTop(s, v);
    Prefix(s, m, 0, v);
    n := CutTop(s[..m], v - 1);
    assert s[..m][..n] == s[..n];
  }

  /** What is cut off closes up to the rest without a gap of a doubling. */
  lemma GapToTop(d: seq<nat>, v: nat, n: nat)
    requires Gradual(d) && 3 <= |d| <= n + 2 && n <= |d| && 2 * (d[|d| - 1] - 1) >= v
    requires Within(d[..n], 0, if v > 1 then v - 2 else 0) && v > 1
    requires n < |d| ==> d[n] >= v - 1
    ensures d[n - 1] < v - 1 < 2 * d[n - 1]
  {
    assert n < |d| ==> d[n] < 2 * d[n - 1];
    assert d[..n][n - 1] <= v - 2;
  }

  /** The list with v - 1 and v moved to its end. */
  lemma CoverRange(d: seq<nat>, v: nat, low: nat)
    requires Increasing(d) && Gradual(d) && Within(d, low, v) && 2 <= low < v
    requires d == [] ==> low == v - 1
    requires d != [] ==> |d| >= 3 && d[0] == low && 2 * (d[|d| - 1] - 1) >= v
    ensures var s := Remove(Remove(d, v - 1), v) + [v - 1, v];
      && Increasing(s) && Gradual(s) && Within(s, low, v)
      && |s| <= |d| + 2 && s[0] == low && s[|s| - 2] == v - 1 && s[|s| - 1] == v
  {
    assert Within(d, 0, v);
    assert Increasing([v - 1, v]) && Gradual([v - 1, v]) && Within([v - 1, v], low, v);
    hide Remove, Increasing, Gradual, Within;
    var n := CutTopTwo(d, v);
    Prefix(d, n, low, v);
    if d != [] {
      GapToTop(d, v, n);
    }
    Concatenation(d[..n], [v - 1, v], low, v);
  }

  /**
   From the first unsupported identifier to the last there is: strictly
   rising, never by as much as doubling, in at most 50 steps.
   */
  lemma QIDsCoverRange(m: nat)
    requires 2 <= m < MAX_IOQ_ID
    ensures var s := IllegalQIDs(m);
      && Increasing(s) && Gradual(s) && Within(s, m, MAX_IOQ_ID)
      && 2 <= |s| <= 50
      && s[0] == m && s[|s| - 2] == MAX_IOQ_ID - 1 && s[|s| - 1] == MAX_IOQ_ID
  {
    hide Doubling, Remove, Increasing, Gradual, Within;
    DoublingLaws(m + 1, MAX_IOQ_ID);
    assert Power2(15) == 0x8000;
    DoublingLength(m + 1, MAX_IOQ_ID, 15);
    CoverRange(Doubling(m + 1, MAX_IOQ_ID), MAX_IOQ_ID, m);
  }

  /**
   The illegal identifiers rise strictly if and only if the first is at least
   2; the values around 1 and 2 overlap otherwise.
   */
  lemma QIDsIncreaseIff(m: nat)
    requires m < UINT32_SIZE && FirstQID(m) != 0
    ensures Increasing(IllegalQIDs(m)) <==> m >= 2
  {
    hide Doubling;
    if m >= MAX_IOQ_ID {
      DoublingLaws(m + 1, MAX_IOQ_ID);
    } else if m >= 2 {
      QIDsCoverRange(m);
    } else {
      var tail := DoublingOverlaps(m + 1, MAX_IOQ_ID);
      var front := [m, m + 1, m + 2, 2 * m + 1];
      RemoveBehind(front, tail, MAX_IOQ_ID - 1);
      RemoveBehind(front, Remove(tail, MAX_IOQ_ID - 1), MAX_IOQ_ID);
      var s := IllegalQIDs(m);
      assert s[2] == m + 2 && s[3] == 2 * m + 1;
    }
  }

  /**
   The illegal sizes begin with the first one too large, rise strictly and end
   with 0x10000, if and only if the limit is neither 0, nor 0xFFFE, for which
   0xFFFF is left out, nor 0x10000 or more, for which nothing is left, or, when
   the first value wraps to 1, a list that does not rise.
   */
  lemma QSizesCoverRange(m: nat)
    requires m < UINT32_SIZE && FirstQSize(m) != 0
    ensures var s := IllegalQSizes(m);
      (s != [] && Increasing(s) && s[0] == m + 1 && s[|s| - 1] == MAX_Q_ENTRIES)
      <==> 0 < m < MAX_Q_ENTRIES && m != 0xFFFE
  {
    hide Doubling, Remove;
    if m == 0 {
      QSizesOverlap();
    } else if m == UINT32_SIZE - 1 {
      var tail := DoublingOverlaps(1, MAX_Q_ENTRIES);
      assert IllegalQSizes(m)[2] == 2 && IllegalQSizes(m)[3] == 1;
    } else {
      DoublingLaws(m + 2, MAX_Q_ENTRIES);
      QSizesFrom(Doubling(m + 2, MAX_Q_ENTRIES), m + 1);
      RemoveTop([], MAX_Q_ENTRIES);
    }
  }

  lemma QSizesOverlap()
    ensures !Increasing(IllegalQSizes(0))
  {
    hide Doubling, Remove;
    var tail := DoublingOverlaps(2, MAX_Q_ENTRIES);
    RemoveBehind([1, 2, 3, 3], tail, MAX_Q_ENTRIES);
    var s := IllegalQSizes(0);
    assert s == [1, 2, 3, 3] + (Remove(tail, MAX_Q_ENTRIES) + [MAX_Q_ENTRIES]);
    assert s[2] == 3 && s[3] == 3;
  }

  lemma QSizesFrom(d: seq<nat>, low: nat)
    requires Increasing(d) && Within(d, low, MAX_Q_ENTRIES)
    requires d != [] ==> |d| >= 3 && d[0] == low
    ensures var s := Remove(d, MAX_Q_ENTRIES) + [MAX_Q_ENTRIES];
      d != [] ==> Increasing(s) && s[0] == low && s[|s| - 1] == MAX_Q_ENTRIES
  {
    hide Remove;
    var n := CutTop(d, MAX_Q_ENTRIES);
    Prefix(d, n, low, MAX_Q_ENTRIES);
  }

  /** The size 0x10000 is tried exactly once; 0xFFFF never, when 0xFFFE is the limit. */
  lemma QSizesOnce(m: nat)
    requires m < MAX_Q_ENTRIES
    ensures multiset(IllegalQSizes(m))[MAX_Q_ENTRIES] == 1
    ensures m == 0xFFFE ==> IllegalQSizes(m) == [MAX_Q_ENTRIES]
  {
    hide Doubling, Remove;
    RemovedIsGone(Doubling(m + 2, MAX_Q_ENTRIES), MAX_Q_ENTRIES);
    if m == 0xFFFE {
      DoublingLaws(m + 2, MAX_Q_ENTRIES);
      RemoveTop([], MAX_Q_ENTRIES);
    }
  }
}
