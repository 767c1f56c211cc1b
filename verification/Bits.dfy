/**
 Bit fields of a 32 bit word: the shifts and masks of the C++ code, and the
 meaning of every single bit.
 */
module Bits {

  /** The C operators; shifting by s is shifting by one s times. */
  function And(a: bv32, b: bv32): bv32 { a & b }
  function Or(a: bv32, b: bv32): bv32 { a | b }
  function Not(a: bv32): bv32 { !a }
  function Double(a: bv32): bv32 { a << 1 }
  function Half(a: bv32): bv32 { a >> 1 }
  function Shl(a: bv32, s: nat): bv32 decreases s { if s == 0 then a else Shl(Double(a), s - 1) }
  function Shr(a: bv32, s: nat): bv32 decreases s { if s == 0 then a else Shr(Half(a), s - 1) }

  predicate Low(a: bv32) {
    a & 1 == 1
  }

  predicate Bit(a: bv32, k: nat)
    decreases k
  {
    if k == 0 then Low(a) else Bit(Half(a), k - 1)
  }

  /** The n low bits set. */
  function Ones(n: nat): bv32 {
    if n == 0 then 0 else Or(Double(Ones(n - 1)), 1)
  }

  /** The n bits of a from bit s on. */
  function Extract(a: bv32, s: nat, n: nat): bv32 {
    And(Shr(a, s), Ones(n))
  }

  /** a with the n bits from bit s on replaced by the low bits of v. */
  function Insert(a: bv32, v: bv32, s: nat, n: nat): bv32 {
    Or(And(a, Not(Shl(Ones(n), s))), Shl(And(v, Ones(n)), s))
  }

  // ------------------------------------------------- the operators, bit by bit

  lemma AndOnce(a: bv32, b: bv32)
    ensures Half(And(a, b)) == And(Half(a), Half(b)) && Low(And(a, b)) == (Low(a) && Low(b))
  {
  }

  lemma OrOnce(a: bv32, b: bv32)
    ensures Half(Or(a, b)) == Or(Half(a), Half(b)) && Low(Or(a, b)) == (Low(a) || Low(b))
  {
  }

  lemma ConstantsOnce()
    ensures Half(0) == 0 && !Low(0) && Half(1) == 0 && Low(1)
  {
  }

  lemma DoubleOnce(a: bv32)
    ensures !Low(Double(a)) && Half(Double(a)) == And(a, Half(0xFFFF_FFFF))
  {
  }

  lemma SameOnce(a: bv32, b: bv32)
    requires Half(a) == Half(b) && Low(a) == Low(b)
    ensures a == b
  {
  }

  lemma {:induction false} AndBits(a: bv32, b: bv32, k: nat)
    ensures Bit(And(a, b), k) == (Bit(a, k) && Bit(b, k))
    decreases k
  {
    hide And, Half, Low;
    AndOnce(a, b);
    if k > 0 {
      AndBits(Half(a), Half(b), k - 1);
    }
  }

  lemma {:induction false} OrBits(a: bv32, b: bv32, k: nat)
    ensures Bit(Or(a, b), k) == (Bit(a, k) || Bit(b, k))
    decreases k
  {
    hide Or, Half, Low;
    OrOnce(a, b);
    if k > 0 {
      OrBits(Half(a), Half(b), k - 1);
    }
  }

  lemma {:induction false} ShrBits(a: bv32, s: nat, k: nat)
    ensures Bit(Shr(a, s), k) == Bit(a, s + k)
    decreases s
  {
    hide Half, Low;
    if s > 0 {
      ShrBits(Half(a), s - 1, k);
    }
  }

  lemma {:induction false} ShrAdd(a: bv32, s: nat, t: nat)
    ensures Shr(Shr(a, s), t) == Shr(a, s + t)
    decreases s
  {
    hide Half;
    if s > 0 {
      ShrAdd(Half(a), s - 1, t);
    }
  }

  lemma {:induction false} ShlAdd(a: bv32, s: nat, t: nat)
    ensures Shl(Shl(a, s), t) == Shl(a, s + t)
    decreases s
  {
    hide Double;
    if s > 0 {
      ShlAdd(Double(a), s - 1, t);
    }
  }

  lemma ShrByTwo(a: bv32)
    ensures Shr(a, 2) == a >> 2
  {
    assert Shr(Half(a), 1) == Shr(Half(Half(a)), 0);
  }

  lemma ShrByFour(a: bv32)
    ensures Shr(a, 4) == a >> 4
  {
    hide Shr;
    ShrByTwo(a);
    ShrByTwo(a >> 2);
    ShrAdd(a, 2, 2);
  }

  lemma ShrByEight(a: bv32)
    ensures Shr(a, 8) == a >> 8
  {
    hide Shr;
    ShrByFour(a);
    ShrByFour(a >> 4);
    ShrAdd(a, 4, 4);
  }

  lemma ShrBySixteen(a: bv32)
    ensures Shr(a, 16) == a >> 16
  {
    hide Shr;
    ShrByEight(a);
    ShrByEight(a >> 8);
    ShrAdd(a, 8, 8);
  }

  lemma ShrByAll(a: bv32)
    ensures Shr(a, 32) == 0
  {
    hide Shr;
    ShrBySixteen(a);
    ShrBySixteen(a >> 16);
    ShrAdd(a, 16, 16);
  }

  lemma {:induction false} ZeroBits(k: nat)
    ensures !Bit(0, k)
  {
    ConstantsOnce();
    hide Half, Low;
    if k > 0 {
      ZeroBits(k - 1);
    }
  }

  lemma {:induction false} OneBits(k: nat)
    ensures Bit(1, k) == (k == 0)
  {
    ConstantsOnce();
    hide Half, Low;
    if k > 0 {
      ZeroBits(k - 1);
    }
  }

  /** All 32 bits of the largest word are set: by halving the word five times. */
  lemma FullBits(k: nat)
    requires k < 32
    ensures Bit(0xFFFF_FFFF, k)
  {
    ShrBySixteen(0xFFFF_FFFF);
    ShrByEight(0xFFFF);
    ShrByFour(0xFF);
    ShrByTwo(0xF);
    HalfIsFull(0xFFFF_FFFF, 0xFFFF, 16, k);
    HalfIsFull(0xFFFF, 0xFF, 8, k % 16);
    HalfIsFull(0xFF, 0xF, 4, k % 16 % 8);
    HalfIsFull(0xF, 3, 2, k % 16 % 8 % 4);
    assert Bit(3, 0) && Bit(Half(3), 0);
  }

  lemma HalfIsFull(wide: bv32, narrow: bv32, n: nat, k: nat)
    requires n in {2, 4, 8, 16} && k < 2 * n && And(wide, narrow) == narrow && Shr(wide, n) == narrow
    ensures Bit(narrow, k % n) ==> Bit(wide, k)
  {
    hide And, Shr, Bit;
    if k < n {
      AndBits(wide, narrow, k);
    } else {
      ShrBits(wide, n, k - n);
    }
  }

  lemma NotBits(a: bv32, k: nat)
    requires k < 32
    ensures Bit(Not(a), k) == !Bit(a, k)
  {
    hide Bit;
    AndBits(a, Not(a), k);
    OrBits(a, Not(a), k);
    assert And(a, Not(a)) == 0 && Or(a, Not(a)) == 0xFFFF_FFFF;
    ZeroBits(k);
    FullBits(k);
  }

  lemma DoubleBits(a: bv32, k: nat)
    requires k < 32
    ensures Bit(Double(a), k) == (k > 0 && Bit(a, k - 1))
  {
    hide Double, Half, Low, And;
    DoubleOnce(a);
    if k > 0 {
      AndBits(a, Half(0xFFFF_FFFF), k - 1);
      FullBits(k);
    }
  }

  lemma {:induction false} ShlBits(a: bv32, s: nat, k: nat)
    requires k < 32
    ensures Bit(Shl(a, s), k) == (s <= k && Bit(a, k - s))
    decreases s
  {
    hide Double, Bit;
    if s > 0 {
      ShlBits(Double(a), s - 1, k);
      if s - 1 <= k {
        DoubleBits(a, k - (s - 1));
      }
    }
  }

  lemma {:induction false} OnesBits(n: nat, k: nat)
    requires k < 32
    ensures Bit(Ones(n), k) == (k < n)
  {
    hide Double, Or, Bit;
    if n == 0 {
      ZeroBits(k);
    } else {
      OrBits(Double(Ones(n - 1)), 1, k);
      DoubleBits(Ones(n - 1), k);
      OneBits(k);
      if k > 0 {
        OnesBits(n - 1, k - 1);
      }
    }
  }

  /** The mask loop adds one bit at a time. */
  lemma OnesGrow(i: nat)
    requires i < 32
    ensures Or(Ones(i), Shl(1, i)) == Ones(i + 1)
  {
    hide Ones, Shl, Or, Bit;
    var grown := Or(Ones(i), Shl(1, i));
    forall k | 0 <= k < 32 ensures Bit(grown, k) == Bit(Ones(i + 1), k) {
      OrBits(Ones(i), Shl(1, i), k);
      OnesBits(i, k);
      OnesBits(i + 1, k);
      ShlBits(1, i, k);
      if k >= i {
        OneBits(k - i);
      }
    }
    SameBits(grown, Ones(i + 1));
  }

  // ------------------------------------------------------------ extensionality

  lemma {:induction false} SameFrom(a: bv32, b: bv32, n: nat)
    requires Shr(a, n) == Shr(b, n) && forall k | 0 <= k < n :: Bit(a, k) == Bit(b, k)
    ensures a == b
    decreases n
  {
    hide Half, Low;
    if n > 0 {
      forall k | 0 <= k < n - 1 ensures Bit(Half(a), k) == Bit(Half(b), k) {
        assert Bit(a, k + 1) == Bit(b, k + 1);
      }
      SameFrom(Half(a), Half(b), n - 1);
      assert Bit(a, 0) == Bit(b, 0);
      SameOnce(a, b);
    }
  }

  /** Words with the same bits are the same. */
  lemma SameBits(a: bv32, b: bv32)
    requires forall k | 0 <= k < 32 :: Bit(a, k) == Bit(b, k)
    ensures a == b
  {
    hide Bit, Shr;
    ShrByAll(a);
    ShrByAll(b);
    SameFrom(a, b, 32);
  }

  // -------------------------------------------------------------------- fields

  lemma ExtractBits(a: bv32, s: nat, n: nat, k: nat)
    requires k < 32
    ensures Bit(Extract(a, s, n), k) == (k < n && Bit(a, s + k))
  {
    hide And, Shr, Ones, Bit;
    AndBits(Shr(a, s), Ones(n), k);
    ShrBits(a, s, k);
    OnesBits(n, k);
  }

  /** Exactly the bits of the field are replaced, by those of v. */
  lemma InsertBits(a: bv32, v: bv32, s: nat, n: nat, k: nat)
    requires k < 32
    ensures Bit(Insert(a, v, s, n), k) == if s <= k < s + n then Bit(v, k - s) else Bit(a, k)
  {
    hide Shl, And, Or, Not, Ones, Bit;
    var mask := Shl(Ones(n), s);
    var value := Shl(And(v, Ones(n)), s);
    OrBits(And(a, Not(mask)), value, k);
    AndBits(a, Not(mask), k);
    NotBits(mask, k);
    ShlBits(Ones(n), s, k);
    ShlBits(And(v, Ones(n)), s, k);
    if s <= k {
      OnesBits(n, k - s);
      AndBits(v, Ones(n), k - s);
    }
  }

  /** A field reads back as what was inserted, cut to its width. */
  lemma ExtractOfInsert(a: bv32, v: bv32, s: nat, n: nat)
    requires s + n <= 32
    ensures Extract(Insert(a, v, s, n), s, n) == And(v, Ones(n))
  {
    hide And, Ones, Bit, Insert, Extract;
    var back := Extract(Insert(a, v, s, n), s, n);
    forall k | 0 <= k < 32 ensures Bit(back, k) == Bit(And(v, Ones(n)), k) {
      ExtractBits(Insert(a, v, s, n), s, n, k);
      AndBits(v, Ones(n), k);
      OnesBits(n, k);
      if k < n {
        InsertBits(a, v, s, n, s + k);
      }
    }
    SameBits(back, And(v, Ones(n)));
  }

  /** A disjoint field is not touched. */
  lemma ExtractFrame(a: bv32, v: bv32, s: nat, n: nat, t: nat, m: nat)
    requires s + n <= 32 && t + m <= 32 && (s + n <= t || t + m <= s)
    ensures Extract(Insert(a, v, s, n), t, m) == Extract(a, t, m)
  {
    hide Bit, Insert, Extract;
    var after := Extract(Insert(a, v, s, n), t, m);
    forall k | 0 <= k < 32 ensures Bit(after, k) == Bit(Extract(a, t, m), k) {
      ExtractBits(Insert(a, v, s, n), t, m, k);
      ExtractBits(a, t, m, k);
      if k < m {
        InsertBits(a, v, s, n, t + k);
      }
    }
    SameBits(after, Extract(a, t, m));
  }

  /** Changing a field of a view and writing the view back changes that field of the word. */
  lemma NestedInsert(a: bv32, v: bv32, t: nat, m: nat, s: nat, n: nat)
    requires t + m <= 32 && s + n <= m
    ensures Insert(a, Insert(Extract(a, t, m), v, s, n), t, m) == Insert(a, v, t + s, n)
  {
    hide Bit, Insert, Extract;
    var view := Extract(a, t, m);
    var nested := Insert(a, Insert(view, v, s, n), t, m);
    forall k | 0 <= k < 32 ensures Bit(nested, k) == Bit(Insert(a, v, t + s, n), k) {
      InsertBits(a, Insert(view, v, s, n), t, m, k);
      InsertBits(a, v, t + s, n, k);
      if t <= k < t + m {
        InsertBits(view, v, s, n, k - t);
        ExtractBits(a, t, m, k - t);
      }
    }
    SameBits(nested, Insert(a, v, t + s, n));
  }

  /** A field of a field is a field of the word. */
  lemma ExtractOfExtract(a: bv32, s: nat, wide: nat, t: nat, m: nat)
    requires s + wide <= 32 && t + m <= wide
    ensures Extract(Extract(a, s, wide), t, m) == Extract(a, s + t, m)
  {
    hide Bit, Extract;
    var inner := Extract(Extract(a, s, wide), t, m);
    var narrow := Extract(a, s + t, m);
    forall k | 0 <= k < 32 ensures Bit(inner, k) == Bit(narrow, k) {
      ExtractBits(Extract(a, s, wide), t, m, k);
      ExtractBits(a, s + t, m, k);
      if k < m {
        ExtractBits(a, s, wide, t + k);
      }
    }
    SameBits(inner, narrow);
  }

  lemma WholeWord(a: bv32, v: bv32)
    ensures Insert(a, v, 0, 32) == v && Extract(a, 0, 32) == a
  {
    hide Bit, Insert, Extract;
    forall k | 0 <= k < 32
      ensures Bit(Insert(a, v, 0, 32), k) == Bit(v, k) && Bit(Extract(a, 0, 32), k) == Bit(a, k)
    {
      InsertBits(a, v, 0, 32, k);
      ExtractBits(a, 0, 32, k);
    }
    SameBits(Insert(a, v, 0, 32), v);
    SameBits(Extract(a, 0, 32), a);
  }

  // ------------------------------------------------------------ 64 bit values

  function HalfWide(a: bv64): bv64 { a >> 1 }
  function ShrWide(a: bv64, s: nat): bv64 decreases s { if s == 0 then a else ShrWide(HalfWide(a), s - 1) }

  predicate LowWide(a: bv64) {
    a & 1 == 1
  }

  predicate BitWide(a: bv64, k: nat)
    decreases k
  {
    if k == 0 then LowWide(a) else BitWide(HalfWide(a), k - 1)
  }

  lemma CutOnce(a: bv64, w: bv32, m: bv32)
    requires w as bv64 == a & (m as bv64)
    ensures Half(w) as bv64 == HalfWide(a) & (Half(m) as bv64)
    ensures Low(m) ==> Low(w) == LowWide(a)
  {
  }

  /** A word cut out of a by mask m has a's bits wherever the mask is set. */
  lemma {:induction false} CutBits(a: bv64, w: bv32, m: bv32, k: nat)
    requires w as bv64 == a & (m as bv64) && Bit(m, k)
    ensures Bit(w, k) == BitWide(a, k)
    decreases k
  {
    CutOnce(a, w, m);
    hide Half, Low, HalfWide, LowWide;
    if k > 0 {
      CutBits(HalfWide(a), Half(w), Half(m), k - 1);
    }
  }

  lemma {:induction false} ShrWideBits(a: bv64, s: nat, k: nat)
    ensures BitWide(ShrWide(a, s), k) == BitWide(a, s + k)
    decreases s
  {
    hide HalfWide, LowWide;
    if s > 0 {
      ShrWideBits(HalfWide(a), s - 1, k);
    }
  }

  lemma {:induction false} ShrWideAdd(a: bv64, s: nat, t: nat)
    ensures ShrWide(ShrWide(a, s), t) == ShrWide(a, s + t)
    decreases s
  {
    hide HalfWide;
    if s > 0 {
      ShrWideAdd(HalfWide(a), s - 1, t);
    }
  }

  lemma ShrWideByFour(a: bv64)
    ensures ShrWide(a, 4) == a >> 4
  {
    var b := HalfWide(HalfWide(a));
    assert ShrWide(a, 4) == ShrWide(b, 2) == HalfWide(HalfWide(b)) by {
      hide HalfWide;
      assert ShrWide(a, 4) == ShrWide(HalfWide(a), 3) == ShrWide(b, 2);
      assert ShrWide(b, 2) == ShrWide(HalfWide(b), 1) == ShrWide(HalfWide(HalfWide(b)), 0);
    }
  }

  lemma ShrWideByEight(a: bv64)
    ensures ShrWide(a, 8) == a >> 8
  {
    hide ShrWide;
    ShrWideByFour(a);
    ShrWideByFour(a >> 4);
    ShrWideAdd(a, 4, 4);
  }

  lemma ShrWideBySixteen(a: bv64)
    ensures ShrWide(a, 16) == a >> 16
  {
    hide ShrWide;
    ShrWideByEight(a);
    ShrWideByEight(a >> 8);
    ShrWideAdd(a, 8, 8);
  }

  lemma ShrWideByHalf(a: bv64)
    ensures ShrWide(a, 32) == a >> 32
  {
    hide ShrWide;
    ShrWideBySixteen(a);
    ShrWideBySixteen(a >> 16);
    ShrWideAdd(a, 16, 16);
  }

  lemma HalvesAreCut(a: bv64)
    ensures ((a & 0xFFFF_FFFF) as bv32) as bv64 == a & (0xFFFF_FFFF as bv32 as bv64)
    ensures ((a >> 32) as bv32) as bv64 == (a >> 32) & (0xFFFF_FFFF as bv32 as bv64)
  {
  }

  /** The two halves of a 64 bit value hold its bits. */
  lemma HalvesHoldBits(a: bv64, k: nat)
    requires k < 32
    ensures Bit((a & 0xFFFF_FFFF) as bv32, k) == BitWide(a, k)
    ensures Bit((a >> 32) as bv32, k) == BitWide(a, 32 + k)
  {
    hide Bit, BitWide, ShrWide;
    FullBits(k);
    HalvesAreCut(a);
    CutBits(a, (a & 0xFFFF_FFFF) as bv32, 0xFFFF_FFFF, k);
    CutBits(a >> 32, (a >> 32) as bv32, 0xFFFF_FFFF, k);
    ShrWideByHalf(a);
    ShrWideBits(a, 32, k);
  }
}
