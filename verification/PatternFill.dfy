/**
 MetaData::SetMetaDataPattern: filling a segment of a byte buffer with a
 constant or incrementing little-endian pattern.
 */
module PatternFill {

  type byte = b: nat | b < 256

  const UINT32_MAX: nat := 0xFFFF_FFFF
  const UINT32_SIZE: nat := 0x1_0000_0000
  const UINT64_SIZE: nat := 0x1_0000_0000_0000_0000

  datatype DataPattern =
    | CONST_8BIT | CONST_16BIT | CONST_32BIT
    | INC_8BIT | INC_16BIT | INC_32BIT

  function Width(p: DataPattern): (w: nat)
    ensures w in {1, 2, 4}
  {
    match p
    case CONST_8BIT => 1
    case INC_8BIT => 1
    case CONST_16BIT => 2
    case INC_16BIT => 2
    case CONST_32BIT => 4
    case INC_32BIT => 4
  }

  predicate Increments(p: DataPattern) {
    p.INC_8BIT? || p.INC_16BIT? || p.INC_32BIT?
  }

  /** 256 to the power j, for the offsets inside an element. */
  function Weight(j: nat): (n: nat)
    requires j <= 4
    ensures n > 0
  {
    match j case 0 => 1 case 1 => 0x100 case 2 => 0x1_0000 case 3 => 0x100_0000 case 4 => 0x1_0000_0000
  }

  /** Byte j of a value stored little end first. */
  function ByteOf(value: nat, j: nat): byte
    requires j < 4
  {
    value / Weight(j) % 256
  }

  /** Byte b of the segment. */
  function PatternByte(p: DataPattern, initVal: nat, b: nat): byte {
    ByteOf(initVal + (if Increments(p) then b / Width(p) else 0), b % Width(p))
  }

  /** Byte k of the buffer with count elements of the pattern written from offset on. */
  function FilledByte(was: seq<byte>, p: DataPattern, initVal: nat, offset: nat, count: nat, k: nat): byte
    requires k < |was|
  {
    if offset <= k < offset + count * Width(p) then PatternByte(p, initVal, k - offset) else was[k]
  }

  /** The whole buffer. */
  function Filled(was: seq<byte>, p: DataPattern, initVal: nat, offset: nat, count: nat): (s: seq<byte>)
    ensures |s| == |was|
  {
    seq(|was|, (k: nat) requires k < |was| => FilledByte(was, p, initVal, offset, count, k))
  }

  lemma DivideUnique(v: nat, d: nat, q: nat, r: nat)
    requires d > 0 && v == d * q + r && r < d
    ensures v / d == q && v % d == r
  {
    var q' := v / d;
    MultiplyMonotone(d, q' + 1, q);
    MultiplyMonotone(d, q + 1, q');
  }

  lemma MultiplyMonotone(d: nat, a: nat, b: nat)
    ensures a <= b ==> d * a <= d * b
    ensures d * (a + 1) == d * a + d
  {
    assert a <= b ==> d * (b - a) >= 0;
  }

  /** Dividing by low can be done on the two parts that low * high makes of a value. */
  lemma DivideInParts(v: nat, low: nat, high: nat)
    requires low > 0 && high > 0
    ensures low * high > 0
    ensures v / low == v / (low * high) * high + v % (low * high) / low
  {
    assert low * high > 0;
    var q, r := v / (low * high), v % (low * high);
    var x, y := r / low, r % low;
    assert v == low * high * q + r;
    assert low * high * q + low * x + y == low * (q * high + x) + y;
    DivideUnique(v, low, q * high + x, y);
  }

  lemma ModAdd(x: nat, q: nat, high: nat)
    requires high % 256 == 0
    ensures (q * high + x) % 256 == x % 256
  {
    var h := high / 256;
    assert q * high == 256 * (q * h);
    DivideUnique(q * high + x, 256, q * h + x / 256, x % 256);
  }

  /** Cutting a value off above a byte does not change the byte. */
  lemma CutKeepsByte(v: nat, low: nat, high: nat)
    requires low > 0 && high > 0 && high % 256 == 0
    ensures low * high > 0
    ensures v % (low * high) / low % 256 == v / low % 256
  {
    DivideInParts(v, low, high);
    ModAdd(v % (low * high) / low, v / (low * high), high);
  }

  /** Casting to the element's width does not change the bytes stored. */
  lemma CastKeepsBytes(value: nat, w: nat, j: nat)
    requires w in {1, 2, 4} && j < w
    ensures ByteOf(value % Weight(w), j) == ByteOf(value, j)
  {
    CutKeepsByte(value, Weight(j), Weight(w - j));
  }

  /** Nor does the wrap-around of the 64 bit counter. */
  lemma CounterKeepsBytes(value: nat, j: nat)
    requires j < 4
    ensures ByteOf(value % UINT64_SIZE, j) == ByteOf(value, j)
  {
    CutKeepsByte(value, Weight(j), Weight(4 - j) * 0x1_0000_0000);
  }

  // ------------------------------------------------------------ the segment

  /** A length of UINT32_MAX stands for the buffer's size. */
  function Effective(length: nat, size: nat): nat {
    if length == UINT32_MAX then size else length
  }

  /** The check that the code makes, in 32 bit arithmetic. */
  predicate Accepts(offset: nat, length: nat, size: nat) {
    (Effective(length, size) + offset) % UINT32_SIZE <= size
  }

  /** The elements of the segment reach beyond the buffer. */
  predicate Overruns(p: DataPattern, offset: nat, length: nat, size: nat) {
    var count := Effective(length, size) / Width(p);
    count > 0 && offset + count * Width(p) > size
  }

  /**
   A segment that fits is accepted and stays inside.  One that does not fit is
   accepted if and only if the sum of offset and length wraps around to a value
   within the size; a length of 0xFFFFFFFF means the whole size.
   */
  lemma AcceptsIff(p: DataPattern, offset: nat, length: nat, size: nat)
    requires offset <= UINT32_MAX && length <= UINT32_MAX && size <= UINT32_MAX
    ensures var n := if length == 0xFFFF_FFFF then size else length;
      && (offset + n <= size ==> Accepts(offset, length, size) && !Overruns(p, offset, length, size))
      && (offset + n > size ==>
            (Accepts(offset, length, size) <==>
              offset + n >= 0x1_0000_0000 && offset + n - 0x1_0000_0000 <= size))
  {
    var sum := offset + Effective(length, size);
    DivideUnique(sum, UINT32_SIZE, if sum < UINT32_SIZE then 0 else 1,
                 if sum < UINT32_SIZE then sum else sum - UINT32_SIZE);
  }

  /** Which accepted segments overrun the buffer: those with an element that ends behind it. */
  lemma OverrunsIff(p: DataPattern, offset: nat, length: nat, size: nat)
    ensures var n := if length == 0xFFFF_FFFF then size else length;
      Overruns(p, offset, length, size) <==> match p
        case CONST_8BIT => n >= 1 && offset + n > size
        case INC_8BIT => n >= 1 && offset + n > size
        case CONST_16BIT => n >= 2 && offset + n - n % 2 > size
        case INC_16BIT => n >= 2 && offset + n - n % 2 > size
        case CONST_32BIT => n >= 4 && offset + n - n % 4 > size
        case INC_32BIT => n >= 4 && offset + n - n % 4 > size
  {
    var n := Effective(length, size);
    assert n / 1 * 1 == n && n / 2 * 2 == n - n % 2 && n / 4 * 4 == n - n % 4;
  }

  /** One byte at the largest offset is accepted for a buffer of any size, and is not in it. */
  lemma LargestOffsetOverruns(size: nat)
    requires size <= UINT32_MAX
    ensures Accepts(UINT32_MAX, 1, size) && Overruns(CONST_8BIT, UINT32_MAX, 1, size)
  {
  }

  // --------------------------------------------------------------- the class

  /** How a call ends: normally, with an exception, or behind the end of the buffer. */
  datatype Outcome = Done | Refused | Overrun

  class MetaData {
    var buf: array?<byte>

    constructor (size: nat)
      ensures buf != null && fresh(buf) && buf.Length == size
    {
      buf := new byte[size](_ => 0);
    }

    /** One store of an element of w bytes. */
    method StoreElement(at: nat, value: nat, w: nat)
      requires buf != null && w in {1, 2, 4} && at + w <= buf.Length
      modifies buf
      ensures forall k | 0 <= k < buf.Length ::
        buf[k] == if at <= k < at + w then ByteOf(value, k - at) else old(buf[k])
    {
      var element := value % Weight(w);
      for j := 0 to w
        invariant forall k | 0 <= k < buf.Length ::
          buf[k] == if at <= k < at + j then ByteOf(value, k - at) else old(buf[k])
      {
        CastKeepsBytes(value, w, j);
        buf[at + j] := ByteOf(element, j);
      }
    }

    /** The loop shared by the six cases. */
    method FillElements(p: DataPattern, initVal: nat, offset: nat, count: nat)
      requires buf != null && initVal < UINT64_SIZE
      requires count > 0 ==> offset + count * Width(p) <= buf.Length
      modifies buf
      ensures buf[..] == Filled(old(buf[..]), p, initVal, offset, count)
    {
      hide Width, Filled, ByteOf;
      var w := Width(p);
      var value := initVal;
      NothingFilled(buf[..], p, initVal, offset);
      var rawPtr := offset;
      for i := 0 to count
        invariant rawPtr == offset + i * w && offset + i * w <= offset + count * w
        invariant value == if Increments(p) then (initVal + i) % UINT64_SIZE else initVal
        invariant buf[..] == Filled(old(buf[..]), p, initVal, offset, i)
      {
        ghost var before := buf[..];
        assert (i + 1) * w <= count * w;
        StoreElement(rawPtr, value, w);
        FilledGrows(old(buf[..]), p, initVal, offset, i, value, before, buf[..]);
        assert buf[..] == Filled(old(buf[..]), p, initVal, offset, i + 1);
        rawPtr := rawPtr + w;
        if Increments(p) {
          value := (value + 1) % UINT64_SIZE;
        }
      }
    }

    /**
     Fill the segment, or refuse it.  On an accepted segment that overruns the
     buffer the code writes to memory that is not the buffer's; nothing is said
     about the state then.
     */
    method SetMetaDataPattern(dataPat: DataPattern, initVal: nat, offset: nat, length: nat) returns (end: Outcome)
      requires initVal < UINT64_SIZE && offset <= UINT32_MAX && length <= UINT32_MAX
      requires buf != null ==> buf.Length <= UINT32_MAX
      modifies buf
      ensures end == Refused <==> buf != null && !Accepts(offset, length, buf.Length)
      ensures end == Overrun <==>
        buf != null && Accepts(offset, length, buf.Length) && Overruns(dataPat, offset, length, buf.Length)
      ensures end == Done && buf != null ==>
        buf[..] == Filled(old(buf[..]), dataPat, initVal, offset, Effective(length, buf.Length) / Width(dataPat))
      ensures end == Refused ==> buf[..] == old(buf[..])
    {
      if buf == null {
        return Done;
      }
      var size := if length == UINT32_MAX then buf.Length else length;
      if (size + offset) % UINT32_SIZE > buf.Length {
        return Refused;
      }
      var count := size / Width(dataPat);
      if count > 0 && offset + count * Width(dataPat) > buf.Length {
        return Overrun;
      }
      FillElements(dataPat, initVal, offset, count);
      return Done;
    }
  }

  lemma NothingFilled(was: seq<byte>, p: DataPattern, initVal: nat, offset: nat)
    ensures Filled(was, p, initVal, offset, 0) == was
  {
  }

  lemma BytePosition(w: nat, i: nat, b: nat)
    requires w in {1, 2, 4} && i * w <= b < i * w + w
    ensures b / w == i && b % w == b - i * w
  {
  }

  /** One more element extends the filled part by its bytes. */
  lemma FilledGrows(was: seq<byte>, p: DataPattern, initVal: nat, offset: nat, i: nat, value: nat,
      before: seq<byte>, after: seq<byte>)
    requires offset + (i + 1) * Width(p) <= |was|
    requires value == if Increments(p) then (initVal + i) % UINT64_SIZE else initVal
    requires before == Filled(was, p, initVal, offset, i) && |after| == |before|
    requires var at := offset + i * Width(p);
      forall k | 0 <= k < |after| ::
        after[k] == if at <= k < at + Width(p) then ByteOf(value, k - at) else before[k]
    ensures after == Filled(was, p, initVal, offset, i + 1)
  {
    var w := Width(p);
    var full := Filled(was, p, initVal, offset, i + 1);
    assert (i + 1) * w == i * w + w;
    forall k | 0 <= k < |after| ensures after[k] == full[k] {
      if offset + i * w <= k < offset + i * w + w {
        BytePosition(w, i, k - offset);
        CounterKeepsBytes(initVal + i, k - offset - i * w);
      }
    }
  }

  /**
   What the filled buffer holds: in the elements written, byte b is byte b % w
   of the initial value, or of the initial value plus b / w, modulo 2^(8w); all
   other bytes are as they were.
   */
  lemma FilledBytes(was: seq<byte>, p: DataPattern, initVal: nat, offset: nat, length: nat, k: nat)
    requires k < |was|
    ensures var w := Width(p);
      var count := length / w;
      Filled(was, p, initVal, offset, count)[k] ==
         if offset <= k < offset + count * w then
           var b := k - offset;
           var element := (if Increments(p) then initVal + b / w else initVal) % Weight(w);
           element / Weight(b % w) % 256
         else was[k]
  {
    var w := Width(p);
    if offset <= k < offset + length / w * w {
      var b := k - offset;
      CastKeepsBytes(if Increments(p) then initVal + b / w else initVal, w, b % w);
    }
  }

  /** Byte j of a value in base 256. */
  function Digit256(value: nat, j: nat): nat {
    if j == 0 then value % 256 else Digit256(value / 256, j - 1)
  }

  lemma ByteIsDigit(value: nat, j: nat)
    requires j < 4
    ensures ByteOf(value, j) == Digit256(value, j)
  {
    DivideTwice(value, 0x100);
    DivideTwice(value, 0x1_0000);
    if j > 1 {
      assert Digit256(value, j) == Digit256(value / 256, j - 1) == Digit256(value / 256 / 256, j - 2);
    }
  }

  /** Dividing by 256 and the rest at once or one after the other. */
  lemma DivideTwice(v: nat, d: nat)
    requires d == 0x100 || d == 0x1_0000
    ensures v / (d * 0x100) == v / d / 0x100
  {
    var x := v / d;
    var r, s := v % d, x % 0x100;
    assert v == d * x + r && x == 0x100 * (x / 0x100) + s;
    DivideUnique(v, d * 0x100, x / 0x100, d * s + r);
  }

  /**
   The buffer after each of the six patterns, byte by byte: whole elements of
   1, 2 or 4 bytes, little end first, each holding the initial value or, for
   the INC patterns, that plus the element's number.
   */
  lemma PatternBytes(was: seq<byte>, p: DataPattern, initVal: nat, offset: nat, length: nat, k: nat)
    requires k < |was|
    ensures var n := if length == 0xFFFF_FFFF then |was| else length;
      var b := k - offset;
      var r := Filled(was, p, initVal, offset, Effective(length, |was|) / Width(p))[k];
      match p
      case CONST_8BIT => r == if 0 <= b < n then Digit256(initVal, 0) else was[k]
      case INC_8BIT => r == if 0 <= b < n then Digit256(initVal + b, 0) else was[k]
      case CONST_16BIT => r == if 0 <= b < n - n % 2 then Digit256(initVal, b % 2) else was[k]
      case INC_16BIT => r == if 0 <= b < n - n % 2 then Digit256(initVal + b / 2, b % 2) else was[k]
      case CONST_32BIT => r == if 0 <= b < n - n % 4 then Digit256(initVal, b % 4) else was[k]
      case INC_32BIT => r == if 0 <= b < n - n % 4 then Digit256(initVal + b / 4, b % 4) else was[k]
  {
    hide ByteOf, Digit256;
    var n := Effective(length, |was|);
    assert n / 1 * 1 == n && n / 2 * 2 == n - n % 2 && n / 4 * 4 == n - n % 4;
    if offset <= k {
      var b := k - offset;
      var w := Width(p);
      ByteIsDigit(if Increments(p) then initVal + b / w else initVal, b % w);
    }
  }
}
