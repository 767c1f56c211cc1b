/**
 Class Cmd: a submission queue entry as an array of dwords, with views of 1, 4,
 8, 16 and 32 bits, or any other width up to 32.
 */
module CmdBuffer {
  import opened Wrappers
  import opened Bits

  /** What an entry's dwords hold. */
  type Dwords = seq<bv32>

  /** The offsets that the code accepts for a width. */
  predicate LegalOffset(dwOffset: nat, numBits: nat) {
    numBits > 0 && dwOffset <= 32 / numBits - 1
  }

  /** The field at a legal offset lies inside the dword. */
  lemma LegalFieldFits(dwOffset: nat, numBits: nat)
    requires LegalOffset(dwOffset, numBits)
    ensures numBits <= 32 && dwOffset * numBits + numBits <= 32
  {
    assert (dwOffset + 1) * numBits <= 32 / numBits * numBits <= 32;
  }

  /** What a read of numBits bits returns; None where the code throws. */
  function View(d: Dwords, whichDW: nat, dwOffset: nat, numBits: nat): Option<bv32> {
    if whichDW >= |d| % 256 || !LegalOffset(dwOffset, numBits) then None
    else Some(Extract(d[whichDW], dwOffset * numBits, numBits))
  }

  /** The dwords after a write of numBits bits. */
  function Written(d: Dwords, newVal: bv32, whichDW: nat, dwOffset: nat, numBits: nat): Dwords {
    if whichDW >= |d| % 256 || !LegalOffset(dwOffset, numBits) then d
    else d[whichDW := Insert(d[whichDW], newVal, dwOffset * numBits, numBits)]
  }

  class Cmd {
    const mCmdBuf: array<bv32>

    /** The buffer comes zeroed, with the opcode in its lowest byte. */
    constructor (opcode: bv32, cmdSizeDW: nat)
      requires opcode < 256 && 0 < cmdSizeDW < 256
      ensures fresh(mCmdBuf) && mCmdBuf.Length == cmdSizeDW
      ensures mCmdBuf[..] == seq(cmdSizeDW, _ => 0)[0 := opcode]
    {
      mCmdBuf := new bv32[cmdSizeDW](_ => 0);
      new;
      mCmdBuf[0] := opcode;
    }

    /** The number of dwords, in the uint8_t it is returned in. */
    function GetCmdSizeDW(): nat {
      mCmdBuf.Length % 256
    }

    method GetDword(whichDW: nat) returns (dw: Option<bv32>)
      ensures dw == if whichDW < mCmdBuf.Length % 256 then Some(mCmdBuf[whichDW]) else None
    {
      if whichDW >= GetCmdSizeDW() {
        return None;
      }
      return Some(mCmdBuf[whichDW]);
    }

    method SetDword(newVal: bv32, whichDW: nat) returns (ok: bool)
      modifies mCmdBuf
      ensures ok == (whichDW < mCmdBuf.Length % 256)
      ensures mCmdBuf[..] == if ok then old(mCmdBuf[..])[whichDW := newVal] else old(mCmdBuf[..])
    {
      if whichDW >= GetCmdSizeDW() {
        return false;
      }
      mCmdBuf[whichDW] := newVal;
      return true;
    }

    /** The loop that sets the numBits low bits of a mask. */
    static method MaskOf(numBits: nat) returns (mask: bv32)
      requires numBits <= 32
      ensures mask == Ones(numBits)
    {
      hide Or, Shl;
      mask := 0;
      for i := 0 to numBits
        invariant mask == Ones(i)
      {
        OnesGrow(i);
        mask := Or(mask, Shl(1, i));
      }
    }

    method SetBits(newVal: bv32, whichDW: nat, dwOffset: nat, numBits: nat) returns (ok: bool)
      requires numBits > 0
      modifies mCmdBuf
      ensures ok == (whichDW < mCmdBuf.Length % 256 && LegalOffset(dwOffset, numBits))
      ensures mCmdBuf[..] == Written(old(mCmdBuf[..]), newVal, whichDW, dwOffset, numBits)
    {
      hide And, Or, Not, Shl, Ones;
      if whichDW >= GetCmdSizeDW() {
        return false;
      } else if dwOffset > 32 / numBits - 1 {
        return false;
      }
      LegalFieldFits(dwOffset, numBits);
      var dw := mCmdBuf[whichDW];
      var mask := MaskOf(numBits);
      dw := And(dw, Not(Shl(mask, dwOffset * numBits)));
      dw := Or(dw, Shl(And(newVal, mask), dwOffset * numBits));
      mCmdBuf[whichDW] := dw;
      return true;
    }

    method GetBits(whichDW: nat, dwOffset: nat, numBits: nat) returns (bits: Option<bv32>)
      requires numBits > 0
      ensures bits == View(mCmdBuf[..], whichDW, dwOffset, numBits)
    {
      hide And, Shr, Ones;
      if whichDW >= GetCmdSizeDW() {
        return None;
      } else if dwOffset > 32 / numBits - 1 {
        return None;
      }
      LegalFieldFits(dwOffset, numBits);
      var mask := MaskOf(numBits);
      return Some(And(Shr(mCmdBuf[whichDW], dwOffset * numBits), mask));
    }
  }

  /**
   The views agree with each other: after a write of n bits, bit k of a read of
   m bits at any offset of any dword is the bit written there if the write
   covers it, and the old bit otherwise.
   */
  lemma ViewsAreCoherent(d: Dwords, v: bv32, i: nat, o: nat, n: nat, j: nat, p: nat, m: nat, k: nat)
    requires i < |d| % 256 && LegalOffset(o, n) && j < |d| % 256 && LegalOffset(p, m) && k < m
    ensures var q := p * m + k;
      && View(Written(d, v, i, o, n), j, p, m).Some?
      && Bit(View(Written(d, v, i, o, n), j, p, m).value, k)
      == if i == j && o * n <= q < o * n + n then Bit(v, q - o * n) else Bit(d[j], q)
  {
    hide Bit, Insert, Extract;
    LegalFieldFits(o, n);
    LegalFieldFits(p, m);
    var s, t := o * n, p * m;
    ExtractBits(Written(d, v, i, o, n)[j], t, m, k);
    InsertBits(d[i], v, s, n, t + k);
  }

  /** Reading back at the same place gives the value modulo 2^n. */
  lemma ReadsBackWritten(d: Dwords, v: bv32, i: nat, o: nat, n: nat)
    requires i < |d| % 256 && LegalOffset(o, n)
    ensures View(Written(d, v, i, o, n), i, o, n) == Some(And(v, Ones(n)))
  {
    hide Insert, Extract, And, Ones;
    LegalFieldFits(o, n);
    ExtractOfInsert(d[i], v, o * n, n);
  }

  /**
   Reads and writes are refused, and change nothing, exactly when the dword or
   a part of the field lies outside: the offset counts in fields of n bits, and
   the number of dwords is kept in 8 bits.
   */
  lemma RefusedIff(d: Dwords, v: bv32, i: nat, o: nat, n: nat)
    requires n > 0
    ensures View(d, i, o, n) == None <==> i >= |d| % 256 || o * n + n > 32
    ensures i >= |d| % 256 || o * n + n > 32 ==> Written(d, v, i, o, n) == d
  {
    hide Extract, Insert;
    if o * n + n <= 32 {
      assert (o + 1) * n == o * n + n;
      QuotientBound(o + 1, n);
    } else if LegalOffset(o, n) {
      LegalFieldFits(o, n);
    }
  }

  lemma NarrowOffset(o: nat, count: nat, m: nat, i: nat)
    requires m > 0 && LegalOffset(o, count * m) && i < count
    ensures LegalOffset(o * count + i, m)
    ensures i * m + m <= count * m
    ensures (o * count + i) * m == o * (count * m) + i * m
  {
    LegalFieldFits(o, count * m);
    Distribute(o, count, m, i);
    PartFits(count, m, i);
    QuotientBound(o * count + i + 1, m);
  }

  lemma {:induction false} PartFits(count: nat, m: nat, i: nat)
    requires i < count
    ensures i * m + m <= count * m
    decreases count
  {
    assert count * m == (count - 1) * m + m;
    if i + 1 < count {
      PartFits(count - 1, m, i);
    }
  }

  lemma Distribute(o: nat, count: nat, m: nat, i: nat)
    ensures (o * count + i) * m == o * (count * m) + i * m
    ensures (o * count + i + 1) * m == (o * count + i) * m + m
  {
    assert (o * count + i) * m == o * count * m + i * m;
  }

  lemma QuotientBound(x: nat, m: nat)
    requires m > 0 && x * m <= 32
    ensures x <= 32 / m
  {
    var q := 32 / m;
    assert 32 < (q + 1) * m;
    assert q < x ==> (q + 1) * m <= x * m;
  }

  /** A wide read is the concatenation of the reads of its parts. */
  lemma WideReadIsConcatenation(d: Dwords, j: nat, o: nat, count: nat, m: nat, i: nat)
    requires j < |d| % 256 && m > 0 && LegalOffset(o, count * m) && i < count
    ensures View(d, j, o, count * m).Some?
    ensures Some(Extract(View(d, j, o, count * m).value, i * m, m)) == View(d, j, o * count + i, m)
  {
    hide Extract;
    LegalFieldFits(o, count * m);
    NarrowOffset(o, count, m, i);
    ExtractOfExtract(d[j], o * (count * m), count * m, i * m, m);
  }
}
