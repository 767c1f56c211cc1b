/**
 The Write command as a packed record: a table of fields, what writing and
 reading them means, and the class whose setters and getters realise it.
 */
module WriteCmd {
  import opened Wrappers
  import opened Bits
  import opened CmdBuffer

  /** The fields of a Write submission queue entry that the setters write. */
  datatype Field =
    | OPC | FUSE | CID | NSID
    | SLBA_LOW | SLBA_HIGH
    | NLB | PRINFO | FUA | LR
    | DSM_FREQUENCY | DSM_LATENCY | DSM_SEQUENTIAL | DSM_INCOMPRESSIBLE
    | ILBRT | LBAT | LBATM

  function Dw(f: Field): (i: nat)
    ensures i < 16
  {
    match f
    case OPC => 0
    case FUSE => 0
    case CID => 0
    case NSID => 1
    case SLBA_LOW => 10
    case SLBA_HIGH => 11
    case NLB => 12
    case PRINFO => 12
    case FUA => 12
    case LR => 12
    case DSM_FREQUENCY => 13
    case DSM_LATENCY => 13
    case DSM_SEQUENTIAL => 13
    case DSM_INCOMPRESSIBLE => 13
    case ILBRT => 14
    case LBAT => 15
    case LBATM => 15
  }

  function Shift(f: Field): (s: nat)
    ensures s < 32
  {
    match f
    case FUSE => 8
    case CID => 16
    case PRINFO => 26
    case FUA => 30
    case LR => 31
    case DSM_LATENCY => 4
    case DSM_SEQUENTIAL => 6
    case DSM_INCOMPRESSIBLE => 7
    case LBATM => 16
    case _ => 0
  }

  function Width(f: Field): (n: nat)
    ensures 0 < n && Shift(f) + n <= 32
  {
    match f
    case OPC => 8
    case FUSE => 2
    case CID => 16
    case NLB => 16
    case PRINFO => 4
    case FUA => 1
    case LR => 1
    case DSM_FREQUENCY => 4
    case DSM_LATENCY => 2
    case DSM_SEQUENTIAL => 1
    case DSM_INCOMPRESSIBLE => 1
    case LBAT => 16
    case LBATM => 16
    case _ => 32
  }

  /** An entry has 16 dwords. */
  type Entry = d: Dwords | |d| == 16 witness seq(16, _ => 0)

  function Get(d: Entry, f: Field): bv32 {
    Extract(d[Dw(f)], Shift(f), Width(f))
  }

  function Put(d: Entry, f: Field, v: bv32): Entry {
    d[Dw(f) := Insert(d[Dw(f)], v, Shift(f), Width(f))]
  }

  predicate Disjoint(f: Field, g: Field) {
    || Dw(f) != Dw(g)
    || Shift(f) + Width(f) <= Shift(g)
    || Shift(g) + Width(g) <= Shift(f)
  }

  lemma FieldsAreDisjoint(f: Field, g: Field)
    requires f != g
    ensures Disjoint(f, g)
  {
  }

  /** Writing one field sets that field and no other. */
  lemma PutThenGet(d: Entry, f: Field, v: bv32, g: Field)
    ensures Get(Put(d, f, v), g) == if f == g then And(v, Ones(Width(f))) else Get(d, g)
  {
    hide Shift, Width, Dw, Insert, Extract, And, Ones, Disjoint;
    if f == g {
      ExtractOfInsert(d[Dw(f)], v, Shift(f), Width(f));
    } else {
      FieldsAreDisjoint(f, g);
      DisjointFrame(d, f, v, g);
    }
  }

  lemma DisjointFrame(d: Entry, f: Field, v: bv32, g: Field)
    requires Disjoint(f, g)
    ensures Get(Put(d, f, v), g) == Get(d, g)
  {
    hide Shift, Width, Dw, Insert, Extract;
    if Dw(f) == Dw(g) {
      ExtractFrame(d[Dw(f)], v, Shift(f), Width(f), Shift(g), Width(g));
    }
  }

  /** Bit k of dword i belongs to field f. */
  predicate Covers(f: Field, i: nat, k: nat) {
    Dw(f) == i && Shift(f) <= k < Shift(f) + Width(f)
  }

  lemma PutKeepsOtherBits(d: Entry, f: Field, v: bv32, i: nat, k: nat)
    requires i < 16 && k < 32 && !Covers(f, i, k)
    ensures Bit(Put(d, f, v)[i], k) == Bit(d[i], k)
  {
    hide Shift, Width, Dw, Insert, Bit;
    if Dw(f) == i {
      InsertBits(d[i], v, Shift(f), Width(f), k);
    }
  }

  /** From was to now, only the n bits from bit low of dword dw on change, to the low bits of v. */
  ghost predicate OnlyBits(was: Entry, now: Entry, dw: nat, low: nat, n: nat, v: bv32) {
    forall i, k | 0 <= i < 16 && 0 <= k < 32 ::
      Bit(now[i], k) == if i == dw && low <= k < low + n then Bit(v, k - low) else Bit(was[i], k)
  }

  lemma PutIsOnlyBits(d: Entry, f: Field, v: bv32)
    ensures OnlyBits(d, Put(d, f, v), Dw(f), Shift(f), Width(f), v)
  {
    hide Shift, Width, Dw, Insert, Bit;
    forall i, k | 0 <= i < 16 && 0 <= k < 32
      ensures Bit(Put(d, f, v)[i], k)
        == if i == Dw(f) && Shift(f) <= k < Shift(f) + Width(f) then Bit(v, k - Shift(f)) else Bit(d[i], k)
    {
      InsertBits(d[Dw(f)], v, Shift(f), Width(f), k);
    }
  }

  // ------------------------------------------------------- sequences of setters

  /** One field write. */
  datatype FieldWrite = FieldWrite(field: Field, value: bv32)

  function Run(d: Entry, writes: seq<FieldWrite>): Entry {
    if writes == [] then d
    else
      var last := writes[|writes| - 1];
      Put(Run(d, writes[..|writes| - 1]), last.field, last.value)
  }

  /** The value of the last write to f, None if there is none. */
  function LastWrite(writes: seq<FieldWrite>, f: Field): Option<bv32> {
    if writes == [] then None
    else
      var last := writes[|writes| - 1];
      if last.field == f then Some(last.value) else LastWrite(writes[..|writes| - 1], f)
  }

  /**
   After any sequence of setter calls every field holds what was written to it
   last, cut to its width, or what it held before if nothing was.
   */
  lemma {:induction false} FieldsHoldLastWrite(d: Entry, writes: seq<FieldWrite>, f: Field)
    ensures Get(Run(d, writes), f) == match LastWrite(writes, f)
      case None => Get(d, f)
      case Some(v) => And(v, Ones(Width(f)))
  {
    if writes != [] {
      hide Get, Put, And, Ones, Width;
      var last := writes[|writes| - 1];
      FieldsHoldLastWrite(d, writes[..|writes| - 1], f);
      PutThenGet(Run(d, writes[..|writes| - 1]), last.field, last.value, f);
    }
  }

  /** Bits that belong to no field are never touched. */
  lemma {:induction false} ReservedBitsUntouched(d: Entry, writes: seq<FieldWrite>, i: nat, k: nat)
    requires i < 16 && k < 32 && forall f: Field :: !Covers(f, i, k)
    ensures Bit(Run(d, writes)[i], k) == Bit(d[i], k)
  {
    if writes != [] {
      hide Bit, Put, Covers;
      var last := writes[|writes| - 1];
      ReservedBitsUntouched(d, writes[..|writes| - 1], i, k);
      PutKeepsOtherBits(Run(d, writes[..|writes| - 1]), last.field, last.value, i, k);
    }
  }

  // ------------------------------------------------------ the setters' bit work

  lemma FuseInByte(byte: bv32, v: bv32)
    ensures Or(And(byte, Not(0x03)), And(v, 0x03)) == Insert(byte, v, 0, 2)
  {
    SmallOnes();
    ShlConstants(0x03);
  }

  lemma PrinfoInWord(word: bv32, v: bv32)
    requires v <= 0x0F
    ensures (word & !0x3C00) | (v << 10) == Insert(word, v, 10, 4)
  {
    hide Ones, Shl;
    SmallOnes();
    ShlConstants(0x0F);
    ShlConstants(v);
    assert And(v, 0x0F) == v;
  }

  lemma LatencyInByte(byte: bv32, v: bv32)
    requires v <= 0x03
    ensures (byte & !0x30) | (v << 4) == Insert(byte, v, 4, 2)
  {
    hide Ones, Shl;
    SmallOnes();
    ShlConstants(0x03);
    ShlConstants(v);
    assert And(v, 0x03) == v;
  }

  lemma FrequencyInByte(byte: bv32, v: bv32)
    requires v <= 0x0F
    ensures (byte & !0x0F) | v == Insert(byte, v, 0, 4)
  {
    hide Ones, Shl;
    SmallOnes();
    ShlConstants(0x0F);
    ShlConstants(v);
    assert And(v, 0x0F) == v;
  }

  lemma SmallOnes()
    ensures Ones(2) == 0x03 && Ones(4) == 0x0F
  {
  }

  lemma ShlByTwo(a: bv32)
    ensures Shl(a, 0) == a && Shl(a, 2) == a << 2
  {
    assert Shl(Double(a), 1) == Shl(Double(Double(a)), 0);
  }

  lemma ShlByFour(a: bv32)
    ensures Shl(a, 4) == a << 4
  {
    hide Shl;
    ShlByTwo(a);
    ShlByTwo(a << 2);
    ShlAdd(a, 2, 2);
  }

  lemma ShlByEight(a: bv32)
    ensures Shl(a, 8) == a << 8
  {
    hide Shl;
    ShlByFour(a);
    ShlByFour(a << 4);
    ShlAdd(a, 4, 4);
  }

  lemma ShlByTen(a: bv32)
    ensures Shl(a, 10) == a << 10
  {
    hide Shl;
    ShlByEight(a);
    ShlByTwo(a << 8);
    ShlAdd(a, 8, 2);
  }

  lemma ShlConstants(a: bv32)
    ensures Shl(a, 0) == a && Shl(a, 4) == a << 4 && Shl(a, 10) == a << 10
  {
    hide Shl;
    ShlByTwo(a);
    ShlByFour(a);
    ShlByTen(a);
  }

  // -------------------------------------------------- what GetPRINFO returns

  /** The upper half of a dword shifted right by 10, as a uint8_t. */
  function PrinfoByte(dw: bv32): bv32 {
    And(Shr(Extract(dw, 16, 16), 10), 0xFF)
  }

  lemma {:induction false} SmallWordBits(k: nat)
    requires k < 32
    ensures Bit(0xFF, k) == (k < 8)
  {
    OnesBits(8, k);
    assert Ones(8) == 0xFF;
  }

  lemma PrinfoByteIsSixBits(dw: bv32)
    ensures PrinfoByte(dw) == Extract(dw, 26, 6)
  {
    hide Bit, Extract, And, Shr;
    var byte := And(Shr(Extract(dw, 16, 16), 10), 0xFF);
    forall k | 0 <= k < 32 ensures Bit(byte, k) == Bit(Extract(dw, 26, 6), k) {
      AndBits(Shr(Extract(dw, 16, 16), 10), 0xFF, k);
      SmallWordBits(k);
      ShrBits(Extract(dw, 16, 16), 10, k);
      ExtractBits(dw, 26, 6, k);
      if k < 8 {
        ExtractBits(dw, 16, 16, 10 + k);
      }
    }
    SameBits(byte, Extract(dw, 26, 6));
  }

  lemma FlagIsBit(dw: bv32, s: nat)
    requires s < 32
    ensures Extract(dw, s, 1) == 0 <==> !Bit(dw, s)
  {
    hide Bit, Extract;
    var flag := Extract(dw, s, 1);
    ExtractBits(dw, s, 1, 0);
    ZeroBits(0);
    if !Bit(dw, s) {
      forall k | 0 <= k < 32 ensures Bit(flag, k) == Bit(0, k) {
        ExtractBits(dw, s, 1, k);
        ZeroBits(k);
      }
      SameBits(flag, 0);
    }
  }

  /**
   GetPRINFO does not mask, so FUA and LR come along: it reads back PRINFO if
   and only if both are clear.
   */
  lemma PrinfoReadsBack(d: Entry)
    ensures PrinfoByte(d[12]) == Get(d, PRINFO) <==> Get(d, FUA) == 0 && Get(d, LR) == 0
    ensures PrinfoByte(d[12]) == Extract(d[12], 26, 4) <==> !Bit(d[12], 30) && !Bit(d[12], 31)
  {
    hide Bit, Extract, PrinfoByte;
    var dw := d[12];
    var six, four := Extract(dw, 26, 6), Extract(dw, 26, 4);
    PrinfoByteIsSixBits(dw);
    FlagIsBit(dw, 30);
    FlagIsBit(dw, 31);
    ExtractBits(dw, 26, 6, 4);
    ExtractBits(dw, 26, 6, 5);
    ExtractBits(dw, 26, 4, 4);
    ExtractBits(dw, 26, 4, 5);
    if !Bit(dw, 30) && !Bit(dw, 31) {
      forall k | 0 <= k < 32 ensures Bit(six, k) == Bit(four, k) {
        ExtractBits(dw, 26, 6, k);
        ExtractBits(dw, 26, 4, k);
        assert k == 4 || k == 5 ==> !Bit(dw, 26 + k);
      }
      SameBits(six, four);
    }
  }

  // ------------------------------------------------------------------ the class

  function Flag(b: bool): bv32 {
    if b then 1 else 0
  }

  function LowHalf(lba: bv64): bv32 {
    (lba & 0xFFFF_FFFF) as bv32
  }

  function HighHalf(lba: bv64): bv32 {
    (lba >> 32) as bv32
  }

  lemma HalvesAtBits(lba: bv64)
    ensures forall k | 0 <= k < 32 ::
      Bit(LowHalf(lba), k) == BitWide(lba, k) && Bit(HighHalf(lba), k) == BitWide(lba, 32 + k)
  {
    hide Bit, BitWide;
    forall k | 0 <= k < 32
      ensures Bit(LowHalf(lba), k) == BitWide(lba, k) && Bit(HighHalf(lba), k) == BitWide(lba, 32 + k)
    {
      HalvesHoldBits(lba, k);
    }
  }

  /** The 64 bit address that dwords 10 and 11 hold. */
  function Slba(d: Entry): bv64 {
    (Get(d, SLBA_LOW) as bv64) | ((Get(d, SLBA_HIGH) as bv64) << 32)
  }

  class Write {
    const cmd: Cmd

    ghost predicate Valid()
      reads cmd, cmd.mCmdBuf
    {
      cmd.mCmdBuf.Length == 16
    }

    ghost function Contents(): Entry
      requires Valid()
      reads cmd, cmd.mCmdBuf
    {
      cmd.mCmdBuf[..]
    }

    constructor ()
      ensures Valid() && fresh(cmd) && fresh(cmd.mCmdBuf)
      ensures Contents() == seq(16, _ => 0)[0 := 0x01]
    {
      cmd := new Cmd(0x01, 16);
    }

    method SetFUSE(newVal: bv8)
      requires Valid()
      modifies cmd.mCmdBuf
      ensures Contents() == Put(old(Contents()), FUSE, newVal as bv32)
      ensures OnlyBits(old(Contents()), Contents(), 0, 8, 2, newVal as bv32)
    {
      hide OnlyBits, Insert, Extract, And, Or, Not;
      var v := newVal as bv32;
      PutIsOnlyBits(Contents(), FUSE, v);
      var byte := cmd.GetBits(0, 1, 8);
      NestedInsert(Contents()[0], v, 8, 8, 0, 2);
      FuseInByte(byte.value, v);
      var b1 := And(byte.value, Not(0x03));
      b1 := Or(b1, And(v, 0x03));
      var ok := cmd.SetBits(b1, 0, 1, 8);
    }

    method SetNSID(newVal: bv32)
      requires Valid()
      modifies cmd.mCmdBuf
      ensures Contents() == Put(old(Contents()), NSID, newVal)
      ensures OnlyBits(old(Contents()), Contents(), 1, 0, 32, newVal)
    {
      hide OnlyBits, Insert, Extract;
      PutIsOnlyBits(Contents(), NSID, newVal);
      WholeWord(Contents()[1], newVal);
      var ok := cmd.SetDword(newVal, 1);
    }

    method SetCID(cid: bv16)
      requires Valid()
      modifies cmd.mCmdBuf
      ensures Contents() == Put(old(Contents()), CID, cid as bv32)
      ensures OnlyBits(old(Contents()), Contents(), 0, 16, 16, cid as bv32)
    {
      hide OnlyBits, Insert;
      PutIsOnlyBits(Contents(), CID, cid as bv32);
      var ok := cmd.SetBits(cid as bv32, 0, 1, 16);
    }

    method SetSLBA(lba: bv64)
      requires Valid()
      modifies cmd.mCmdBuf
      ensures Contents() == Put(Put(old(Contents()), SLBA_LOW, LowHalf(lba)), SLBA_HIGH, HighHalf(lba))
      ensures forall k | 0 <= k < 32 ::
        Bit(Contents()[10], k) == BitWide(lba, k) && Bit(Contents()[11], k) == BitWide(lba, 32 + k)
      ensures forall i | 0 <= i < 16 && i != 10 && i != 11 :: Contents()[i] == old(Contents())[i]
    {
      HalvesAtBits(lba);
      hide Insert, Extract, LowHalf, HighHalf;
      WholeWord(Contents()[10], LowHalf(lba));
      WholeWord(Contents()[11], HighHalf(lba));
      var ok := cmd.SetDword(LowHalf(lba), 10);
      ok := cmd.SetDword(HighHalf(lba), 11);
    }

    method SetLR(lr: bool)
      requires Valid()
      modifies cmd.mCmdBuf
      ensures Contents() == Put(old(Contents()), LR, Flag(lr))
      ensures OnlyBits(old(Contents()), Contents(), 12, 31, 1, if lr then 1 else 0)
    {
      hide OnlyBits, Insert;
      PutIsOnlyBits(Contents(), LR, Flag(lr));
      var ok := cmd.SetBits(Flag(lr), 12, 31, 1);
    }

    method SetFUA(fua: bool)
      requires Valid()
      modifies cmd.mCmdBuf
      ensures Contents() == Put(old(Contents()), FUA, Flag(fua))
      ensures OnlyBits(old(Contents()), Contents(), 12, 30, 1, if fua then 1 else 0)
    {
      hide OnlyBits, Insert;
      PutIsOnlyBits(Contents(), FUA, Flag(fua));
      var ok := cmd.SetBits(Flag(fua), 12, 30, 1);
    }

    /** A value of more than 4 bits is refused. */
    method SetPRINFO(prinfo: bv8) returns (ok: bool)
      requires Valid()
      modifies cmd.mCmdBuf
      ensures ok == (prinfo <= 0x0F)
      ensures Contents() == if ok then Put(old(Contents()), PRINFO, prinfo as bv32) else old(Contents())
      ensures ok ==> OnlyBits(old(Contents()), Contents(), 12, 26, 4, prinfo as bv32)
    {
      hide OnlyBits, Insert, Extract;
      if prinfo > 0x0F {
        return false;
      }
      var v := prinfo as bv32;
      PutIsOnlyBits(Contents(), PRINFO, v);
      var word := cmd.GetBits(12, 1, 16);
      PrinfoInWord(word.value, v);
      NestedInsert(Contents()[12], v, 16, 16, 10, 4);
      var work := word.value & !0x3C00;
      work := work | (v << 10);
      ok := cmd.SetBits(work, 12, 1, 16);
    }

    method GetPRINFO() returns (prinfo: bv32)
      requires Valid()
      ensures prinfo == PrinfoByte(Contents()[12])
      ensures forall k | 0 <= k < 32 :: Bit(prinfo, k) == (k < 6 && Bit(Contents()[12], 26 + k))
    {
      hide Extract, Shr, And, Bit;
      var word := cmd.GetBits(12, 1, 16);
      prinfo := And(Shr(word.value, 10), 0xFF);
      PrinfoByteIsSixBits(Contents()[12]);
      forall k | 0 <= k < 32 ensures Bit(prinfo, k) == (k < 6 && Bit(Contents()[12], 26 + k)) {
        ExtractBits(Contents()[12], 26, 6, k);
      }
    }

    method SetNLB(nlb: bv16)
      requires Valid()
      modifies cmd.mCmdBuf
      ensures Contents() == Put(old(Contents()), NLB, nlb as bv32)
      ensures OnlyBits(old(Contents()), Contents(), 12, 0, 16, nlb as bv32)
    {
      hide OnlyBits, Insert;
      PutIsOnlyBits(Contents(), NLB, nlb as bv32);
      var ok := cmd.SetBits(nlb as bv32, 12, 0, 16);
    }

    method SetDSMIncompress(incompress: bool)
      requires Valid()
      modifies cmd.mCmdBuf
      ensures Contents() == Put(old(Contents()), DSM_INCOMPRESSIBLE, Flag(incompress))
      ensures OnlyBits(old(Contents()), Contents(), 13, 7, 1, if incompress then 1 else 0)
    {
      hide OnlyBits, Insert;
      PutIsOnlyBits(Contents(), DSM_INCOMPRESSIBLE, Flag(incompress));
      var ok := cmd.SetBits(Flag(incompress), 13, 7, 1);
    }

    method SetDSMSeqRequest(seqReq: bool)
      requires Valid()
      modifies cmd.mCmdBuf
      ensures Contents() == Put(old(Contents()), DSM_SEQUENTIAL, Flag(seqReq))
      ensures OnlyBits(old(Contents()), Contents(), 13, 6, 1, if seqReq then 1 else 0)
    {
      hide OnlyBits, Insert;
      PutIsOnlyBits(Contents(), DSM_SEQUENTIAL, Flag(seqReq));
      var ok := cmd.SetBits(Flag(seqReq), 13, 6, 1);
    }

    /** A value of more than 2 bits is refused. */
    method SetDSMAccessLatent(accessLat: bv8) returns (ok: bool)
      requires Valid()
      modifies cmd.mCmdBuf
      ensures ok == (accessLat <= 0x03)
      ensures Contents() == if ok then Put(old(Contents()), DSM_LATENCY, accessLat as bv32) else old(Contents())
      ensures ok ==> OnlyBits(old(Contents()), Contents(), 13, 4, 2, accessLat as bv32)
    {
      hide OnlyBits, Insert, Extract;
      if accessLat > 0x03 {
        return false;
      }
      var v := accessLat as bv32;
      PutIsOnlyBits(Contents(), DSM_LATENCY, v);
      var byte := cmd.GetBits(13, 0, 8);
      LatencyInByte(byte.value, v);
      NestedInsert(Contents()[13], v, 0, 8, 4, 2);
      var work := byte.value & !0x30;
      work := work | (v << 4);
      ok := cmd.SetBits(work, 13, 0, 8);
    }

    /** A value of more than 4 bits is refused. */
    method SetDSMAccessFreq(accessFreq: bv8) returns (ok: bool)
      requires Valid()
      modifies cmd.mCmdBuf
      ensures ok == (accessFreq <= 0x0F)
      ensures Contents() == if ok then Put(old(Contents()), DSM_FREQUENCY, accessFreq as bv32) else old(Contents())
      ensures ok ==> OnlyBits(old(Contents()), Contents(), 13, 0, 4, accessFreq as bv32)
    {
      hide OnlyBits, Insert, Extract;
      if accessFreq > 0x0F {
        return false;
      }
      var v := accessFreq as bv32;
      PutIsOnlyBits(Contents(), DSM_FREQUENCY, v);
      var byte := cmd.GetBits(13, 0, 8);
      FrequencyInByte(byte.value, v);
      NestedInsert(Contents()[13], v, 0, 8, 0, 4);
      var work := byte.value & !0x0F;
      work := work | v;
      ok := cmd.SetBits(work, 13, 0, 8);
    }

    method SetILBRT(ilbrt: bv32)
      requires Valid()
      modifies cmd.mCmdBuf
      ensures Contents() == Put(old(Contents()), ILBRT, ilbrt)
      ensures OnlyBits(old(Contents()), Contents(), 14, 0, 32, ilbrt)
    {
      hide OnlyBits, Insert, Extract;
      PutIsOnlyBits(Contents(), ILBRT, ilbrt);
      WholeWord(Contents()[14], ilbrt);
      var ok := cmd.SetDword(ilbrt, 14);
    }

    /** Dword 13 is returned, though ILBRT is stored in dword 14. */
    method GetILBRT() returns (ilbrt: bv32)
      requires Valid()
      ensures ilbrt == Contents()[13]
      ensures ilbrt == Get(Contents(), ILBRT) <==> Contents()[13] == Contents()[14]
    {
      hide Insert, Extract;
      WholeWord(Contents()[14], 0);
      var dw := cmd.GetDword(13);
      ilbrt := dw.value;
    }

    method SetLBATM(lbatm: bv16)
      requires Valid()
      modifies cmd.mCmdBuf
      ensures Contents() == Put(old(Contents()), LBATM, lbatm as bv32)
      ensures OnlyBits(old(Contents()), Contents(), 15, 16, 16, lbatm as bv32)
    {
      hide OnlyBits, Insert;
      PutIsOnlyBits(Contents(), LBATM, lbatm as bv32);
      var ok := cmd.SetBits(lbatm as bv32, 15, 1, 16);
    }

    method SetLBAT(lbat: bv16)
      requires Valid()
      modifies cmd.mCmdBuf
      ensures Contents() == Put(old(Contents()), LBAT, lbat as bv32)
      ensures OnlyBits(old(Contents()), Contents(), 15, 0, 16, lbat as bv32)
    {
      hide OnlyBits, Insert;
      PutIsOnlyBits(Contents(), LBAT, lbat as bv32);
      var ok := cmd.SetBits(lbat as bv32, 15, 0, 16);
    }
  }

  /** The address written by SetSLBA is the address held. */
  lemma SlbaReadsBack(d: Entry, lba: bv64)
    ensures Slba(Put(Put(d, SLBA_LOW, LowHalf(lba)), SLBA_HIGH, HighHalf(lba))) == lba
  {
    hide Insert, Extract, LowHalf, HighHalf;
    var d' := Put(Put(d, SLBA_LOW, LowHalf(lba)), SLBA_HIGH, HighHalf(lba));
    WholeWord(d[10], LowHalf(lba));
    WholeWord(d[11], HighHalf(lba));
    WholeWord(d'[10], 0);
    WholeWord(d'[11], 0);
    HalvesMakeWhole(lba);
  }

  lemma HalvesMakeWhole(lba: bv64)
    ensures (LowHalf(lba) as bv64) | ((HighHalf(lba) as bv64) << 32) == lba
  {
  }
}
