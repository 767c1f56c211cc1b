/**
 ParseTargetCmdLine: reading "<grp>" or "<grp>:<x>.<y>.<z>" with strtol.
 */
module TargetParser {
  import opened Wrappers
  import opened TestNumbering

  const LONG_MAX: int := 0x7FFF_FFFF_FFFF_FFFF
  const LONG_MIN: int := -0x8000_0000_0000_0000

  predicate IsDigit(c: char) {
    '0' <= c <= '9'
  }

  /** isspace() in the C locale. */
  predicate IsSpace(c: char) {
    c == ' ' || '\t' <= c <= '\r'
  }

  predicate AllDigits(s: string) {
    forall i | 0 <= i < |s| :: IsDigit(s[i])
  }

  function DigitValue(c: char): nat
    requires IsDigit(c)
  {
    c as int - '0' as int
  }

  /** The number a string of digits denotes; 0 for none. */
  function Decimal(s: string): (n: int)
    requires AllDigits(s)
    ensures 0 <= n
  {
    if s == "" then 0 else Decimal(s[..|s| - 1]) * 10 + DigitValue(s[|s| - 1])
  }

  // ------------------------------------------------------------------ strtol

  function SpacesEnd(s: string, i: nat): (e: nat)
    requires i <= |s|
    ensures i <= e <= |s| && (e < |s| ==> !IsSpace(s[e]))
    ensures forall k | i <= k < e :: IsSpace(s[k])
    decreases |s| - i
  {
    if i < |s| && IsSpace(s[i]) then SpacesEnd(s, i + 1) else i
  }

  function DigitsEnd(s: string, i: nat): (e: nat)
    requires i <= |s|
    ensures i <= e <= |s| && (e < |s| ==> !IsDigit(s[e]))
    ensures forall k | i <= k < e :: IsDigit(s[k])
    decreases |s| - i
  {
    if i < |s| && IsDigit(s[i]) then DigitsEnd(s, i + 1) else i
  }

  function Clamp(n: int): int {
    if n > LONG_MAX then LONG_MAX else if n < LONG_MIN then LONG_MIN else n
  }

  /** strtol(s, &end, 10): the value and the offset of the first character not used. */
  function Strtol(s: string): (r: (int, nat))
    ensures r.1 <= |s|
  {
    var i := SpacesEnd(s, 0);
    var j := if i < |s| && (s[i] == '+' || s[i] == '-') then i + 1 else i;
    var e := DigitsEnd(s, j);
    if e == j then (0, 0)
    else (Clamp(if s[i] == '-' then -Decimal(s[j..e]) else Decimal(s[j..e])), e)
  }

  /** The character at an offset of a C string, the terminator behind its end. */
  function CharAt(s: string, i: nat): char
    requires i <= |s|
  {
    if i < |s| then s[i] else '\0'
  }

  /** Everything behind the first c. */
  function Behind(s: string, c: char): (r: string)
    requires c in s
    ensures |r| < |s|
  {
    if s[0] == c then s[1..] else Behind(s[1..], c)
  }

  // ------------------------------------------------------------ specification

  /** A number in front of the first separator, and what is behind it. */
  function FieldBefore(s: string, separator: char): Option<(nat, string)>
    requires '\0' !in s && separator != '\0'
  {
    var (value, end) := Strtol(s);
    if CharAt(s, end) != separator || value < 0 then None
    else Some((value, Behind(s, separator)))
  }

  /** A number that takes the whole string. */
  function LastField(s: string): Option<nat>
    requires '\0' !in s
  {
    var (value, end) := Strtol(s);
    if end < |s| || value < 0 then None else Some(value)
  }

  /** The combinations a request may have: a whole group, or a full test number. */
  predicate Legal(r: TestRef) {
    && r.group != UINT_MAX
    && ((r.xLev == UINT_MAX && r.yLev == UINT_MAX && r.zLev == UINT_MAX) || r.Specific())
  }

  const EVERY_TEST: TestRef := TestRef(UINT_MAX, UINT_MAX, UINT_MAX, UINT_MAX)

  lemma BehindKeepsOut(s: string, c: char, d: char)
    requires c in s && d !in s
    ensures d !in Behind(s, c)
  {
    if s[0] != c {
      BehindKeepsOut(s[1..], c, d);
    }
  }

  /** The four fields of "<grp>:<x>.<y>.<z>". */
  function FullNumber(s: string): Option<TestRef>
    requires '\0' !in s
  {
    match FieldBefore(s, ':')
    case None => None
    case Some((g, testPart)) =>
      BehindKeepsOut(s, ':', '\0');
      if testPart == "" then None
      else match FieldBefore(testPart, '.')
        case None => None
        case Some((x, yz)) =>
          BehindKeepsOut(testPart, '.', '\0');
          if yz == "" then None
          else match FieldBefore(yz, '.')
            case None => None
            case Some((y, z)) =>
              BehindKeepsOut(yz, '.', '\0');
              if z == "" then None
              else match LastField(z)
                case None => None
                case Some(zLev) => Some(TestRef(g, x, y, zLev))
  }

  /** What a command line argument asks for; None when it is refused. */
  function ParseTarget(optarg: Option<string>): Option<TestRef>
    requires optarg.Some? ==> '\0' !in optarg.value
  {
    match optarg
    case None => Some(EVERY_TEST)
    case Some(s) =>
      var r :=
        if ':' in s then FullNumber(s)
        else match LastField(s)
          case None => None
          case Some(g) => Some(EVERY_TEST.(group := g));
      if r.Some? && Legal(r.value) then r else None
  }

  // ----------------------------------------------------------- the C++ method

  class TestTarget {
    var req: bool
    var t: TestRef

    constructor ()
      ensures !req && t == TestRef(0, 0, 0, 0)
    {
      req, t := false, TestRef(0, 0, 0, 0);
    }
  }

  /** string::find: the first position of c, None for npos. */
  method Find(s: string, c: char) returns (pos: Option<nat>)
    ensures pos.None? <==> c !in s
    ensures pos.Some? ==> pos.value < |s| && s[pos.value] == c && s[pos.value + 1..] == Behind(s, c)
  {
    for i := 0 to |s|
      invariant c !in s[..i]
      invariant c in s ==> c in s[i..] && Behind(s, c) == Behind(s[i..], c)
    {
      if s[i] == c {
        return Some(i);
      }
      assert s[i..][1..] == s[i + 1..];
    }
    return None;
  }

  /** One strtol call and the checks behind it. */
  method ReadField(swork: string, separator: char) returns (ok: bool, tmp: nat, rest: string)
    requires '\0' !in swork && separator != '\0'
    ensures ok == FieldBefore(swork, separator).Some?
    ensures ok ==> (tmp, rest) == FieldBefore(swork, separator).value && '\0' !in rest
  {
    var (value, end) := Strtol(swork);
    if CharAt(swork, end) != separator {
      return false, 0, "";
    } else if value < 0 {
      return false, 0, "";
    }
    BehindKeepsOut(swork, separator, '\0');
    var pos := Find(swork, separator);
    return true, value, swork[pos.value + 1..];
  }

  method ParseTargetCmdLine(target: TestTarget, optarg: Option<string>) returns (ok: bool)
    requires optarg.Some? ==> '\0' !in optarg.value
    modifies target
    ensures target.req
    ensures ok == ParseTarget(optarg).Some?
    ensures ok ==> target.t == ParseTarget(optarg).value
    ensures ok ==> if optarg.Some? then Legal(target.t) else target.t == EVERY_TEST
  {
    hide Strtol, Behind;
    target.req := true;
    target.t := EVERY_TEST;
    if optarg.None? {
      return true;
    }
    var swork := optarg.value;
    var ulwork := Find(swork, ':');
    if ulwork.None? {
      var (tmp, end) := Strtol(swork);
      if CharAt(swork, end) != '\0' {
        return false;
      } else if tmp < 0 {
        return false;
      }
      target.t := target.t.(group := tmp);
    } else {
      var good, tmp, rest := ReadField(swork, ':');
      if !good {
        return false;
      }
      target.t := target.t.(group := tmp);
      swork := rest;
      if |swork| == 0 {
        return false;
      }
      good, tmp, rest := ReadField(swork, '.');
      if !good {
        return false;
      }
      target.t := target.t.(xLev := tmp);
      swork := rest;
      if |swork| == 0 {
        return false;
      }
      good, tmp, rest := ReadField(swork, '.');
      if !good {
        return false;
      }
      target.t := target.t.(yLev := tmp);
      swork := rest;
      if |swork| == 0 {
        return false;
      }
      var (last, end) := Strtol(swork);
      if CharAt(swork, end) != '\0' {
        return false;
      } else if last < 0 {
        return false;
      }
      target.t := target.t.(zLev := last);
    }
    if target.t.group == UINT_MAX {
      return false;
    } else if !((target.t.xLev == UINT_MAX && target.t.yLev == UINT_MAX && target.t.zLev == UINT_MAX)
                || (target.t.xLev != UINT_MAX && target.t.yLev != UINT_MAX && target.t.zLev != UINT_MAX)) {
      return false;
    }
    return true;
  }
}
