/**
 Which arguments ParseTargetCmdLine accepts, and that it inverts printing.
 */
module ParserLaws {
  import opened Wrappers
  import opened TestNumbering
  import opened TargetParser

  /** A number as "%ld" prints it. */
  function ToDecimal(n: nat): (s: string)
    ensures AllDigits(s) && s != ""
  {
    var digit := [('0' as int + n % 10) as char];
    if n < 10 then digit else ToDecimal(n / 10) + digit
  }

  lemma {:induction false} DecimalOfToDecimal(n: nat)
    ensures Decimal(ToDecimal(n)) == n
  {
    var s := ToDecimal(n);
    if n >= 10 {
      DecimalOfToDecimal(n / 10);
      assert s[..|s| - 1] == ToDecimal(n / 10);
    }
  }

  lemma {:induction false} DigitsEndAt(s: string, i: nat, e: nat)
    requires i <= e <= |s| && (forall k | i <= k < e :: IsDigit(s[k])) && (e < |s| ==> !IsDigit(s[e]))
    ensures DigitsEnd(s, i) == e
    decreases e - i
  {
    if i < e {
      DigitsEndAt(s, i + 1, e);
    }
  }

  lemma {:induction false} SpacesEndAt(s: string, i: nat, e: nat)
    requires i <= e <= |s| && (forall k | i <= k < e :: IsSpace(s[k])) && (e < |s| ==> !IsSpace(s[e]))
    ensures SpacesEnd(s, i) == e
    decreases e - i
  {
    if i < e {
      SpacesEndAt(s, i + 1, e);
    }
  }

  // ---------------------------------------------------------------- numerals

  predicate AllSpaces(s: string) {
    forall i | 0 <= i < |s| :: IsSpace(s[i])
  }

  predicate IsWritten(s: string, spaces: string, sign: string, digits: string) {
    && s == spaces + sign + digits && AllSpaces(spaces)
    && (sign == "" || sign == "+" || sign == "-") && AllDigits(digits) && digits != ""
  }

  /** s, empty or with white space and a sign in front of its digits, denotes v. */
  ghost predicate Numeral(s: string, v: int) {
    || (s == "" && v == 0)
    || (exists spaces, sign, digits :: IsWritten(s, spaces, sign, digits)
          && v == Clamp(if sign == "-" then -Decimal(digits) else Decimal(digits)))
  }

  lemma DigitsAreNumeral(d: string)
    requires AllDigits(d)
    ensures Numeral(d, Clamp(Decimal(d)))
  {
    if d != "" {
      assert d == "" + "" + d;
      assert IsWritten(d, "", "", d);
    }
  }

  /** No separator occurs in a numeral. */
  lemma NumeralCharacters(s: string, v: int)
    requires Numeral(s, v)
    ensures ':' !in s && '.' !in s && '\0' !in s
  {
    if s != "" {
      var spaces, sign, digits :| IsWritten(s, spaces, sign, digits);
    }
  }

  /** Where the parts of a written number are, when it stands in front of rest. */
  lemma WrittenParts(s: string, rest: string, spaces: string, sign: string, digits: string)
    requires IsWritten(s, spaces, sign, digits) && (rest != "" ==> !IsDigit(rest[0]))
    ensures var all, i := s + rest, |spaces|;
      var j := i + |sign|;
      && j < |s| && SpacesEnd(all, 0) == i && DigitsEnd(all, j) == |s| && all[j..|s|] == digits
      && all[i] == (if sign == "" then digits[0] else sign[0])
  {
    var all, i := s + rest, |spaces|;
    var j := i + |sign|;
    assert all == spaces + sign + digits + rest;
    assert all[i] == (if sign == "" then digits[0] else sign[0]);
    SpacesEndAt(all, 0, i);
    assert all[j..|s|] == digits;
    assert forall k | j <= k < |s| :: all[k] == digits[k - j];
    DigitsEndAt(all, j, |s|);
  }

  lemma StrtolOfWritten(s: string, rest: string, spaces: string, sign: string, digits: string)
    requires IsWritten(s, spaces, sign, digits) && (rest != "" ==> !IsDigit(rest[0]))
    ensures Strtol(s + rest)
      == (Clamp(if sign == "-" then -Decimal(digits) else Decimal(digits)), |s|)
  {
    hide Decimal, Clamp, SpacesEnd, DigitsEnd;
    WrittenParts(s, rest, spaces, sign, digits);
    assert IsDigit(digits[0]);
  }

  /** strtol reads a numeral that a separator or nothing follows. */
  lemma StrtolOfNumeral(s: string, v: int, rest: string)
    requires Numeral(s, v) && (rest != "" ==> rest[0] == ':' || rest[0] == '.')
    ensures Strtol(s + rest) == (v, |s|)
  {
    if s != "" {
      hide Strtol, Decimal, Clamp, IsWritten;
      var spaces, sign, digits :| IsWritten(s, spaces, sign, digits)
        && v == Clamp(if sign == "-" then -Decimal(digits) else Decimal(digits));
      StrtolOfWritten(s, rest, spaces, sign, digits);
    } else {
      StrtolOfNothing(rest);
      assert s + rest == rest;
    }
  }

  lemma StrtolOfNothing(rest: string)
    requires rest != "" ==> rest[0] == ':' || rest[0] == '.'
    ensures Strtol(rest) == (0, 0)
  {
  }

  /** What strtol uses of any text is a numeral for the value it returns. */
  lemma StrtolReads(s: string)
    ensures Numeral(s[..Strtol(s).1], Strtol(s).0)
  {
    hide Decimal, Clamp;
    var i := SpacesEnd(s, 0);
    var j := if i < |s| && (s[i] == '+' || s[i] == '-') then i + 1 else i;
    var e := DigitsEnd(s, j);
    if e != j {
      var sign := s[i..j];
      assert s[..e] == s[..i] + sign + s[j..e];
      assert j > i ==> sign == [s[i]];
      assert IsWritten(s[..e], s[..i], sign, s[j..e]);
      assert sign == "-" <==> s[i] == '-';
    }
  }

  lemma {:induction false} BehindFirst(d: string, c: char, rest: string)
    requires c !in d
    ensures c in d + [c] + rest && Behind(d + [c] + rest, c) == rest
  {
    var s := d + [c] + rest;
    assert s[|d|] == c;
    if d == "" {
      assert s[1..] == rest;
    } else {
      assert s[1..] == d[1..] + [c] + rest;
      BehindFirst(d[1..], c, rest);
    }
  }

  /** A field in front of its separator. */
  lemma FieldOfNumeral(d: string, v: nat, separator: char, rest: string)
    requires Numeral(d, v) && separator in {':', '.'} && '\0' !in rest
    ensures '\0' !in d + [separator] + rest
    ensures FieldBefore(d + [separator] + rest, separator) == Some((v, rest))
  {
    hide Strtol, Numeral;
    NumeralCharacters(d, v);
    StrtolOfNumeral(d, v, [separator] + rest);
    assert d + [separator] + rest == d + ([separator] + rest);
    BehindFirst(d, separator, rest);
  }

  /** "<grp>:<x>.<y>.<z>" from the texts of its fields. */
  function Full(a: string, x: string, y: string, z: string): string {
    a + [':'] + (x + ['.'] + (y + ['.'] + z))
  }

  lemma LastOfNumeral(z: string, v: nat)
    requires Numeral(z, v)
    ensures '\0' !in z && LastField(z) == Some(v)
  {
    hide Strtol, Numeral;
    NumeralCharacters(z, v);
    StrtolOfNumeral(z, v, "");
    assert z + "" == z;
  }

  /** s reads "<grp>:<x>.<y>.<z>" with the numbers of r, where only <z> must not be empty. */
  ghost predicate ReadsAs(s: string, r: TestRef, a: string, x: string, y: string, z: string) {
    && s == Full(a, x, y, z) && z != ""
    && Numeral(a, r.group) && Numeral(x, r.xLev) && Numeral(y, r.yLev) && Numeral(z, r.zLev)
  }

  lemma FullNumberOfNumerals(s: string, r: TestRef, a: string, x: string, y: string, z: string)
    requires ReadsAs(s, r, a, x, y, z)
    ensures '\0' !in s && ':' in s
    ensures FullNumber(s) == Some(r)
  {
    hide FieldBefore, LastField, Numeral;
    var yz := y + ['.'] + z;
    var test := x + ['.'] + yz;
    LastOfNumeral(z, r.zLev);
    FieldOfNumeral(y, r.yLev, '.', z);
    FieldOfNumeral(x, r.xLev, '.', yz);
    FieldOfNumeral(a, r.group, ':', test);
    assert s[|a|] == ':';
  }

  // ------------------------------------------------------------------ grammar

  predicate IsAlnum(c: char) {
    '0' <= c <= '9' || 'A' <= c <= 'Z' || 'a' <= c <= 'z'
  }

  /** The characters that reach the parser from a skip file. */
  predicate Plain(s: string) {
    forall i | 0 <= i < |s| :: IsAlnum(s[i]) || s[i] == '.' || s[i] == ':'
  }

  /** A field that is accepted is a numeral up to its separator. */
  lemma FieldSplits(s: string, separator: char) returns (d: string)
    requires '\0' !in s && separator in {':', '.'} && FieldBefore(s, separator).Some?
    ensures var (v, rest) := FieldBefore(s, separator).value;
      s == d + [separator] + rest && Numeral(d, v) && '\0' !in rest
  {
    hide Strtol, Numeral;
    var (v, e) := Strtol(s);
    StrtolReads(s);
    d := s[..e];
    NumeralCharacters(d, v);
    assert s == d + [separator] + s[e + 1..];
    BehindFirst(d, separator, s[e + 1..]);
  }

  lemma LastSplits(s: string)
    requires '\0' !in s && LastField(s).Some?
    ensures Numeral(s, LastField(s).value)
  {
    hide Strtol, Numeral;
    StrtolReads(s);
    assert s[..|s|] == s;
  }

  lemma FullNumberReads(s: string)
    requires '\0' !in s && FullNumber(s).Some?
    ensures exists a, x, y, z :: ReadsAs(s, FullNumber(s).value, a, x, y, z)
  {
    hide FieldBefore, LastField, Numeral;
    var a := FieldSplits(s, ':');
    var test := FieldBefore(s, ':').value.1;
    var x := FieldSplits(test, '.');
    var yz := FieldBefore(test, '.').value.1;
    var y := FieldSplits(yz, '.');
    var z := FieldBefore(yz, '.').value.1;
    LastSplits(z);
    assert ReadsAs(s, FullNumber(s).value, a, x, y, z);
  }

  /**
   The whole grammar.  Accepted are exactly a numeral, possibly the empty one,
   and four numerals with their separators of which the last is not empty; and
   then only if their values are not negative and form a legal request.
   */
  lemma Grammar(s: string, r: TestRef)
    requires '\0' !in s
    ensures ParseTarget(Some(s)) == Some(r) <==>
      (Legal(r) &&
        (|| (Numeral(s, r.group) && r == TestRef(r.group, 0xFFFF_FFFF, 0xFFFF_FFFF, 0xFFFF_FFFF))
         || (exists a, x, y, z :: ReadsAs(s, r, a, x, y, z))))
  {
    hide FieldBefore, LastField, Numeral, FullNumber, ReadsAs;
    if Numeral(s, r.group) {
      NumeralCharacters(s, r.group);
      LastOfNumeral(s, r.group);
    }
    if a, x, y, z :| ReadsAs(s, r, a, x, y, z) {
      FullNumberOfNumerals(s, r, a, x, y, z);
    }
    if ':' in s {
      if FullNumber(s).Some? {
        FullNumberReads(s);
      }
    } else if LastField(s).Some? {
      LastSplits(s);
    }
  }

  lemma NoSpaceOrSign(s: string)
    requires Plain(s)
    ensures AllSpaces(s) ==> s == ""
    ensures s != "+" && s != "-"
  {
    if s != "" {
      assert !IsSpace(s[0]) && s[0] != '+' && s[0] != '-';
    }
  }

  /** In plain text, where there is neither white space nor a sign, numerals are digits. */
  lemma PlainNumeral(s: string, v: int)
    requires Plain(s)
    ensures Numeral(s, v) <==> AllDigits(s) && v == Clamp(Decimal(s))
  {
    if AllDigits(s) {
      DigitsAreNumeral(s);
    }
    if s != "" && Numeral(s, v) {
      var spaces, sign, digits :| IsWritten(s, spaces, sign, digits)
        && v == Clamp(if sign == "-" then -Decimal(digits) else Decimal(digits));
      assert spaces == s[..|spaces|] && sign == s[|spaces|..|spaces| + |sign|];
      NoSpaceOrSign(spaces);
      NoSpaceOrSign(sign);
      assert s == digits;
    }
  }

  /** s reads "<grp>:<x>.<y>.<z>" in digits, with the numbers of r cut off at LONG_MAX. */
  ghost predicate ReadsAsDigits(s: string, r: TestRef, a: string, x: string, y: string, z: string) {
    && s == Full(a, x, y, z) && z != ""
    && AllDigits(a) && AllDigits(x) && AllDigits(y) && AllDigits(z)
    && r == TestRef(Clamp(Decimal(a)), Clamp(Decimal(x)), Clamp(Decimal(y)), Clamp(Decimal(z)))
  }

  lemma PlainParts(s: string, a: string, x: string, y: string, z: string)
    requires Plain(s) && s == Full(a, x, y, z)
    ensures Plain(a) && Plain(x) && Plain(y) && Plain(z)
  {
    var i, j := |a| + 1, |a| + |x| + 2;
    assert a == s[..|a|] && x == s[i..i + |x|] && y == s[j..j + |y|] && z == s[j + |y| + 1..];
  }

  /**
   Exactly these plain arguments are accepted: a number, possibly the empty
   one, and four numbers with their separators of which the last is not empty;
   and then only if the values, cut off at LONG_MAX, form a legal request.
   */
  lemma PlainGrammar(s: string, r: TestRef)
    requires Plain(s)
    ensures ParseTarget(Some(s)) == Some(r) <==>
      (Legal(r) &&
        (|| (AllDigits(s) && r == EVERY_TEST.(group := Clamp(Decimal(s))))
         || (exists a, x, y, z :: ReadsAsDigits(s, r, a, x, y, z))))
  {
    hide Decimal, Clamp, Full, ParseTarget, Numeral;
    Grammar(s, r);
    PlainNumeral(s, r.group);
    forall a, x, y, z | s == Full(a, x, y, z)
      ensures ReadsAs(s, r, a, x, y, z) <==> ReadsAsDigits(s, r, a, x, y, z)
    {
      PlainParts(s, a, x, y, z);
      PlainNumeral(a, r.group);
      PlainNumeral(x, r.xLev);
      PlainNumeral(y, r.yLev);
      PlainNumeral(z, r.zLev);
    }
  }

  // ----------------------------------------------------------------- printing

  /** The text that names a group or a test. */
  function PrintTarget(r: TestRef): string {
    if r == EVERY_TEST.(group := r.group) then ToDecimal(r.group)
    else Full(ToDecimal(r.group), ToDecimal(r.xLev), ToDecimal(r.yLev), ToDecimal(r.zLev))
  }

  /** r with its numbers cut off at LONG_MAX. */
  function Cut(r: TestRef): TestRef {
    TestRef(Clamp(r.group), Clamp(r.xLev), Clamp(r.yLev), Clamp(r.zLev))
  }

  lemma PrintedIsPlain(r: TestRef)
    ensures Plain(PrintTarget(r)) && PrintTarget(r) != ""
  {
  }

  /**
   Parsing what was printed gives the reference back if and only if it is a
   legal combination and no number exceeds LONG_MAX.
   */
  lemma ParseInvertsPrint(r: TestRef)
    ensures '\0' !in PrintTarget(r)
    ensures ParseTarget(Some(PrintTarget(r))) == Some(r) <==>
      Legal(r) && r.group <= LONG_MAX && r.xLev <= LONG_MAX && r.yLev <= LONG_MAX && r.zLev <= LONG_MAX
  {
    hide FieldBefore, Decimal, LastField, Full, ToDecimal;
    var a, x, y, z := ToDecimal(r.group), ToDecimal(r.xLev), ToDecimal(r.yLev), ToDecimal(r.zLev);
    DecimalOfToDecimal(r.group);
    DecimalOfToDecimal(r.xLev);
    DecimalOfToDecimal(r.yLev);
    DecimalOfToDecimal(r.zLev);
    DigitsAreNumeral(a);
    DigitsAreNumeral(x);
    DigitsAreNumeral(y);
    DigitsAreNumeral(z);
    FullNumberOfNumerals(Full(a, x, y, z), Cut(r), a, x, y, z);
    LastOfNumeral(a, Clamp(r.group));
  }
}
