/**
 TestDescribe: stripping line ends from a long description and wrapping it to
 80 columns.  Indices are C++ size_t values, so 80 - indent and the "not found"
 result wrap around modulo 2^64.
 */
module WordWrap {
  import opened Wrappers

  const SIZE_MOD: nat := 0x1_0000_0000_0000_0000
  const NPOS: nat := SIZE_MOD - 1

  // No C++ string is longer than this.
  const MAX_STRING: nat := 0x7FFF_FFFF_FFFF_FFFF

  /** A value as size_t arithmetic leaves it. */
  function SizeT(x: int): nat {
    x % SIZE_MOD
  }

  /** text.find_last_of(' ', pos) */
  function FindLastSpace(text: string, pos: nat): (r: nat)
    ensures r != NPOS && |text| <= MAX_STRING ==> r <= pos && r < |text| && text[r] == ' '
    ensures r == NPOS && |text| <= MAX_STRING ==> forall i | 0 <= i <= pos && i < |text| :: text[i] != ' '
    ensures r != NPOS && |text| <= MAX_STRING ==> forall i | r < i <= pos && i < |text| :: text[i] != ' '
    decreases if pos >= |text| then |text| + 1 else pos
  {
    if text == "" then NPOS
    else if pos >= |text| then FindLastSpace(text, |text| - 1)
    else if text[pos] == ' ' then pos
    else if pos == 0 then NPOS
    else FindLastSpace(text, pos - 1)
  }

  /** The last index that may still go on the line that begins at start. */
  function LineLimit(length: nat, start: nat, indent: nat): nat {
    var full := SizeT(start + SizeT(80 - indent));
    SizeT((if length > full then full else length) - 1)
  }

  /** Where the line that begins at start is broken. */
  function BreakAt(text: string, start: nat, limit: nat): nat {
    var space := FindLastSpace(text, limit);
    if SizeT(space + 1) == start then SizeT(|text| - 1) else space
  }

  function Spaces(n: nat): (s: string)
    ensures |s| == n && forall i | 0 <= i < n :: s[i] == ' '
  {
    seq(n, _ => ' ')
  }

  /** Lines as they are printed: indented and ended by a line feed. */
  function Render(indent: nat, lines: seq<string>): string {
    if lines == [] then "" else Spaces(indent) + lines[0] + "\n" + Render(indent, lines[1..])
  }

  // --------------------------------------------------- the lines, abstractly

  /** The break of a line of at most width - 1 characters: the last space that fits, else the text's end. */
  function Greedy(text: string, width: nat, start: nat): (b: nat)
    requires 2 <= width && start + 1 < |text| <= MAX_STRING && text[|text| - 1] == ' '
    ensures start <= b < |text| && text[b] == ' '
    ensures forall i | b < i < start + width && i < |text| :: text[i] != ' '
    ensures b < start + width || (b == |text| - 1 && forall i | start <= i < start + width :: text[i] != ' ')
  {
    var space := FindLastSpace(text, start + width - 1);
    if space == NPOS || space < start then |text| - 1 else space
  }

  /** The breaks from start on; one trailing space is not worth a line of its own. */
  function Breaks(text: string, width: nat, start: nat): seq<nat>
    requires 2 <= width && 0 < |text| <= MAX_STRING && text[|text| - 1] == ' '
    decreases |text| - start
  {
    if start + 1 >= |text| then []
    else
      var b := Greedy(text, width, start);
      [b] + Breaks(text, width, b + 1)
  }

  predicate AreBreaks(text: string, start: nat, breaks: seq<nat>)
    decreases |breaks|
  {
    breaks != [] ==>
      && start <= breaks[0] < |text| && text[breaks[0]] == ' '
      && AreBreaks(text, breaks[0] + 1, breaks[1..])
  }

  /** The pieces of text between the breaks. */
  function Pieces(text: string, start: nat, breaks: seq<nat>): (lines: seq<string>)
    requires AreBreaks(text, start, breaks)
    ensures |lines| == |breaks|
    decreases |breaks|
  {
    if breaks == [] then []
    else [text[start..breaks[0]]] + Pieces(text, breaks[0] + 1, breaks[1..])
  }

  lemma {:induction false} BreaksAreBreaks(text: string, width: nat, start: nat)
    requires 2 <= width && 0 < |text| <= MAX_STRING && text[|text| - 1] == ' '
    ensures AreBreaks(text, start, Breaks(text, width, start))
    decreases |text| - start
  {
    if start + 1 < |text| {
      var b := Greedy(text, width, start);
      BreaksAreBreaks(text, width, b + 1);
      assert Breaks(text, width, start)[1..] == Breaks(text, width, b + 1);
    }
  }

  /** The lines printed for what begins at start. */
  function LinesFrom(text: string, indent: nat, start: nat): seq<string>
    requires 0 < |text| <= MAX_STRING && text[|text| - 1] == ' '
  {
    if indent <= 78 then
      BreaksAreBreaks(text, 80 - indent, start);
      Pieces(text, start, Breaks(text, 80 - indent, start))
    else if indent == 79 || start != 0 || (indent > 80 && |text| == 1) then []
    else [text[..|text| - 1]]
  }

  /** The lines of a whole description. */
  function Lines(desc: string, indent: nat): seq<string>
    requires |desc| < MAX_STRING
  {
    LinesFrom(desc + " ", indent, 0)
  }

  // ------------------------------------------------- the loop, step by step

  /** The requests for which the wrapping loop never ends. */
  predicate Endless(desc: string, indent: nat) {
    desc != "" && indent == |desc| + 81
  }

  /** What GetLong returns when it limits the width; None when it does not return. */
  function Printed(desc: string, indent: nat): Option<string>
    requires |desc| < MAX_STRING
  {
    if Endless(desc, indent) then None else Some(Render(indent, Lines(desc, indent)))
  }

  /** Where the loop may be between two lines. */
  ghost predicate AtLineStart(text: string, indent: nat, start: nat) {
    && start <= |text|
    && (start > 0 ==> text[start - 1] == ' ')
    && (indent >= 79 ==> start == 0 || start == |text|)
    && (indent > 80 && |text| == 1 ==> start == 0)
  }

  lemma SizeTOf(x: int)
    requires 0 <= x + MAX_STRING && x < SIZE_MOD
    ensures SizeT(x) == if x >= 0 then x else x + SIZE_MOD
  {
  }

  /** The limit with the wrap-around worked out, for indents that leave some width. */
  lemma LimitWithin(length: nat, start: nat, indent: nat)
    requires 0 < length <= MAX_STRING && start <= length && indent <= 79
    ensures LineLimit(length, start, indent)
      == (if length > start + 80 - indent then start + 80 - indent else length) - 1
  {
    SizeTOf(80 - indent);
    SizeTOf(start + 80 - indent);
    SizeTOf((if length > start + 80 - indent then start + 80 - indent else length) - 1);
  }

  /** The limit for indents that leave none, in front of and behind the text. */
  lemma LimitBeyond(length: nat, indent: nat)
    requires 0 < length <= MAX_STRING && 80 <= indent <= MAX_STRING
    ensures LineLimit(length, 0, indent) == if indent == 80 then NPOS else length - 1
    ensures LineLimit(length, length, indent)
      == if 80 < indent < length + 80 then length + 80 - indent - 1
         else if indent == length + 80 then NPOS
         else length - 1
  {
    SizeTOf(80 - indent);
    SizeTOf(length - 1);
    SizeTOf(-1);
    if indent > 80 {
      assert SizeT(length + SizeT(80 - indent)) == SizeT(length + 80 - indent);
      SizeTOf(length + 80 - indent);
      SizeTOf(length + 80 - indent - 1);
    }
  }

  lemma BreakIsGreedy(text: string, width: nat, start: nat, limit: nat)
    requires 2 <= width <= 80 && start + 1 < |text| <= MAX_STRING && text[|text| - 1] == ' '
    requires start > 0 ==> text[start - 1] == ' '
    requires limit == (if |text| > start + width then start + width else |text|) - 1
    ensures BreakAt(text, start, limit) == Greedy(text, width, start)
  {
    var space := FindLastSpace(text, limit);
    assert space == FindLastSpace(text, start + width - 1);
    SizeTOf(|text| - 1);
    if space == NPOS {
      assert SizeT(NPOS + 1) == 0;
      assert start == 0;
    } else {
      SizeTOf(space + 1);
    }
  }

  /** One turn of the loop prints the next line; behind the text there is no further turn. */
  ghost predicate PrintsLine(text: string, indent: nat, start: nat)
    requires 0 < |text| <= MAX_STRING && text[|text| - 1] == ' '
  {
    var limit := LineLimit(|text|, start, indent);
    if start < limit then
      var b := BreakAt(text, start, limit);
      && start <= b < |text| && AtLineStart(text, indent, b + 1)
      && LinesFrom(text, indent, start) == [text[start..b]] + LinesFrom(text, indent, b + 1)
    else LinesFrom(text, indent, start) == []
  }

  lemma PiecesUnfold(text: string, width: nat, start: nat, b: nat)
    requires 2 <= width && 0 < |text| <= MAX_STRING && text[|text| - 1] == ' '
    requires start + 1 < |text| && b == Greedy(text, width, start)
    ensures AreBreaks(text, start, Breaks(text, width, start))
    ensures AreBreaks(text, b + 1, Breaks(text, width, b + 1))
    ensures Pieces(text, start, Breaks(text, width, start))
         == [text[start..b]] + Pieces(text, b + 1, Breaks(text, width, b + 1))
  {
    hide Greedy;
    BreaksAreBreaks(text, width, start);
    BreaksAreBreaks(text, width, b + 1);
    assert Breaks(text, width, start)[1..] == Breaks(text, width, b + 1);
  }

  lemma NoPieces(text: string, width: nat, start: nat)
    requires 2 <= width && 0 < |text| <= MAX_STRING && text[|text| - 1] == ' ' && start + 1 >= |text|
    ensures AreBreaks(text, start, Breaks(text, width, start))
    ensures Pieces(text, start, Breaks(text, width, start)) == []
  {
  }

  lemma PrintsLineWithin(text: string, indent: nat, start: nat)
    requires 0 < |text| <= MAX_STRING && text[|text| - 1] == ' ' && indent <= 78
    requires AtLineStart(text, indent, start)
    ensures PrintsLine(text, indent, start)
  {
    hide LineLimit, BreakAt, FindLastSpace, AreBreaks, Pieces, Breaks;
    var limit := LineLimit(|text|, start, indent);
    LimitWithin(|text|, start, indent);
    if start < limit {
      BreakIsGreedy(text, 80 - indent, start, limit);
      PiecesUnfold(text, 80 - indent, start, Greedy(text, 80 - indent, start));
    } else {
      NoPieces(text, 80 - indent, start);
    }
  }

  /** A search that may go to the end breaks at the end. */
  lemma BreakAtEnd(text: string, limit: nat)
    requires 0 < |text| <= MAX_STRING && text[|text| - 1] == ' ' && |text| - 1 <= limit
    ensures BreakAt(text, 0, limit) == |text| - 1
  {
    SizeTOf(|text|);
    assert FindLastSpace(text, limit) == |text| - 1;
  }

  lemma PrintsLineBeyond(text: string, indent: nat, start: nat)
    requires 0 < |text| <= MAX_STRING && text[|text| - 1] == ' ' && 79 <= indent <= MAX_STRING
    requires AtLineStart(text, indent, start)
    requires |text| > 1 ==> indent != |text| + 80
    ensures PrintsLine(text, indent, start)
  {
    hide LineLimit, BreakAt;
    if indent == 79 {
      LimitWithin(|text|, start, indent);
    } else {
      LimitBeyond(|text|, indent);
      BreakAtEnd(text, LineLimit(|text|, 0, indent));
      if start == 0 {
        assert text[0..|text| - 1] == text[..|text| - 1];
      }
    }
  }

  lemma PrintsNext(text: string, indent: nat, start: nat)
    requires 0 < |text| <= MAX_STRING && text[|text| - 1] == ' ' && indent <= MAX_STRING
    requires AtLineStart(text, indent, start)
    requires |text| > 1 ==> indent != |text| + 80
    ensures PrintsLine(text, indent, start)
  {
    hide *;
    if indent <= 78 {
      PrintsLineWithin(text, indent, start);
    } else {
      PrintsLineBeyond(text, indent, start);
    }
  }

  lemma RenderNothing(indent: nat)
    ensures Render(indent, []) == ""
  {
  }

  lemma RenderAppend(indent: nat, line: string, rest: seq<string>)
    ensures Render(indent, [line] + rest) == Spaces(indent) + line + "\n" + Render(indent, rest)
  {
    assert ([line] + rest)[1..] == rest;
  }

  /**
   When the indent is the length of a non-empty description plus 81, the loop
   stands still after its first line: its condition holds and one more turn
   changes neither index.
   */
  lemma EndlessStandsStill(desc: string, indent: nat)
    requires indent <= MAX_STRING && Endless(desc, indent)
    ensures var text := desc + " ";
      var first := BreakAt(text, 0, LineLimit(|text|, 0, indent));
      var start := SizeT(first + 1);
      var limit := LineLimit(|text|, start, indent);
      && 0 < LineLimit(|text|, 0, indent)
      && start < limit && SizeT(BreakAt(text, start, limit) + 1) == start
  {
    hide LineLimit, BreakAt;
    var text := desc + " ";
    LimitBeyond(|text|, indent);
    BreakAtEnd(text, |text| - 1);
    SizeTOf(|text|);
    StuckBehindText(text);
  }

  lemma StuckBehindText(text: string)
    requires 0 < |text| <= MAX_STRING && text[|text| - 1] == ' '
    ensures BreakAt(text, |text|, NPOS) == |text| - 1
  {
    SizeTOf(|text|);
    SizeTOf(|text| - 1);
    assert FindLastSpace(text, NPOS) == |text| - 1;
  }

  // ---------------------------------------------------------------- the class

  function StripNewlines(desc: string): string {
    if desc == "" then ""
    else
      var last := desc[|desc| - 1];
      StripNewlines(desc[..|desc| - 1]) + (if last == '\r' || last == '\n' then "" else [last])
  }

  class TestDescribe {
    var mLongDesc: string

    constructor ()
      ensures mLongDesc == "Missing long test description"
    {
      mLongDesc := "Missing long test description";
    }

    method SetLong(desc: string)
      modifies this
      ensures mLongDesc == StripNewlines(desc)
    {
      mLongDesc := "";
      for i := 0 to |desc|
        invariant mLongDesc == StripNewlines(desc[..i])
      {
        assert desc[..i + 1][..i] == desc[..i];
        if desc[i] == '\r' || desc[i] == '\n' {
          continue;
        }
        mLongDesc := mLongDesc + [desc[i]];
      }
      assert desc[..|desc|] == desc;
    }

    method GetLong(limit80Chars: bool, indent: nat) returns (work: string)
      requires |mLongDesc| < MAX_STRING && indent <= MAX_STRING
      requires limit80Chars ==> !Endless(mLongDesc, indent)
      ensures limit80Chars ==> Printed(mLongDesc, indent) == Some(work)
      ensures !limit80Chars ==> work == Spaces(indent) + mLongDesc + " "
    {
      var tmpLongDesc := mLongDesc + " ";
      var indentation := "";
      for i := 0 to indent
        invariant indentation == Spaces(i)
      {
        indentation := indentation + " ";
      }
      work := "";
      if limit80Chars {
        work := WrapLines(tmpLongDesc, indentation);
      } else {
        work := work + indentation;
        work := work + tmpLongDesc;
      }
    }

    /** The wrapping loop of GetLong. */
    static method WrapLines(tmpLongDesc: string, indentation: string) returns (work: string)
      requires 0 < |tmpLongDesc| <= MAX_STRING && tmpLongDesc[|tmpLongDesc| - 1] == ' '
      requires |indentation| <= MAX_STRING && indentation == Spaces(|indentation|)
      requires |tmpLongDesc| > 1 ==> |indentation| != |tmpLongDesc| + 80
      ensures work == Render(|indentation|, LinesFrom(tmpLongDesc, |indentation|, 0))
    {
      hide FindLastSpace, BreakAt, LineLimit, LinesFrom, Spaces, Render, SizeT;
      var indent := |indentation|;
      work := "";
      var startSpaceIdx := 0;
      var spaceIdx := LineLimit(|tmpLongDesc|, 0, indent);
      PrintsNext(tmpLongDesc, indent, startSpaceIdx);
      while startSpaceIdx < spaceIdx
        invariant AtLineStart(tmpLongDesc, indent, startSpaceIdx)
        invariant PrintsLine(tmpLongDesc, indent, startSpaceIdx)
        invariant spaceIdx == LineLimit(|tmpLongDesc|, startSpaceIdx, indent)
        invariant work + Render(indent, LinesFrom(tmpLongDesc, indent, startSpaceIdx))
          == Render(indent, LinesFrom(tmpLongDesc, indent, 0))
        decreases |tmpLongDesc| - startSpaceIdx
      {
        spaceIdx := BreakAt(tmpLongDesc, startSpaceIdx, spaceIdx);
        RenderAppend(indent, tmpLongDesc[startSpaceIdx..spaceIdx], LinesFrom(tmpLongDesc, indent, spaceIdx + 1));
        work := work + indentation;
        work := work + tmpLongDesc[startSpaceIdx..spaceIdx];
        work := work + "\n";
        SizeTOf(spaceIdx + 1);
        startSpaceIdx := SizeT(spaceIdx + 1);
        spaceIdx := LineLimit(|tmpLongDesc|, startSpaceIdx, indent);
        PrintsNext(tmpLongDesc, indent, startSpaceIdx);
      }
      RenderNothing(indent);
    }
  }
}
