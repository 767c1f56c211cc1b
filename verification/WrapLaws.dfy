/**
 What the wrapping promises: nothing is lost, lines fit, and no choice of
 breaks needs fewer lines.
 */
module WrapLaws {
  import opened Wrappers
  import opened WordWrap

  // ------------------------------------------------------------- round trip

  /** The lines with single spaces between them. */
  function Join(lines: seq<string>): string {
    if lines == [] then ""
    else if |lines| == 1 then lines[0]
    else lines[0] + " " + Join(lines[1..])
  }

  lemma {:induction false} PiecesJoin(text: string, start: nat, breaks: seq<nat>)
    requires AreBreaks(text, start, breaks) && breaks != []
    ensures start <= breaks[|breaks| - 1] < |text|
    ensures Join(Pieces(text, start, breaks)) == text[start..breaks[|breaks| - 1]]
    decreases |breaks|
  {
    var b := breaks[0];
    var rest := breaks[1..];
    var lines := Pieces(text, start, breaks);
    assert lines[1..] == Pieces(text, b + 1, rest);
    if rest != [] {
      PiecesJoin(text, b + 1, rest);
      var last := breaks[|breaks| - 1];
      assert text[start..b] + " " + text[b + 1..last] == text[start..last];
    }
  }

  /** The breaks reach the end of the text, or the space in front of it. */
  lemma {:induction false} BreaksReachEnd(text: string, width: nat, start: nat)
    requires 2 <= width && start + 1 < |text| <= MAX_STRING && text[|text| - 1] == ' '
    ensures var bs := Breaks(text, width, start);
      bs != [] && |text| - 2 <= bs[|bs| - 1] < |text| && text[bs[|bs| - 1]] == ' '
    decreases |text| - start
  {
    hide Greedy;
    var b := Greedy(text, width, start);
    var rest := Breaks(text, width, b + 1);
    assert Breaks(text, width, start) == [b] + rest;
    if b + 2 < |text| {
      BreaksReachEnd(text, width, b + 1);
      assert ([b] + rest)[|rest|] == rest[|rest| - 1];
    } else {
      assert rest == [];
    }
  }

  /** s with or without one trailing space. */
  predicate SameUpToTrailingSpace(s: string, desc: string) {
    s == desc || s + " " == desc
  }

  /**
   Joining the lines gives the description back, up to one trailing space, for
   every indent but 79, which leaves no room for a line, among those for which
   there is an end to the lines.
   */
  lemma LinesJoin(desc: string, indent: nat)
    requires |desc| < MAX_STRING && !Endless(desc, indent)
    ensures SameUpToTrailingSpace(Join(Lines(desc, indent)), desc)
      <==> indent != 79 || desc == "" || desc == " "
  {
    var text := desc + " ";
    if indent <= 78 {
      var breaks := Breaks(text, 80 - indent, 0);
      if desc != "" {
        BreaksReachEnd(text, 80 - indent, 0);
        BreaksAreBreaks(text, 80 - indent, 0);
        PiecesJoin(text, 0, breaks);
        var last := breaks[|breaks| - 1];
        assert text[0..last] == desc[..last];
        if last == |desc| {
          assert desc[..last] == desc;
        } else {
          assert desc[..last] + " " == desc;
        }
      }
    } else if indent >= 80 {
      assert text[..|text| - 1] == desc;
    }
  }

  /** Cut printed text at its line feeds and drop the indents. */
  function Unrender(indent: nat, printed: string): seq<string> {
    if '\n' !in printed then []
    else
      var n := FirstLineFeed(printed);
      [printed[if indent < n then indent else n..n]] + Unrender(indent, printed[n + 1..])
  }

  function FirstLineFeed(s: string): (n: nat)
    requires '\n' in s
    ensures n < |s| && s[n] == '\n' && '\n' !in s[..n]
  {
    if s[0] == '\n' then 0 else 1 + FirstLineFeed(s[1..])
  }

  lemma {:induction false} FirstLineFeedAt(front: string, rest: string)
    requires '\n' !in front
    ensures FirstLineFeed(front + "\n" + rest) == |front|
  {
    var all := front + "\n" + rest;
    if front != "" {
      assert all[0] == front[0];
      assert all[1..] == front[1..] + "\n" + rest;
      FirstLineFeedAt(front[1..], rest);
    }
  }

  lemma {:induction false} UnrenderRender(indent: nat, lines: seq<string>)
    requires forall line | line in lines :: '\n' !in line
    ensures Unrender(indent, Render(indent, lines)) == lines
  {
    if lines != [] {
      hide FirstLineFeed;
      var front := Spaces(indent) + lines[0];
      var rest := Render(indent, lines[1..]);
      var printed := front + "\n" + rest;
      assert Render(indent, lines) == printed;
      assert lines[0] in lines && printed[|front|] == '\n';
      FirstLineFeedAt(front, rest);
      assert printed[indent..|front|] == lines[0];
      assert printed[|front| + 1..] == rest;
      UnrenderRender(indent, lines[1..]);
    }
  }

  lemma {:induction false} PiecesKeepOut(text: string, start: nat, breaks: seq<nat>, c: char)
    requires AreBreaks(text, start, breaks) && c !in text
    ensures forall line | line in Pieces(text, start, breaks) :: c !in line
    decreases |breaks|
  {
    if breaks != [] {
      PiecesKeepOut(text, breaks[0] + 1, breaks[1..], c);
    }
  }

  lemma LinesKeepOut(desc: string, indent: nat)
    requires |desc| < MAX_STRING && '\n' !in desc
    ensures forall line | line in Lines(desc, indent) :: '\n' !in line
  {
    hide Pieces, Breaks;
    var text := desc + " ";
    if indent <= 78 {
      BreaksAreBreaks(text, 80 - indent, 0);
      PiecesKeepOut(text, 0, Breaks(text, 80 - indent, 0), '\n');
    }
  }

  lemma {:induction false} StripRemovesNewlines(desc: string)
    ensures '\n' !in StripNewlines(desc) && '\r' !in StripNewlines(desc)
    ensures |StripNewlines(desc)| <= |desc|
    ensures '\n' !in desc && '\r' !in desc ==> StripNewlines(desc) == desc
  {
    if desc != "" {
      var front, last := desc[..|desc| - 1], desc[|desc| - 1];
      StripRemovesNewlines(front);
      assert desc == front + [last];
      assert StripNewlines(desc) == StripNewlines(front) + (if last == '\r' || last == '\n' then "" else [last]);
    }
  }

  /** Stripping is done character by character, so it distributes over parts. */
  lemma {:induction false} StripAppend(a: string, b: string)
    ensures StripNewlines(a + b) == StripNewlines(a) + StripNewlines(b)
  {
    if b == "" {
      assert a + b == a;
    } else {
      assert (a + b)[..|a + b| - 1] == a + b[..|b| - 1];
      StripAppend(a, b[..|b| - 1]);
    }
  }

  /** There is printed text, and without its indents and joined it is desc up to a trailing space. */
  predicate GivesBack(printed: Option<string>, indent: nat, desc: string) {
    printed.Some? && SameUpToTrailingSpace(Join(Unrender(indent, printed.value)), desc)
  }

  /**
   The whole round trip: GetLong returns for a description stored by SetLong,
   and what it prints, stripped of its indents and joined with single spaces,
   is the input without its line ends, up to one trailing space, if and only if
   the request is not an endless one and the indent is not 79, where only the
   two texts that need no line come back.
   */
  lemma WrapRoundTrip(input: string, indent: nat)
    requires |input| < MAX_STRING
    ensures var desc := StripNewlines(input);
      |desc| < MAX_STRING &&
      (GivesBack(Printed(desc, indent), indent, desc)
       <==> !Endless(desc, indent) && (indent != 79 || desc == "" || desc == " "))
  {
    hide StripNewlines, Lines, Render, Unrender, Join, SameUpToTrailingSpace;
    StripRemovesNewlines(input);
    var desc := StripNewlines(input);
    if !Endless(desc, indent) {
      LinesKeepOut(desc, indent);
      UnrenderRender(indent, Lines(desc, indent));
      LinesJoin(desc, indent);
    }
  }

  // ------------------------------------------------------------------ width

  /** There is a space among the n + 1 characters from i on. */
  predicate SpaceWithin(s: string, i: nat, n: nat) {
    exists j | i <= j <= i + n && j < |s| :: s[j] == ' '
  }

  /** No word is longer than n characters. */
  predicate WordsFit(s: string, n: nat) {
    forall i | 0 <= i && i + n < |s| :: SpaceWithin(s, i, n)
  }

  /** The sentinel space does not matter. */
  lemma WordsFitSentinel(desc: string, n: nat)
    ensures WordsFit(desc + " ", n) <==> WordsFit(desc, n)
  {
    var text := desc + " ";
    if WordsFit(desc, n) {
      forall i | 0 <= i && i + n < |text| ensures SpaceWithin(text, i, n) {
        if i + n < |desc| {
          assert SpaceWithin(desc, i, n);
          var j :| i <= j <= i + n && j < |desc| && desc[j] == ' ';
          assert text[j] == ' ';
        } else {
          assert text[i + n] == ' ';
        }
      }
    }
    if WordsFit(text, n) {
      forall i | 0 <= i && i + n < |desc| ensures SpaceWithin(desc, i, n) {
        assert SpaceWithin(text, i, n);
        var j :| i <= j <= i + n && j < |text| && text[j] == ' ';
        assert desc[j] == ' ';
      }
    }
  }

  predicate LinesFit(lines: seq<string>, n: nat) {
    forall i | 0 <= i < |lines| :: |lines[i]| <= n
  }

  /**
   A choice of breaks at spaces that covers the text from start on, up to one
   trailing space, with lines of less than width characters.
   */
  predicate Fitting(text: string, width: nat, start: nat, breaks: seq<nat>)
    decreases |breaks|
  {
    if breaks == [] then start + 1 >= |text|
    else
      && start <= breaks[0] < |text| && text[breaks[0]] == ' '
      && breaks[0] < start + width
      && Fitting(text, width, breaks[0] + 1, breaks[1..])
  }

  lemma {:induction false} GreedyFits(text: string, width: nat, start: nat)
    requires 2 <= width && 0 < |text| <= MAX_STRING && text[|text| - 1] == ' '
    requires WordsFit(text, width - 1)
    ensures Fitting(text, width, start, Breaks(text, width, start))
    decreases |text| - start
  {
    hide Greedy;
    if start + 1 < |text| {
      var b := Greedy(text, width, start);
      assert start + width - 1 < |text| ==> SpaceWithin(text, start, width - 1);
      GreedyFits(text, width, b + 1);
      assert Breaks(text, width, start)[1..] == Breaks(text, width, b + 1);
    }
  }

  /** A word that is too long sits whole in one line, wherever the breaks are. */
  lemma {:induction false} LongWordNeedsLongLine(text: string, start: nat, breaks: seq<nat>, i: nat, n: nat)
    requires AreBreaks(text, start, breaks) && start <= i && i + n < |text|
    requires !SpaceWithin(text, i, n)
    requires breaks != [] && i + n < breaks[|breaks| - 1]
    ensures !LinesFit(Pieces(text, start, breaks), n)
    decreases |breaks|
  {
    var b := breaks[0];
    var lines := Pieces(text, start, breaks);
    if b < i {
      LongWordNeedsLongLine(text, b + 1, breaks[1..], i, n);
      var rest := Pieces(text, b + 1, breaks[1..]);
      var k :| 0 <= k < |rest| && |rest[k]| > n;
      assert lines[k + 1] == rest[k];
    } else {
      assert b > i + n;
      assert |lines[0]| > n;
    }
  }

  /** A long word of the text ends before the last break. */
  lemma LongWordMakesLongLine(text: string, breaks: seq<nat>, n: nat)
    requires AreBreaks(text, 0, breaks) && |text| >= 2 && text[|text| - 1] == ' ' && n > 0
    requires breaks != [] && |text| - 2 <= breaks[|breaks| - 1] < |text| && text[breaks[|breaks| - 1]] == ' '
    requires !WordsFit(text, n)
    ensures !LinesFit(Pieces(text, 0, breaks), n)
  {
    var i :| 0 <= i && i + n < |text| && !SpaceWithin(text, i, n);
    assert text[i + n] != ' ';
    assert text[if i + n == |text| - 2 then |text| - 2 else i] != ' ';
    LongWordNeedsLongLine(text, 0, breaks, i, n);
  }

  lemma {:induction false} FittingLinesFit(text: string, width: nat, start: nat, breaks: seq<nat>)
    requires 2 <= width && Fitting(text, width, start, breaks)
    ensures AreBreaks(text, start, breaks) && LinesFit(Pieces(text, start, breaks), width - 1)
    decreases |breaks|
  {
    if breaks != [] {
      FittingLinesFit(text, width, breaks[0] + 1, breaks[1..]);
    }
  }

  lemma PiecesFit(text: string, width: nat)
    requires 2 <= width && 0 < |text| <= MAX_STRING && text[|text| - 1] == ' '
    ensures AreBreaks(text, 0, Breaks(text, width, 0))
    ensures LinesFit(Pieces(text, 0, Breaks(text, width, 0)), width - 1) <==> WordsFit(text, width - 1)
  {
    hide Greedy, Pieces, LinesFit;
    var breaks := Breaks(text, width, 0);
    BreaksAreBreaks(text, width, 0);
    if WordsFit(text, width - 1) {
      GreedyFits(text, width, 0);
      FittingLinesFit(text, width, 0, breaks);
    } else {
      BreaksReachEnd(text, width, 0);
      LongWordMakesLongLine(text, breaks, width - 1);
    }
  }

  /** Every printed line stays within 79 columns iff every word is short enough for that. */
  lemma LinesWithin79Columns(desc: string, indent: nat)
    requires |desc| < MAX_STRING && indent <= 78
    ensures LinesFit(Lines(desc, indent), 79 - indent) <==> WordsFit(desc, 79 - indent)
  {
    hide Breaks, Pieces, LinesFit, WordsFit;
    PiecesFit(desc + " ", 80 - indent);
    WordsFitSentinel(desc, 79 - indent);
  }

  // ------------------------------------------------------------- greediness

  /**
   Lines of at most w characters, filled as far as words go: the first word of
   the next line would not fit behind any line.  Only the last line may be too
   long, if it begins with a word that is.
   */
  predicate FilledUp(lines: seq<string>, w: nat) {
    && (forall i | 0 <= i < |lines| - 1 ::
          && |lines[i]| <= w <= |lines[i]| + |lines[i + 1]|
          && ' ' !in lines[i + 1][..w - |lines[i]|])
    && (lines != [] && |lines[|lines| - 1]| > w ==> ' ' !in lines[|lines| - 1][..w + 1])
  }

  lemma FilledUpAhead(line: string, rest: seq<string>, w: nat)
    requires FilledUp(rest, w)
    requires rest == [] && |line| > w ==> ' ' !in line[..w + 1]
    requires rest != [] ==>
      |line| <= w <= |line| + |rest[0]| && ' ' !in rest[0][..w - |line|]
    ensures FilledUp([line] + rest, w)
  {
    var lines := [line] + rest;
    forall i | 0 <= i < |lines| - 1
      ensures |lines[i]| <= w <= |lines[i]| + |lines[i + 1]| && ' ' !in lines[i + 1][..w - |lines[i]|]
    {
      assert lines[i + 1] == rest[i];
      assert i > 0 ==> lines[i] == rest[i - 1];
    }
  }

  /** A greedy line, with the line up to the next break c behind it, or none. */
  lemma GreedyLineIsFull(text: string, width: nat, start: nat, c: nat)
    requires 2 <= width && start + 1 < |text| <= MAX_STRING && text[|text| - 1] == ' '
    ensures var b := Greedy(text, width, start);
      && (b + 2 >= |text| && b - start > width - 1 ==> ' ' !in text[start..b][..width])
      && (b < c < |text| && text[c] == ' ' ==>
            && b - start <= width - 1 <= (b - start) + (c - b - 1)
            && ' ' !in text[b + 1..c][..width - 1 - (b - start)])
  {
    hide FindLastSpace;
    var b := Greedy(text, width, start);
    if b < c < |text| && text[c] == ' ' {
      assert c >= start + width;
    }
  }

  lemma {:induction false} BreaksFillUp(text: string, width: nat, start: nat)
    requires 2 <= width && 0 < |text| <= MAX_STRING && text[|text| - 1] == ' '
    ensures AreBreaks(text, start, Breaks(text, width, start))
    ensures FilledUp(Pieces(text, start, Breaks(text, width, start)), width - 1)
    decreases |text| - start
  {
    hide Greedy, FilledUp;
    BreaksAreBreaks(text, width, start);
    if start + 1 < |text| {
      var b := Greedy(text, width, start);
      var breaks := Breaks(text, width, b + 1);
      BreaksFillUp(text, width, b + 1);
      var line, rest := text[start..b], Pieces(text, b + 1, breaks);
      assert Pieces(text, start, Breaks(text, width, start)) == [line] + rest;
      GreedyLineIsFull(text, width, start, if breaks == [] then 0 else breaks[0]);
      FilledUpAhead(line, rest, width - 1);
    } else {
      NothingFilled(width - 1);
    }
  }

  lemma NothingFilled(w: nat)
    ensures FilledUp([], w)
  {
  }

  /**
   What the lines are: filled up for indents up to 78; none for the indent 79;
   and the whole text in one line beyond, where an empty text has one at 80 only.
   */
  lemma LinesAreFilledUp(desc: string, indent: nat)
    requires |desc| < MAX_STRING && !Endless(desc, indent)
    ensures indent <= 78 ==> FilledUp(Lines(desc, indent), 79 - indent)
    ensures indent == 79 ==> Lines(desc, indent) == []
    ensures indent >= 80 ==> Lines(desc, indent) == if desc == "" && indent > 80 then [] else [desc]
  {
    if indent <= 78 {
      BreaksFillUp(desc + " ", 80 - indent, 0);
    } else {
      assert (desc + " ")[..|desc|] == desc;
    }
  }

  // ------------------------------------------------------------- optimality

  /** The greedy breaks stay ahead of any other fitting ones. */
  lemma {:induction false} GreedyStaysAhead(text: string, width: nat, start: nat, other: nat, breaks: seq<nat>)
    requires 2 <= width && 0 < |text| <= MAX_STRING && text[|text| - 1] == ' '
    requires other <= start && Fitting(text, width, other, breaks)
    ensures |Breaks(text, width, start)| <= |breaks|
    decreases |breaks|
  {
    if start + 1 < |text| {
      var b := Greedy(text, width, start);
      assert breaks[0] <= b;
      GreedyStaysAhead(text, width, b + 1, breaks[0] + 1, breaks[1..]);
    }
  }

  /**
   Greedy is optimal: no choice of breaks that fits into 79 columns takes fewer
   lines; and whenever there is such a choice the printed lines are one.
   */
  lemma WrapIsOptimal(desc: string, indent: nat, breaks: seq<nat>)
    requires |desc| < MAX_STRING && indent <= 78
    requires Fitting(desc + " ", 80 - indent, 0, breaks)
    ensures |Lines(desc, indent)| <= |breaks|
    ensures LinesFit(Lines(desc, indent), 79 - indent)
  {
    var text := desc + " ";
    var width := 80 - indent;
    GreedyStaysAhead(text, width, 0, 0, breaks);
    BreaksAreBreaks(text, width, 0);
    FittingMeansWordsFit(text, width, breaks);
    WordsFitSentinel(desc, width - 1);
    LinesWithin79Columns(desc, indent);
  }

  lemma FittingMeansWordsFit(text: string, width: nat, breaks: seq<nat>)
    requires 2 <= width && text != "" && text[|text| - 1] == ' ' && Fitting(text, width, 0, breaks)
    ensures WordsFit(text, width - 1)
  {
    if !WordsFit(text, width - 1) {
      FittingLinesFit(text, width, 0, breaks);
      FittingReachesEnd(text, width, 0, breaks);
      LongWordMakesLongLine(text, breaks, width - 1);
    }
  }

  lemma {:induction false} FittingReachesEnd(text: string, width: nat, start: nat, breaks: seq<nat>)
    requires Fitting(text, width, start, breaks) && start + 1 < |text|
    ensures breaks != [] && |text| - 2 <= breaks[|breaks| - 1] < |text| && text[breaks[|breaks| - 1]] == ' '
    decreases |breaks|
  {
    if breaks[0] + 2 < |text| {
      FittingReachesEnd(text, width, breaks[0] + 1, breaks[1..]);
    } else {
      LastBreak(text, width, start, breaks);
    }
  }

  lemma {:induction false} LastBreak(text: string, width: nat, start: nat, breaks: seq<nat>)
    requires Fitting(text, width, start, breaks) && breaks != []
    ensures breaks[0] <= breaks[|breaks| - 1] < |text| && text[breaks[|breaks| - 1]] == ' '
    decreases |breaks|
  {
    if |breaks| > 1 {
      LastBreak(text, width, breaks[0] + 1, breaks[1..]);
    }
  }
}
