/**
 ParseSkipTestCmdLine: the loop over the contents of a skip file.
 */
module SkipFile {
  import opened Wrappers
  import opened TestNumbering
  import opened TargetParser
  import opened ParserLaws

  predicate IsEnd(c: char) {
    c == '\n' || c == '\r'
  }

  predicate IsKept(c: char) {
    IsAlnum(c) || c == '.' || c == ':'
  }

  // ------------------------------------------------------- the line's meaning

  predicate HasEnd(s: string) {
    exists i | 0 <= i < |s| :: IsEnd(s[i])
  }

  function FirstEnd(s: string): (n: nat)
    requires HasEnd(s)
    ensures n < |s| && IsEnd(s[n]) && !HasEnd(s[..n])
  {
    if IsEnd(s[0]) then 0
    else
      assert HasEnd(s[1..]) by {
        var i :| 0 <= i < |s| && IsEnd(s[i]);
        assert s[1..][i - 1] == s[i];
      }
      1 + FirstEnd(s[1..])
  }

  /** The part of a line in front of its comment. */
  function CutComment(line: string): string {
    if line == "" || line[0] == '#' then "" else [line[0]] + CutComment(line[1..])
  }

  /** Only letters, digits, '.' and ':' count. */
  function Keep(s: string): (r: string)
    ensures Plain(r) && '\0' !in r
  {
    if s == "" then ""
    else Keep(s[..|s| - 1]) + (if IsKept(s[|s| - 1]) then [s[|s| - 1]] else "")
  }

  datatype Scan = Scan(ok: bool, tests: seq<TestRef>)

  /**
   The references of a file's lines, in order, up to the first line that does
   not parse.  A last line without an end is not looked at.
   */
  function ScanLines(contents: string): Scan
    decreases |contents|, 0
  {
    if !HasEnd(contents) then Scan(true, [])
    else
      var n := FirstEnd(contents);
      ScanLine(Keep(CutComment(contents[..n])), contents[n + 1..])
  }

  /** A line's text, and then the rest of the file. */
  function ScanLine(text: string, rest: string): Scan
    requires '\0' !in text
    decreases |rest|, 1
  {
    if text == "" then ScanLines(rest)
    else match ParseTarget(Some(text))
      case None => Scan(false, [])
      case Some(r) => Prepend(r, ScanLines(rest))
  }

  function Prepend(r: TestRef, s: Scan): Scan {
    s.(tests := [r] + s.tests)
  }

  // ------------------------------------------------------------------ the loop

  /**
   What is still to come when the loop stands at rest with the text kept so
   far of the line it is in.
   */
  function ScanFrom(text: string, rest: string): Scan
    requires '\0' !in text
  {
    if !HasEnd(rest) then Scan(true, [])
    else
      var n := FirstEnd(rest);
      var line := Keep(CutComment(rest[..n]));
      ScanLine(text + line, rest[n + 1..])
  }

  lemma FirstEndIs(s: string, n: nat)
    requires n < |s| && IsEnd(s[n]) && !HasEnd(s[..n])
    ensures HasEnd(s) && FirstEnd(s) == n
  {
    assert forall i | 0 <= i < n :: !IsEnd(s[..n][i]);
    assert FirstEnd(s) == n;
  }

  lemma {:induction false} KeepAppend(a: string, b: string)
    ensures Keep(a + b) == Keep(a) + Keep(b)
  {
    if b == "" {
      assert a + b == a;
    } else {
      assert (a + b)[..|a + b| - 1] == a + b[..|b| - 1];
      KeepAppend(a, b[..|b| - 1]);
    }
  }

  lemma KeepOne(c: char)
    ensures Keep([c]) == if IsKept(c) then [c] else ""
  {
    assert [c][..0] == "";
  }

  /** An ordinary character adds itself to the text, or nothing. */
  lemma ScanFromChar(text: string, rest: string)
    requires '\0' !in text && rest != "" && !IsEnd(rest[0]) && rest[0] != '#'
    ensures ScanFrom(text, rest) == ScanFrom(text + Keep([rest[0]]), rest[1..])
  {
    var tail := rest[1..];
    if HasEnd(tail) {
      var n := FirstEnd(tail);
      var line := tail[..n];
      assert rest[..n + 1] == [rest[0]] + line;
      assert IsEnd(rest[n + 1]) && !HasEnd(rest[..n + 1]) by {
        assert forall i | 0 <= i < n :: !IsEnd(line[i]);
      }
      FirstEndIs(rest, n + 1);
      assert rest[n + 1 + 1..] == tail[n + 1..];
      assert CutComment(rest[..n + 1]) == [rest[0]] + CutComment(line);
      KeepAppend([rest[0]], CutComment(line));
      assert text + (Keep([rest[0]]) + Keep(CutComment(line))) == text + Keep([rest[0]]) + Keep(CutComment(line));
    } else {
      assert forall i | 0 < i < |rest| :: rest[i] == tail[i - 1];
    }
  }

  /** At a line's end the text is complete. */
  lemma ScanFromEnd(text: string, rest: string)
    requires '\0' !in text && rest != "" && IsEnd(rest[0])
    ensures ScanFrom(text, rest) == ScanLine(text, rest[1..])
  {
    hide ScanLine;
    assert rest[..0] == "";
    FirstEndIs(rest, 0);
    assert text + "" == text;
  }

  /** From a '#' the line's end is the next thing that matters. */
  lemma ScanFromComment(text: string, rest: string, j: nat)
    requires '\0' !in text && rest != "" && rest[0] == '#'
    requires j < |rest| && IsEnd(rest[j]) && !HasEnd(rest[..j])
    ensures ScanFrom(text, rest) == ScanLine(text, rest[j + 1..])
  {
    FirstEndIs(rest, j);
    assert CutComment(rest[..j]) == "";
    assert text + "" == text;
  }

  lemma ScanFromNothing(contents: string)
    ensures ScanFrom("", contents) == ScanLines(contents)
  {
    if HasEnd(contents) {
      var line := Keep(CutComment(contents[..FirstEnd(contents)]));
      assert "" + line == line;
    }
  }

  function Append(tests: seq<TestRef>, s: Scan): Scan {
    s.(tests := tests + s.tests)
  }

  /** The end of a comment that begins at i, None when the file ends first. */
  method SkipComment(contents: string, i: nat) returns (j: Option<nat>)
    requires i < |contents| && contents[i] == '#'
    ensures j.None? ==> !HasEnd(contents[i..])
    ensures j.Some? ==> i <= j.value < |contents| && IsEnd(contents[j.value]) && !HasEnd(contents[i..j.value])
  {
    for k := i to |contents|
      invariant !HasEnd(contents[i..k])
    {
      if contents[k] == '\n' || contents[k] == '\r' {
        return Some(k);
      }
      assert contents[i..k + 1] == contents[i..k] + [contents[k]];
    }
    assert contents[i..|contents|] == contents[i..];
    return None;
  }

  /**
   The tests named by the contents are appended to skipTest; on a line that
   does not parse the loop gives up with what it has.
   */
  method ParseSkipTests(skipTest: seq<TestRef>, contents: string) returns (ok: bool, newSkipTest: seq<TestRef>)
    ensures ok == ScanLines(contents).ok && newSkipTest == skipTest + ScanLines(contents).tests
  {
    hide ScanFrom, ScanLines, Keep, FirstEnd, ParseTarget;
    newSkipTest := skipTest;
    var line := "";
    var tmp := new TestTarget();
    var i := 0;
    ghost var all := Append(skipTest, ScanLines(contents));
    ScanFromNothing(contents);
    assert contents[0..] == contents;
    while i < |contents|
      invariant i <= |contents| && '\0' !in line
      invariant Append(newSkipTest, ScanFrom(line, contents[i..])) == all
        || (!HasEnd(contents[i..]) && Scan(true, newSkipTest) == all)
      decreases |contents| - i
    {
      ghost var rest := contents[i..];
      ghost var start := i;
      var processThisLine := false;
      if contents[i] == '#' {
        var j := SkipComment(contents, i);
        if j.Some? {
          ScanFromCommentAt(line, contents, i, j.value);
          i := j.value;
          processThisLine := true;
        } else {
          NothingWithoutEnd(line, rest);
        }
      } else if contents[i] == '\n' || contents[i] == '\r' {
        ScanFromEnd(line, rest);
        processThisLine := true;
      } else {
        ScanFromChar(line, rest);
        KeepOne(contents[i]);
        if IsAlnum(contents[i]) || contents[i] == '.' || contents[i] == ':' {
          line := line + [contents[i]];
        } else {
          assert line + "" == line;
        }
      }
      if processThisLine {
        EndIsIn(contents, start, i);
        assert Append(newSkipTest, ScanLine(line, contents[i + 1..])) == all;
        if |line| > 0 {
          var parsed := ParseTargetCmdLine(tmp, Some(line));
          if !parsed {
            return false, newSkipTest;
          }
          AppendPrepend(newSkipTest, tmp.t, ScanLines(contents[i + 1..]));
          newSkipTest := newSkipTest + [tmp.t];
          line := "";
        }
        ScanFromNothing(contents[i + 1..]);
      }
      SuffixHasNoEnd(contents, i);
      i := i + 1;
    }
    assert contents[i..] == "";
    NothingWithoutEnd(line, "");
    ok := true;
  }

  lemma AppendPrepend(tests: seq<TestRef>, r: TestRef, s: Scan)
    ensures Append(tests, Prepend(r, s)) == Append(tests + [r], s)
  {
    assert tests + ([r] + s.tests) == tests + [r] + s.tests;
  }

  lemma NothingWithoutEnd(text: string, rest: string)
    requires '\0' !in text && !HasEnd(rest)
    ensures ScanFrom(text, rest) == Scan(true, [])
    ensures forall tests :: Append(tests, ScanFrom(text, rest)) == Scan(true, tests)
  {
    assert forall tests: seq<TestRef> :: tests + [] == tests;
  }

  lemma EndIsIn(contents: string, start: nat, i: nat)
    requires start <= i < |contents| && IsEnd(contents[i])
    ensures HasEnd(contents[start..])
  {
    assert contents[start..][i - start] == contents[i];
  }

  lemma SuffixHasNoEnd(contents: string, i: nat)
    requires i < |contents|
    ensures contents[i..][1..] == contents[i + 1..]
    ensures !HasEnd(contents[i..]) ==> !HasEnd(contents[i + 1..])
  {
    var tail := contents[i + 1..];
    assert contents[i..][1..] == tail;
    if HasEnd(tail) {
      var k :| 0 <= k < |tail| && IsEnd(tail[k]);
      assert contents[i..][k + 1] == tail[k];
    }
  }

  lemma ScanFromCommentAt(text: string, contents: string, i: nat, j: nat)
    requires '\0' !in text && i <= j < |contents| && contents[i] == '#'
    requires IsEnd(contents[j]) && !HasEnd(contents[i..j])
    ensures ScanFrom(text, contents[i..]) == ScanLine(text, contents[j + 1..])
  {
    var rest := contents[i..];
    assert rest[..j - i] == contents[i..j];
    assert rest[j - i + 1..] == contents[j + 1..];
    ScanFromComment(text, rest, j - i);
  }

  // ----------------------------------------------------------- any file at all

  /**
   What is kept of a line: nothing from a '#' on, and of the rest the letters,
   digits, '.' and ':'.
   */
  lemma TextOfLine(a: string, b: string, c: char)
    ensures Keep(CutComment(a + "#" + b)) == Keep(CutComment(a))
    ensures '#' !in a ==> Keep(CutComment(a + b)) == Keep(CutComment(a)) + Keep(CutComment(b))
    ensures Keep(CutComment([c])) ==
      if '0' <= c <= '9' || 'A' <= c <= 'Z' || 'a' <= c <= 'z' || c == '.' || c == ':' then [c] else ""
  {
    TextOfOne(c);
    hide Keep, CutComment;
    CutAppend(a, b);
    KeepAppend(CutComment(a), CutComment(b));
    CutBehind(a, b);
  }

  lemma TextOfOne(c: char)
    ensures Keep(CutComment([c])) ==
      if '0' <= c <= '9' || 'A' <= c <= 'Z' || 'a' <= c <= 'z' || c == '.' || c == ':' then [c] else ""
  {
    KeepOne(c);
    assert CutComment([c]) == if c == '#' then "" else [c] + CutComment([c][1..]);
    assert [c] + "" == [c];
  }

  lemma CutBehind(a: string, b: string)
    ensures CutComment(a + "#" + b) == CutComment(a)
  {
    assert a + "#" + b == a + ("#" + b);
    assert CutComment("#" + b) == "";
    hide CutComment;
    CutAppend(a, "#" + b);
    assert CutComment(a) + "" == CutComment(a);
  }

  lemma {:induction false} CutAppend(a: string, b: string)
    ensures CutComment(a + b) == if '#' in a then CutComment(a) else CutComment(a) + CutComment(b)
  {
    if a == "" {
      assert a + b == b;
    } else {
      assert (a + b)[1..] == a[1..] + b;
      CutAppend(a[1..], b);
    }
  }

  /** The lines of a file with the characters that end them, and what follows the last. */
  function FileOf(lines: seq<string>, ends: string, tail: string): string
    requires |lines| == |ends|
  {
    if lines == [] then tail else lines[0] + [ends[0]] + FileOf(lines[1..], ends[1..], tail)
  }

  /** What is kept of the lines of which anything is kept. */
  function Texts(lines: seq<string>): (texts: seq<string>)
    ensures forall t | t in texts :: '\0' !in t
  {
    if lines == [] then []
    else
      var text := Keep(CutComment(lines[0]));
      (if text == "" then [] else [text]) + Texts(lines[1..])
  }

  /** tests are the references of the first texts: of all, or of those in front of the first refused one. */
  predicate ParsedUpTo(ok: bool, tests: seq<TestRef>, texts: seq<string>)
    requires forall t | t in texts :: '\0' !in t
  {
    && |tests| <= |texts|
    && (forall i | 0 <= i < |tests| :: ParseTarget(Some(texts[i])) == Some(tests[i]))
    && (if ok then |tests| == |texts| else |tests| < |texts| && ParseTarget(Some(texts[|tests|])) == None)
  }

  lemma ParsedPrepend(ok: bool, tests: seq<TestRef>, texts: seq<string>, text: string, r: TestRef)
    requires (forall t | t in texts :: '\0' !in t) && '\0' !in text
    requires ParsedUpTo(ok, tests, texts) && ParseTarget(Some(text)) == Some(r)
    ensures forall t | t in [text] + texts :: '\0' !in t
    ensures ParsedUpTo(ok, [r] + tests, [text] + texts)
  {
    hide ParseTarget;
    var all, more := [r] + tests, [text] + texts;
    forall i | 0 <= i < |all| ensures ParseTarget(Some(more[i])) == Some(all[i]) {
      if i > 0 {
        assert more[i] == texts[i - 1] && all[i] == tests[i - 1];
      }
    }
    assert |tests| < |texts| ==> more[|all|] == texts[|tests|];
  }

  /**
   Of any file, whatever its lines are, the references of its lines are read in
   order up to the first text that is refused, and the file is refused iff there
   is one.  What follows the last line end counts for nothing.
   */
  lemma {:induction false} ScanReadsLines(lines: seq<string>, ends: string, tail: string)
    requires |lines| == |ends| && (forall i | 0 <= i < |ends| :: ends[i] == '\n' || ends[i] == '\r')
    requires (forall line | line in lines :: '\n' !in line && '\r' !in line) && '\n' !in tail && '\r' !in tail
    ensures var scan := ScanLines(FileOf(lines, ends, tail));
      ParsedUpTo(scan.ok, scan.tests, Texts(lines))
  {
    hide ParseTarget, Keep, CutComment;
    if lines == [] {
      assert !HasEnd(tail);
    } else {
      var rest := FileOf(lines[1..], ends[1..], tail);
      var contents := FileOf(lines, ends, tail);
      assert lines[0] in lines;
      assert contents[..|lines[0]|] == lines[0] && contents[|lines[0]|] == ends[0];
      assert contents[|lines[0]| + 1..] == rest;
      FirstEndIs(contents, |lines[0]|);
      ScanReadsLines(lines[1..], ends[1..], tail);
      var text := Keep(CutComment(lines[0]));
      var scan := ScanLines(rest);
      if text == "" {
        assert Texts(lines) == Texts(lines[1..]);
      } else if ParseTarget(Some(text)).Some? {
        ParsedPrepend(scan.ok, scan.tests, Texts(lines[1..]), text, ParseTarget(Some(text)).value);
      }
    }
  }

  // ----------------------------------------------------------- print and scan

  /** A line of a skip file: perhaps a test, among ignored characters and a comment. */
  datatype FileLine = FileLine(
    before: string,
    entry: Option<TestRef>,
    after: string,
    comment: Option<string>,
    end: char)

  predicate IsPadding(s: string) {
    forall i | 0 <= i < |s| :: !IsKept(s[i]) && !IsEnd(s[i]) && s[i] != '#'
  }

  predicate GoodLine(l: FileLine) {
    && IsPadding(l.before) && IsPadding(l.after) && IsEnd(l.end)
    && (l.comment.Some? ==> !HasEnd(l.comment.value))
  }

  function EntryText(l: FileLine): string {
    match l.entry case None => "" case Some(r) => PrintTarget(r)
  }

  function CommentText(l: FileLine): string {
    match l.comment case None => "" case Some(c) => "#" + c
  }

  function RenderLine(l: FileLine): string {
    l.before + EntryText(l) + l.after + CommentText(l) + [l.end]
  }

  function RenderFile(lines: seq<FileLine>): string {
    if lines == [] then "" else RenderLine(lines[0]) + RenderFile(lines[1..])
  }

  function Entries(lines: seq<FileLine>): seq<TestRef> {
    if lines == [] then []
    else (match lines[0].entry case None => [] case Some(r) => [r]) + Entries(lines[1..])
  }

  /** The references that printing and parsing keep, as ParseInvertsPrint says. */
  predicate Printable(r: TestRef) {
    Legal(r) && r.group <= LONG_MAX && r.xLev <= LONG_MAX && r.yLev <= LONG_MAX && r.zLev <= LONG_MAX
  }

  lemma {:induction false} CutAt(a: string, comment: string)
    requires '#' !in a && (comment != "" ==> comment[0] == '#')
    ensures CutComment(a + comment) == a
  {
    if a == "" {
      assert a + comment == comment;
    } else {
      assert (a + comment)[1..] == a[1..] + comment;
      CutAt(a[1..], comment);
      assert [a[0]] + a[1..] == a;
    }
  }

  lemma {:induction false} KeepPadding(s: string)
    requires IsPadding(s)
    ensures Keep(s) == ""
  {
    if s != "" {
      KeepPadding(s[..|s| - 1]);
    }
  }

  lemma {:induction false} KeepPlain(s: string)
    requires Plain(s)
    ensures Keep(s) == s
  {
    hide IsAlnum;
    if s != "" {
      KeepPlain(s[..|s| - 1]);
    }
  }

  lemma EntryIsPlain(l: FileLine)
    ensures Plain(EntryText(l)) && (EntryText(l) == "" <==> l.entry == None)
  {
    if l.entry.Some? {
      PrintedIsPlain(l.entry.value);
    }
  }

  lemma HasEndAppend(a: string, b: string)
    ensures HasEnd(a + b) <==> HasEnd(a) || HasEnd(b)
  {
    assert forall i | 0 <= i < |a| :: (a + b)[i] == a[i];
    assert forall i | 0 <= i < |b| :: (a + b)[|a| + i] == b[i];
  }

  lemma LineHasNoEnd(l: FileLine)
    requires GoodLine(l)
    ensures !HasEnd(l.before + EntryText(l) + l.after + CommentText(l))
  {
    hide EntryText;
    var text := EntryText(l);
    EntryIsPlain(l);
    HasEndAppend(l.before, text);
    HasEndAppend(l.before + text, l.after);
    HasEndAppend(l.before + text + l.after, CommentText(l));
    if l.comment.Some? {
      HasEndAppend("#", l.comment.value);
    }
  }

  /** What a line is reduced to is the text of its entry. */
  lemma LineText(l: FileLine)
    requires GoodLine(l)
    ensures Keep(CutComment(l.before + EntryText(l) + l.after + CommentText(l))) == EntryText(l)
  {
    hide EntryText, CutComment, Keep, HasEnd;
    EntryIsPlain(l);
    var text := EntryText(l);
    var front := l.before + text + l.after;
    assert forall i | 0 <= i < |text| :: text[i] != '#';
    CutAt(front, CommentText(l));
    KeepAppend(l.before + text, l.after);
    KeepAppend(l.before, text);
    KeepPadding(l.before);
    KeepPadding(l.after);
    KeepPlain(text);
  }

  lemma ScanOneLine(l: FileLine, rest: string)
    requires GoodLine(l)
    ensures '\0' !in EntryText(l)
    ensures ScanLines(RenderLine(l) + rest) == ScanLine(EntryText(l), rest)
  {
    var body := l.before + EntryText(l) + l.after + CommentText(l);
    var contents := RenderLine(l) + rest;
    LineText(l);
    LineHasNoEnd(l);
    assert contents == body + [l.end] + rest;
    assert contents[..|body|] == body && contents[|body|] == l.end && contents[|body| + 1..] == rest;
    FirstEndIs(contents, |body|);
  }

  /**
   Scanning a printed skip list gives the list back, whatever blank lines,
   comments and padding are put in, and whatever unterminated text follows.
   */
  lemma {:induction false} ScanInvertsRender(lines: seq<FileLine>, tail: string)
    requires forall l | l in lines :: GoodLine(l) && (l.entry.Some? ==> Printable(l.entry.value))
    requires !HasEnd(tail)
    ensures ScanLines(RenderFile(lines) + tail) == Scan(true, Entries(lines))
  {
    if lines == [] {
      assert RenderFile(lines) + tail == tail;
    } else {
      hide PrintTarget, ParseTarget, RenderLine;
      var l := lines[0];
      var rest := RenderFile(lines[1..]) + tail;
      assert l in lines;
      assert RenderFile(lines) + tail == RenderLine(l) + rest;
      ScanOneLine(l, rest);
      EntryIsPlain(l);
      ScanInvertsRender(lines[1..], tail);
      if l.entry.Some? {
        ParseInvertsPrint(l.entry.value);
      }
    }
  }
}
