/** Reading a composed patch gives back what was printed, and applying it turns
    the old file into the new one. */
module PatchRoundTrip {
  import opened Common
  import opened CQuoting
  import opened Text
  import opened PatchPrinter
  import opened PatchReader

  // ------------------------------------------------------- concatenations

  lemma Nest2(a: bytes, b: bytes, r: bytes)
    ensures a + b + r == a + (b + r)
  {
  }

  lemma Nest3(a: bytes, b: bytes, c: bytes, r: bytes)
    ensures a + b + c + r == a + (b + (c + r))
  {
    Nest2(a + b, c, r);
    Nest2(a, b, c + r);
  }

  lemma Nest4(a: bytes, b: bytes, c: bytes, d: bytes, r: bytes)
    ensures a + b + c + d + r == a + (b + (c + (d + r)))
  {
    Nest2(a + b + c, d, r);
    Nest3(a, b, c, d + r);
  }

  lemma Nest5(a: bytes, b: bytes, c: bytes, d: bytes, e: bytes, r: bytes)
    ensures a + b + c + d + e + r == a + (b + (c + (d + (e + r))))
  {
    Nest2(a + b + c + d, e, r);
    Nest4(a, b, c, d, e + r);
  }

  lemma Nest6(a: bytes, b: bytes, c: bytes, d: bytes, e: bytes, f: bytes, r: bytes)
    ensures a + b + c + d + e + f + r == a + (b + (c + (d + (e + (f + r)))))
  {
    Nest2(a + b + c + d + e, f, r);
    Nest5(a, b, c, d, e, f + r);
  }

  // --------------------------------------------------------------- tokens

  lemma TakeLineOf(l: bytes, r: bytes)
    requires Lacks(NEWLINE, l)
    ensures TakeLine(l + [NEWLINE] + r) == Some((l, r))
  {
    FindAt(NEWLINE, l, r);
    var s := l + [NEWLINE] + r;
    assert s[..|l|] == l && s[|l| + 1..] == r;
  }

  lemma ExpectOf(literal: bytes, r: bytes)
    ensures Expect(literal + r, literal) == Some(r)
    ensures StartsWith(literal + r, literal) && (literal + r)[|literal|..] == r
  {
    assert (literal + r)[..|literal|] == literal;
    assert (literal + r)[|literal|..] == r;
  }

  predicate DigitFree(r: bytes) { r == [] || !IsDigit(r[0]) }

  lemma {:induction false} ReadDigitsSnoc(acc: nat, s: bytes, d: byte, r: bytes)
    requires forall i :: 0 <= i < |s| ==> IsDigit(s[i])
    requires IsDigit(d)
    ensures ReadDigits(acc, s + [d] + r) == ReadDigits(10 * ReadDigits(acc, s).0 + (d as int - '0' as int), r)
    ensures ReadDigits(acc, s).1 == []
    decreases |s|
  {
    if s == [] {
      assert s + [d] + r == [d] + r;
      assert ([d] + r)[1..] == r;
    } else {
      assert (s + [d] + r)[1..] == s[1..] + [d] + r;
      ReadDigitsSnoc(10 * acc + (s[0] as int - '0' as int), s[1..], d, r);
    }
  }

  lemma {:induction false} DecimalDigits(n: nat)
    ensures |Decimal(n)| > 0 && forall i :: 0 <= i < |Decimal(n)| ==> IsDigit(Decimal(n)[i])
    ensures ReadDigits(0, Decimal(n)).0 == n
  {
    if n >= 10 {
      DecimalDigits(n / 10);
      ReadDigitsSnoc(0, Decimal(n / 10), Digit(n % 10), []);
      assert Decimal(n / 10) + [Digit(n % 10)] + [] == Decimal(n);
    }
  }

  lemma {:induction false} ReadNatOf(n: nat, r: bytes)
    requires DigitFree(r)
    ensures ReadNat(Decimal(n) + r) == Some((n, r))
  {
    DecimalDigits(n);
    var s := Decimal(n);
    var k := |s| - 1;
    assert s == s[..k] + [s[k]];
    ReadDigitsSnoc(0, s[..k], s[k], r);
    ReadDigitsSnoc(0, s[..k], s[k], []);
    assert s[..k] + [s[k]] + r == s + r;
    assert s[..k] + [s[k]] + [] == s;
    assert (s + r)[0] == s[0];
  }

  /** A printed range is read back with its count; the start is one digit. */
  lemma ReadRangeOf(start: byte, k: nat, r: bytes)
    requires IsDigit(start)
    requires DigitFree(r) && !StartsWith(r, ",")
    ensures ReadRange(Range(start, k) + r) == Some((start as int - '0' as int, k, r))
  {
    var d := start as int - '0' as int;
    assert Decimal(d) == [start];
    if k == 1 {
      ReadNatOf(d, r);
    } else {
      var tail := "," + (Decimal(k) + r);
      ReadNatOf(d, tail);
      ReadNatOf(k, r);
      assert Range(start, k) + r == Decimal(d) + tail;
      assert tail[..1] == "," && tail[1..] == Decimal(k) + r;
    }
  }

  // ---------------------------------------------------------------- names

  lemma PlainHeaderPath(path: bytes)
    ensures HeaderPath("a/" + path + (" " + ("b/" + path))) == Some(path)
  {
    var line := "a/" + path + (" " + ("b/" + path));
    assert line == "a/" + path + " b/" + path;
    assert line[..1] == "a";
    assert line[2..2 + |path|] == path;
  }

  lemma QuotedHeaderPath(path: bytes)
    requires IsBytes(path)
    ensures HeaderPath(Quoted("a/" + path) + (" " + Quoted("b/" + path))) == Some(path)
  {
    var x, y := "a/" + path, "b/" + path;
    var second := EscapeAll(y) + [QUOTE] + [];
    QuotedThen(x, " " + Quoted(y));
    UnquoteEscaped(x, " " + Quoted(y));
    assert " " + Quoted(y) == " \"" + second;
    ExpectOf(" \"", second);
    UnquoteEscaped(y, []);
    assert x[..2] == "a/" && x[2..] == path;
  }

  /** A path the unquoted header forms can hold: not taken for a quoted token, on one
      line, and without a tab where a name line ends at one. */
  predicate RawPath(path: bytes, onNameLine: bool) {
    !StartsWith(path, [QUOTE]) && Lacks(NEWLINE, path) && (onNameLine ==> Lacks(TAB, path))
  }

  lemma HeaderPathOf(path: bytes, quoting: bool)
    requires IsBytes(path) && (quoting || !StartsWith(path, [QUOTE]))
    ensures HeaderPath(HdrPath("a/", path, quoting) + " " + HdrPath("b/", path, quoting)) == Some(path)
  {
    HdrPathShape("a/", path);
    HdrPathShape("b/", path);
    PlainHeaderPath(path);
    QuotedHeaderPath(path);
    Nest2(HdrPath("a/", path, quoting), " ", HdrPath("b/", path, quoting));
  }

  lemma {:induction false} TabAtOf(s: bytes, t: bytes)
    requires Lacks(TAB, s)
    requires t == "" || t == "\t"
    ensures Find(TAB, s + t) == |s|
  {
    if s == [] {
    } else {
      assert (s + t)[1..] == s[1..] + t;
      TabAtOf(s[1..], t);
    }
  }

  lemma PlainFileName(name: bytes, t: bytes)
    requires Lacks(TAB, name) && name != [] && name[0] != QUOTE
    requires t == "" || t == "\t"
    ensures FileName(name + t) == Some(name)
  {
    TabAtOf(name, t);
    assert (name + t)[..|name|] == name;
    assert (name + t)[..1] == [name[0]];
  }

  lemma QuotedFileName(name: bytes, t: bytes)
    requires IsBytes(name)
    requires t == "" || t == "\t"
    ensures FileName(Quoted(name) + t) == Some(name)
  {
    UnquoteEscaped(name, t);
    QuotedThen(name, t);
  }

  lemma PlainHasNoTab(name: bytes)
    requires AllPlain(name)
    ensures Lacks(TAB, name) && (name != [] ==> name[0] != QUOTE)
  {
  }

  lemma FileNameOf(prefix: bytes, path: bytes, quoting: bool, t: bytes)
    requires AllPlain(prefix) && prefix != [] && IsBytes(path) && (quoting || RawPath(path, true))
    requires t == "" || t == "\t"
    ensures FileName(HdrPath(prefix, path, quoting) + t) == Some(prefix + path)
  {
    HdrPathShape(prefix, path);
    PlainHasNoTab(prefix);
    if !quoting || AllPlain(path) {
      if quoting {
        PlainHasNoTab(path);
      }
      PlainFileName(prefix + path, t);
    } else {
      assert forall i :: 0 <= i < |prefix| ==> Plain(prefix[i]);
      QuotedFileName(prefix + path, t);
    }
  }

  // ---------------------------------------------------------------- lines

  /** Printed lines as file lines: each with its newline, except an unterminated last one. */
  function RawLines(lines: seq<bytes>, trailing: bool): (raw: seq<bytes>)
    ensures |raw| == |lines|
  {
    if lines == [] then []
    else [if |lines| == 1 && !trailing then lines[0] else lines[0] + [NEWLINE]] + RawLines(lines[1..], trailing)
  }

  lemma DropTailCons(a: bytes, tail: seq<bytes>, trailing: bool)
    requires tail != []
    ensures DropTail([a] + tail, trailing) == [a] + DropTail(tail, trailing)
  {
  }

  lemma BodyLinesLast(c: bytes)
    requires Find(NEWLINE, c) + 1 == |c|
    ensures BodyLines(c) == [c[..|c| - 1]]
  {
    assert Split(NEWLINE, c[|c|..]) == [[]];
  }

  lemma EndsRest(c: bytes, j: nat)
    requires j < |c|
    ensures EndsWithNewline(c[j..]) == EndsWithNewline(c)
  {
  }

  lemma BodyLinesCons(c: bytes)
    requires Find(NEWLINE, c) + 1 < |c|
    ensures BodyLines(c) == [c[..Find(NEWLINE, c)]] + BodyLines(c[Find(NEWLINE, c) + 1..])
  {
    hide Find;
    var i, t := Find(NEWLINE, c), EndsWithNewline(c);
    var tail := Split(NEWLINE, c[i + 1..]);
    calc {
      BodyLines(c);
      DropTail([c[..i]] + tail, t);
      { DropTailCons(c[..i], tail, t); }
      [c[..i]] + DropTail(tail, t);
      { EndsRest(c, i + 1); }
      [c[..i]] + BodyLines(c[i + 1..]);
    }
  }

  /** For a non-empty file the printed lines are exactly the lines of the file. */
  lemma {:induction false} BodyIsFileLines(c: bytes)
    requires c != []
    ensures RawLines(BodyLines(c), EndsWithNewline(c)) == FileLines(c)
    decreases |c|
  {
    var i := Find(NEWLINE, c);
    if i == |c| {
      assert BodyLines(c) == [c];
    } else {
      assert c[..i] + [NEWLINE] == c[..i + 1];
      if i + 1 == |c| {
        BodyLinesLast(c);
      } else {
        BodyLinesCons(c);
        var rest := c[i + 1..];
        BodyIsFileLines(rest);
        assert EndsWithNewline(rest) == EndsWithNewline(c);
        assert BodyLines(c)[1..] == BodyLines(rest);
        assert FileLines(rest) != [];
      }
    }
  }

  lemma {:induction false} ConcatFileLines(c: bytes)
    ensures Concat(FileLines(c)) == c
    decreases |c|
  {
    hide Concat, Find;
    if c == [] {
      NoParts();
    } else {
      var i := Find(NEWLINE, c);
      if i == |c| {
        ConcatCons(c, []);
        NoParts();
        assert [c] + [] == [c] && c + [] == c;
      } else {
        ConcatFileLines(c[i + 1..]);
        ConcatCons(c[..i + 1], FileLines(c[i + 1..]));
        assert c[..i + 1] + c[i + 1..] == c;
      }
    }
  }

  lemma NoParts()
    ensures Concat<byte>([]) == []
  {
  }

  // ----------------------------------------------------------------- body

  predicate Unmarked(s: bytes) { !StartsWith(s, "\\ ") }

  type Body = (seq<bytes>, seq<bytes>, bytes)

  /** A body with lines added in front of its removed or its added lines. */
  function Adding(sign: byte, raw: seq<bytes>, body: Body): Body {
    if sign == '-' then (raw + body.0, body.1, body.2) else (body.0, raw + body.1, body.2)
  }

  lemma AddingTwice(sign: byte, a: seq<bytes>, b: seq<bytes>, body: Body)
    ensures Adding(sign, a, Adding(sign, b, body)) == Adding(sign, a + b, body)
  {
    assert a + (b + body.0) == a + b + body.0;
    assert a + (b + body.1) == a + b + body.1;
  }

  /** Whether `s` reads as `body` after the counts implied by the body itself. */
  predicate Reads(s: bytes, body: Body) {
    ReadBody(|body.0|, |body.1|, s) == Some(body)
  }

  lemma ReadLineOf(line: bytes, marked: bool, s: bytes)
    requires Lacks(NEWLINE, line) && Unmarked(s)
    ensures ReadLine(line + [NEWLINE] + ((if marked then MARKER else []) + s))
            == Some((if marked then line else line + [NEWLINE], s))
  {
    var tail := (if marked then MARKER else []) + s;
    TakeLineOf(line, tail);
    if marked {
      var m := "\\ No newline at end of file";
      assert MARKER == m + [NEWLINE] && MARKER[..2] == "\\ ";
      assert tail[..2] == MARKER[..2];
      TakeLineOf(m, s);
    } else {
      assert tail == s;
    }
  }

  /** Reading one printed line in front of a readable body. */
  lemma ReadOneLine(sign: byte, line: bytes, marked: bool, s: bytes, body: Body)
    requires sign == '-' || sign == '+'
    requires Lacks(NEWLINE, line) && Unmarked(s) && Reads(s, body)
    ensures Reads([sign] + (line + [NEWLINE] + ((if marked then MARKER else []) + s)),
                  Adding(sign, [if marked then line else line + [NEWLINE]], body))
  {
    hide ReadLine, Reads, Adding;
    var rest := line + [NEWLINE] + ((if marked then MARKER else []) + s);
    ReadLineOf(line, marked, s);
    ReadBodyStep(sign, rest, if marked then line else line + [NEWLINE], s, body);
  }

  lemma ReadBodyStep(sign: byte, rest: bytes, raw: bytes, s: bytes, body: Body)
    requires sign == '-' || sign == '+'
    requires ReadLine(rest) == Some((raw, s)) && |s| <= |rest| && Reads(s, body)
    ensures Reads([sign] + rest, Adding(sign, [raw], body))
  {
    hide ReadLine;
    var text := [sign] + rest;
    assert text[0] == sign && text[1..] == rest;
  }

  lemma PrintedUnmarked(sign: byte, lines: seq<bytes>, trailing: bool, s: bytes)
    requires sign == '-' || sign == '+'
    requires Unmarked(s)
    ensures Unmarked(PrintedLines(sign, lines, trailing) + s)
  {
    if lines == [] {
      assert PrintedLines(sign, lines, trailing) + s == s;
    } else {
      assert (PrintedLines(sign, lines, trailing) + s)[0] == sign;
    }
  }

  lemma PrintedCons(sign: byte, lines: seq<bytes>, trailing: bool, s: bytes)
    requires lines != []
    ensures PrintedLines(sign, lines, trailing) + s
            == [sign] + (lines[0] + [NEWLINE]
                         + ((if |lines| == 1 && !trailing then MARKER else [])
                            + (PrintedLines(sign, lines[1..], trailing) + s)))
  {
    PrintedStep(sign, lines, trailing);
    hide PrintedLines;
    var m, more := if |lines| == 1 && !trailing then MARKER else [], PrintedLines(sign, lines[1..], trailing);
    Nest5([sign], lines[0], [NEWLINE], m, more, s);
    Nest2(lines[0], [NEWLINE], m + (more + s));
  }

  lemma PrintedStep(sign: byte, lines: seq<bytes>, trailing: bool)
    requires lines != []
    ensures PrintedLines(sign, lines, trailing)
         == [sign] + lines[0] + [NEWLINE] + (if |lines| == 1 && !trailing then MARKER else [])
            + PrintedLines(sign, lines[1..], trailing)
  {
  }

  lemma {:induction false} ReadPrintedLines(sign: byte, lines: seq<bytes>, trailing: bool, s: bytes, body: Body)
    requires sign == '-' || sign == '+'
    requires forall i :: 0 <= i < |lines| ==> Lacks(NEWLINE, lines[i])
    requires Unmarked(s) && Reads(s, body)
    ensures Reads(PrintedLines(sign, lines, trailing) + s, Adding(sign, RawLines(lines, trailing), body))
  {
    if lines == [] {
      assert PrintedLines(sign, lines, trailing) + s == s;
      assert Adding(sign, [], body) == body by {
        assert [] + body.0 == body.0 && [] + body.1 == body.1;
      }
    } else {
      var rest := PrintedLines(sign, lines[1..], trailing) + s;
      var raw := RawLines(lines[1..], trailing);
      var marked := |lines| == 1 && !trailing;
      ReadPrintedLines(sign, lines[1..], trailing, s, body);
      PrintedUnmarked(sign, lines[1..], trailing, s);
      ReadOneLine(sign, lines[0], marked, rest, Adding(sign, raw, body));
      PrintedCons(sign, lines, trailing, s);
      AddingTwice(sign, [if marked then lines[0] else lines[0] + [NEWLINE]], raw, body);
    }
  }

  // ---------------------------------------------------------------- hunks

  lemma SpacedRange(start: byte, k: nat, literal: bytes, r: bytes)
    requires IsDigit(start)
    requires literal != [] && literal[0] == ' '
    ensures ReadRange(Range(start, k) + (literal + r)) == Some((start as int - '0' as int, k, literal + r))
    ensures Expect(literal + r, literal) == Some(r)
  {
    ExpectOf(literal, r);
    assert (literal + r)[0] == ' ';
    ReadRangeOf(start, k, literal + r);
  }

  lemma BodyRead(s: bytes, body: Body)
    requires Reads(s, body)
    ensures ReadBody(|body.0|, |body.1|, s) == Some(body)
  {
  }

  lemma ReadHunkOf(a: byte, b: byte, s: bytes, body: Body)
    requires IsDigit(a) && IsDigit(b)
    requires Reads(s, body)
    ensures ReadHunk("@@ -" + (Range(a, |body.0|) + (" +" + (Range(b, |body.1|) + (" @@\n" + s)))))
            == Some((Hunk(a as int - '0' as int, b as int - '0' as int, body.0, body.1), body.2))
  {
    hide ReadRange, Range, Expect, ReadBody;
    var s2 := Range(b, |body.1|) + (" @@\n" + s);
    BodyRead(s, body);
    SpacedRange(b, |body.1|, " @@\n", s);
    SpacedRange(a, |body.0|, " +", s2);
    ExpectOf("@@ -", Range(a, |body.0|) + (" +" + s2));
  }

  /** What may follow a section: nothing, or another section. */
  predicate SectionEnd(rest: bytes) {
    rest == [] || StartsWith(rest, "diff --git ")
  }

  lemma SectionEndUnmarked(rest: bytes)
    requires SectionEnd(rest)
    ensures Unmarked(rest) && !StartsWith(rest, "--- ")
  {
    if rest != [] {
      assert rest[..11][0] == 'd';
    }
  }

  /** The lines a composer prints for a file; for an empty file, one empty unterminated line. */
  function Printed(c: bytes): seq<bytes> {
    RawLines(BodyLines(c), EndsWithNewline(c))
  }

  lemma PrintedIs(c: bytes)
    ensures Printed(c) == if c == [] then [[]] else FileLines(c)
    ensures forall i :: 0 <= i < |BodyLines(c)| ==> Lacks(NEWLINE, BodyLines(c)[i])
  {
    SplitLacks(NEWLINE, c);
    if c != [] {
      BodyIsFileLines(c);
    }
  }

  lemma EmptyRange()
    ensures Range('0', 0) == "0,0"
    ensures "@@ -0,0 +0,0 @@\n" == "@@ -" + Range('0', 0) + " +" + Range('0', 0) + " @@\n"
  {
    assert Decimal(0) == "0";
    assert ['0'] + "," + "0" == "0,0";
  }

  lemma ReadEmptyHunk(rest: bytes)
    ensures ReadHunk("@@ -0,0 +0,0 @@\n" + rest) == Some((Hunk(0, 0, [], []), rest))
  {
    hide ReadHunk;
    ReadHunkOf('0', '0', rest, ([], [], rest));
    EmptyRange();
    Nest5("@@ -", Range('0', 0), " +", Range('0', 0), " @@\n", rest);
  }

  lemma NewFileHunkNested(lines: seq<bytes>, t: bool, rest: bytes)
    ensures "@@ -0,0 +" + Range('1', |lines|) + " @@\n" + PrintedLines('+', lines, t) + rest
            == "@@ -" + (Range('0', 0)
                         + (" +" + (Range('1', |lines|) + (" @@\n" + (PrintedLines('+', lines, t) + rest)))))
  {
    assert Decimal(0) == "0";
    assert "@@ -0,0 +" == "@@ -" + Range('0', 0) + " +";
    Nest6("@@ -", Range('0', 0), " +", Range('1', |lines|), " @@\n", PrintedLines('+', lines, t), rest);
  }

  lemma NothingRead(rest: bytes)
    ensures Reads(rest, ([], [], rest))
  {
  }

  lemma ReadNewFileHunk(content: bytes, rest: bytes)
    requires SectionEnd(rest)
    ensures ReadHunk(NewFileHunk(content) + rest)
            == Some((if content == [] then Hunk(0, 0, [], []) else Hunk(0, 1, [], FileLines(content)), rest))
  {
    hide ReadHunk, ReadBody, ReadLine, PrintedLines, BodyLines, Range, SectionEnd;
    if content == [] {
      ReadEmptyHunk(rest);
    } else {
      var lines, t := BodyLines(content), EndsWithNewline(content);
      SectionEndUnmarked(rest);
      PrintedIs(content);
      NothingRead(rest);
      ReadPrintedLines('+', lines, t, rest, ([], [], rest));
      assert Printed(content) + [] == Printed(content);
      ReadHunkOf('0', '1', PrintedLines('+', lines, t) + rest, ([], Printed(content), rest));
      NewFileHunkNested(lines, t, rest);
    }
  }

  lemma ModifyHunkNested(old_: bytes, new_: bytes, rest: bytes)
    ensures
      var ol, nl := BodyLines(old_), BodyLines(new_);
      ModifyHunk(old_, new_) + rest
      == "@@ -" + (Range('1', |ol|) + (" +" + (Range('1', |nl|) + (" @@\n" +
         (PrintedLines('-', ol, EndsWithNewline(old_)) + (PrintedLines('+', nl, EndsWithNewline(new_)) + rest))))))
  {
    var ol, ot, nl, nt := BodyLines(old_), EndsWithNewline(old_), BodyLines(new_), EndsWithNewline(new_);
    var head := "@@ -" + Range('1', |ol|) + " +" + Range('1', |nl|) + " @@\n";
    Nest2(head + PrintedLines('-', ol, ot), PrintedLines('+', nl, nt), rest);
    Nest6("@@ -", Range('1', |ol|), " +", Range('1', |nl|), " @@\n", PrintedLines('-', ol, ot),
          PrintedLines('+', nl, nt) + rest);
  }

  lemma ReadModifyBody(old_: bytes, new_: bytes, rest: bytes)
    requires SectionEnd(rest)
    ensures Reads(PrintedLines('-', BodyLines(old_), EndsWithNewline(old_))
                  + (PrintedLines('+', BodyLines(new_), EndsWithNewline(new_)) + rest),
                  (Printed(old_), Printed(new_), rest))
  {
    SectionEndUnmarked(rest);
    PrintedIs(old_);
    PrintedIs(new_);
    ReadPrintedLines('+', BodyLines(new_), EndsWithNewline(new_), rest, ([], [], rest));
    assert Printed(new_) + [] == Printed(new_);
    PrintedUnmarked('+', BodyLines(new_), EndsWithNewline(new_), rest);
    ReadPrintedLines('-', BodyLines(old_), EndsWithNewline(old_),
                     PrintedLines('+', BodyLines(new_), EndsWithNewline(new_)) + rest, ([], Printed(new_), rest));
    assert Printed(old_) + [] == Printed(old_);
  }

  lemma ReadModifyHunk(old_: bytes, new_: bytes, rest: bytes)
    requires SectionEnd(rest)
    ensures ReadHunk(ModifyHunk(old_, new_) + rest) == Some((Hunk(1, 1, Printed(old_), Printed(new_)), rest))
  {
    ModifyHunkNested(old_, new_, rest);
    ReadModifyBody(old_, new_, rest);
    var body := PrintedLines('-', BodyLines(old_), EndsWithNewline(old_))
              + (PrintedLines('+', BodyLines(new_), EndsWithNewline(new_)) + rest);
    ReadHunkOf('1', '1', body, (Printed(old_), Printed(new_), rest));
  }

  // ------------------------------------------------------------- sections

  /** What a change means to the reader. */
  function Meaning(c: Change): FileChange {
    match c
    case NewFile(path, content, mode, form, _) =>
      FileChange(path, Some(mode),
        if content != [] then [Hunk(0, 1, [], FileLines(content))]
        else if form != ExplicitRange then [] else [Hunk(0, 0, [], [])])
    case Modify(path, old_, new_, _) =>
      FileChange(path, None, [Hunk(1, 1, Printed(old_), Printed(new_))])
  }

  /** A section with `---` and `+++` lines. */
  predicate HasNames(c: Change) {
    c.NewFile? ==> c.content != [] || c.form == ExplicitRange
  }

  /** A path is a byte string, any at all when it is quoted; a mode is one header field
      and holds no newline. */
  predicate Printable(c: Change) {
    && IsBytes(c.path) && (c.quoting || RawPath(c.path, HasNames(c)))
    && (c.NewFile? ==> Lacks(NEWLINE, c.mode))
  }

  lemma ReadNamedOf(path: bytes, created: Option<bytes>, oldLine: bytes, newLine: bytes, h: bytes,
                    hunk: Hunk, rest: bytes)
    requires Lacks(NEWLINE, oldLine) && Lacks(NEWLINE, newLine)
    requires FileName(oldLine) == Some(if created.Some? then "/dev/null" else "a/" + path)
    requires FileName(newLine) == Some("b/" + path)
    requires ReadHunk(h) == Some((hunk, rest))
    ensures ReadNamed(path, created, FileNames(oldLine, newLine) + h)
            == Some((FileChange(path, created, [hunk]), rest))
    ensures StartsWith(FileNames(oldLine, newLine) + h, "--- ")
  {
    var s2 := newLine + [NEWLINE] + h;
    var s1 := "+++ " + s2;
    var s0 := oldLine + [NEWLINE] + s1;
    TakeLineOf(newLine, h);
    ExpectOf("+++ ", s2);
    TakeLineOf(oldLine, s1);
    ExpectOf("--- ", s0);
    Nest6("--- ", oldLine, "\n", "+++ ", newLine, "\n", h);
    assert FileNames(oldLine, newLine) + h == "--- " + s0 by {
      Nest2(oldLine, [NEWLINE], s1);
      Nest2(newLine, [NEWLINE], h);
    }
  }

  lemma TokenOnLine(prefix: bytes, path: bytes, quoting: bool)
    requires AllPlain(prefix) && (quoting || RawPath(path, false))
    ensures Lacks(NEWLINE, HdrPath(prefix, path, quoting))
  {
    if quoting {
      HdrPathClean(prefix, path);
    }
  }

  lemma OneLine(a: bytes, b: bytes)
    requires Lacks(NEWLINE, a) && Lacks(NEWLINE, b)
    ensures Lacks(NEWLINE, a + " " + b)
  {
  }

  lemma NotQuoted(path: bytes, quoting: bool)
    requires quoting || RawPath(path, false)
    ensures quoting || !StartsWith(path, [QUOTE])
  {
  }

  lemma ReadHeader(path: bytes, quoting: bool, s: bytes)
    requires IsBytes(path) && (quoting || RawPath(path, false))
    ensures
      var line := HdrPath("a/", path, quoting) + " " + HdrPath("b/", path, quoting);
      GitHeader(path, quoting) + s == "diff --git " + (line + [NEWLINE] + s)
      && Expect(GitHeader(path, quoting) + s, "diff --git ") == Some(line + [NEWLINE] + s)
      && TakeLine(line + [NEWLINE] + s) == Some((line, s))
      && HeaderPath(line) == Some(path)
  {
    hide HdrPath, HeaderPath, TakeLine, Expect, IsBytes, RawPath;
    var a, b := HdrPath("a/", path, quoting), HdrPath("b/", path, quoting);
    var line := a + " " + b;
    TokenOnLine("a/", path, quoting);
    TokenOnLine("b/", path, quoting);
    OneLine(a, b);
    NotQuoted(path, quoting);
    TakeLineOf(line, s);
    ExpectOf("diff --git ", line + [NEWLINE] + s);
    HeaderPathOf(path, quoting);
    Nest5("diff --git ", a, " ", b, "\n", s);
    Nest4(a, " ", b, "\n", s);
  }

  lemma ReadChangeNew(path: bytes, quoting: bool, mode: bytes, body: bytes)
    requires IsBytes(path) && (quoting || RawPath(path, false)) && Lacks(NEWLINE, mode)
    ensures ReadChange(GitHeader(path, quoting) + ("new file mode " + mode + "\n") + body)
            == if StartsWith(body, "--- ") then ReadNamed(path, Some(mode), body)
               else Some((FileChange(path, Some(mode), []), body))
  {
    var s := "new file mode " + (mode + [NEWLINE] + body);
    Nest2(GitHeader(path, quoting), "new file mode " + mode + "\n", body);
    Nest3("new file mode ", mode, "\n", body);
    Nest2(mode, "\n", body);
    ReadHeader(path, quoting, s);
    ExpectOf("new file mode ", mode + [NEWLINE] + body);
    TakeLineOf(mode, body);
  }

  lemma NotModeLine(s: bytes)
    requires StartsWith(s, "--- ")
    ensures !StartsWith(s, "new file mode ")
  {
    assert s[0] == s[..4][0];
    assert |s| >= 14 ==> s[..14][0] == s[0];
  }

  lemma ReadChangeOld(path: bytes, quoting: bool, s: bytes)
    requires IsBytes(path) && (quoting || RawPath(path, false)) && StartsWith(s, "--- ")
    ensures ReadChange(GitHeader(path, quoting) + s) == ReadNamed(path, None, s)
  {
    ReadHeader(path, quoting, s);
    NotModeLine(s);
  }

  lemma DevNullRead()
    ensures FileName("/dev/null") == Some("/dev/null") && Lacks(NEWLINE, "/dev/null")
  {
    var name: bytes := "/dev/null";
    assert name + "" == name;
    assert AllPlain(name) && name[0] == '/';
    PlainHasNoTab(name);
    hide FileName;
    PlainFileName(name, "");
  }

  lemma NameRead(prefix: bytes, path: bytes, quoting: bool, t: bytes)
    requires IsBytes(path) && (quoting || RawPath(path, true)) && (t == "" || t == "\t")
    requires prefix == "a/" || prefix == "b/"
    ensures FileName(HdrPath(prefix, path, quoting) + t) == Some(prefix + path)
    ensures Lacks(NEWLINE, HdrPath(prefix, path, quoting) + t)
  {
    hide HdrPath, FileName, RawPath;
    RawOnNameLine(path);
    FileNameOf(prefix, path, quoting, t);
    TokenOnLine(prefix, path, quoting);
  }

  lemma RawOnNameLine(path: bytes)
    ensures RawPath(path, true) ==> RawPath(path, false)
  {
  }

  lemma ReadNewFile(c: Change, rest: bytes)
    requires c.NewFile? && Printable(c) && SectionEnd(rest)
    ensures ReadChange(Show(c) + rest) == Some((Meaning(c), rest))
  {
    var head := GitHeader(c.path, c.quoting) + ("new file mode " + c.mode + "\n");
    if c.content == [] && c.form != ExplicitRange {
      assert Show(c) == head + [] == head;
      SectionEndUnmarked(rest);
      ReadChangeNew(c.path, c.quoting, c.mode, rest);
    } else {
      var t := if c.form == TabAfterName then "\t" else "";
      var names := FileNames("/dev/null", HdrPath("b/", c.path, c.quoting) + t);
      var h := NewFileHunk(c.content);
      assert Show(c) == head + (names + h);
      Nest2(head, names + h, rest);
      Nest2(names, h, rest);
      DevNullRead();
      NameRead("b/", c.path, c.quoting, t);
      ReadNewFileHunk(c.content, rest);
      ReadNamedOf(c.path, Some(c.mode), "/dev/null", HdrPath("b/", c.path, c.quoting) + t, h + rest,
                  if c.content == [] then Hunk(0, 0, [], []) else Hunk(0, 1, [], FileLines(c.content)), rest);
      ReadChangeNew(c.path, c.quoting, c.mode, names + (h + rest));
    }
  }

  lemma ReadModify(c: Change, rest: bytes)
    requires c.Modify? && Printable(c) && SectionEnd(rest)
    ensures ReadChange(Show(c) + rest) == Some((Meaning(c), rest))
  {
    var a, b := HdrPath("a/", c.path, c.quoting), HdrPath("b/", c.path, c.quoting);
    var h := ModifyHunk(c.old_, c.new_) + rest;
    NameRead("a/", c.path, c.quoting, "");
    NameRead("b/", c.path, c.quoting, "");
    assert a + "" == a && b + "" == b;
    ReadModifyHunk(c.old_, c.new_, rest);
    ReadNamedOf(c.path, None, a, b, h, Hunk(1, 1, Printed(c.old_), Printed(c.new_)), rest);
    ReadChangeOld(c.path, c.quoting, FileNames(a, b) + h);
    Nest3(GitHeader(c.path, c.quoting), FileNames(a, b), ModifyHunk(c.old_, c.new_), rest);
  }

  // -------------------------------------------------------------- patches

  /** The joined sections of a patch. */
  function ShowPatch(cs: seq<Change>): bytes {
    if cs == [] then [] else Show(cs[0]) + ShowPatch(cs[1..])
  }

  function Meanings(cs: seq<Change>): seq<FileChange> {
    if cs == [] then [] else [Meaning(cs[0])] + Meanings(cs[1..])
  }

  lemma StartsAppend(s: bytes, literal: bytes, r: bytes)
    requires StartsWith(s, literal)
    ensures StartsWith(s + r, literal)
  {
    assert (s + r)[..|literal|] == s[..|literal|];
  }

  lemma HeaderStart(path: bytes, quoting: bool, r: bytes)
    ensures StartsWith(GitHeader(path, quoting) + r, "diff --git ")
  {
    var a, b := HdrPath("a/", path, quoting), HdrPath("b/", path, quoting);
    Nest5("diff --git ", a, " ", b, "\n", r);
    ExpectOf("diff --git ", a + (" " + (b + ("\n" + r))));
  }

  lemma ShowStart(c: Change, rest: bytes)
    ensures StartsWith(Show(c) + rest, "diff --git ") && |Show(c) + rest| > |rest|
  {
    var h := GitHeader(c.path, c.quoting);
    if c.NewFile? {
      var m := "new file mode " + c.mode + "\n";
      HeaderStart(c.path, c.quoting, m);
      StartsAppend(h + m, "diff --git ", Show(c)[|h + m|..]);
      assert Show(c) == h + m + Show(c)[|h + m|..];
    } else {
      var n := FileNames(HdrPath("a/", c.path, c.quoting), HdrPath("b/", c.path, c.quoting));
      HeaderStart(c.path, c.quoting, n);
      StartsAppend(h + n, "diff --git ", ModifyHunk(c.old_, c.new_));
    }
    StartsAppend(Show(c), "diff --git ", rest);
  }

  lemma ReadShown(c: Change, rest: bytes)
    requires Printable(c) && SectionEnd(rest)
    ensures ReadChange(Show(c) + rest) == Some((Meaning(c), rest))
  {
    if c.NewFile? { ReadNewFile(c, rest); } else { ReadModify(c, rest); }
  }

  lemma ReadPatchStep(s: bytes, c: FileChange, rest: bytes, cs: seq<FileChange>)
    requires |rest| < |s| && ReadChange(s) == Some((c, rest)) && ReadPatch(rest) == Some(cs)
    ensures ReadPatch(s) == Some([c] + cs)
  {
  }

  /** A concatenation of sections reads back as the list of changes it was
      printed from, whatever the contents look like. */
  lemma {:induction false} PatchRoundTrip(cs: seq<Change>)
    requires forall i :: 0 <= i < |cs| ==> Printable(cs[i])
    ensures ReadPatch(ShowPatch(cs)) == Some(Meanings(cs))
    ensures SectionEnd(ShowPatch(cs))
  {
    if cs != [] {
      var rest := ShowPatch(cs[1..]);
      PatchRoundTrip(cs[1..]);
      ShowStart(cs[0], rest);
      ReadShown(cs[0], rest);
      ReadPatchStep(Show(cs[0]) + rest, Meaning(cs[0]), rest, Meanings(cs[1..]));
    }
  }

  // ------------------------------------------------------------- applying

  lemma OnlySection(s: bytes, c: FileChange)
    requires ReadChange(s + []) == Some((c, [])) && |s + []| > 0
    ensures ReadPatch(s) == Some([c])
  {
    assert s + [] == s;
    ReadPatchStep(s, c, [], []);
    assert [c] + [] == [c];
  }

  lemma OneSection(c: Change)
    requires Printable(c)
    ensures ReadPatch(Show(c)) == Some([Meaning(c)])
  {
    ReadShown(c, []);
    ShowStart(c, []);
    OnlySection(Show(c), Meaning(c));
  }

  lemma ApplyCreated(start: nat, post: seq<bytes>)
    ensures ApplyHunk(Hunk(0, start, [], post), []) == Some(Concat(post))
  {
    var none: seq<bytes> := [];
    assert none[..0] + post + none[0..] == post;
  }

  /** A new-file patch yields its path, mode and content, for every content. */
  lemma NewFileRoundTrip(c: Change)
    requires c.NewFile? && Printable(c)
    ensures ReadPatch(Show(c)) == Some([Meaning(c)])
    ensures Meaning(c).path == c.path && Meaning(c).created == Some(c.mode)
    ensures Apply(Meaning(c), None) == Some(c.content)
  {
    OneSection(c);
    ConcatFileLines(c.content);
    ApplyCreated(1, FileLines(c.content));
    ApplyCreated(0, []);
  }

  lemma WholeFileHunk(pre: seq<bytes>, post: seq<bytes>, lines: seq<bytes>)
    requires |pre| >= 1
    ensures ApplyHunk(Hunk(1, 1, pre, post), pre) == Some(Concat(post))
    ensures |lines| < |pre| ==> ApplyHunk(Hunk(1, 1, pre, post), lines) == None
  {
    assert pre[..0] + post + pre[|pre|..] == post;
    assert pre[0..|pre|] == pre;
  }

  /** A modify patch turns `old` into `new`, and its reverse turns `new` into
      `old`. Forward application needs a non-empty `old`, reverse application a
      non-empty `new`: an empty file has no lines, but the composer prints one. */
  lemma ModifyRoundTrip(path: bytes, old_: bytes, new_: bytes, quoting: bool)
    requires IsBytes(path) && (quoting || RawPath(path, true))
    ensures
      var c := Modify(path, old_, new_, quoting);
      && ReadPatch(Show(c)) == Some([Meaning(c)]) && Meaning(c).path == path
      && (Apply(Meaning(c), Some(old_)) == Some(new_) <==> old_ != [])
      && (Apply(Reverse(Meaning(c)), Some(new_)) == Some(old_) <==> new_ != [])
  {
    OneSection(Modify(path, old_, new_, quoting));
    PrintedIs(old_);
    PrintedIs(new_);
    ConcatFileLines(old_);
    ConcatFileLines(new_);
    var blank: seq<bytes> := [[]];
    assert Concat(blank) == [];
    WholeFileHunk(Printed(old_), Printed(new_), FileLines(old_));
    WholeFileHunk(Printed(new_), Printed(old_), FileLines(new_));
  }

  // ----------------------------------------------------------- unquoted paths

  /** The path read from a header line is shorter than the line by fixed parts. */
  lemma HeaderPathLength(line: bytes)
    requires HeaderPath(line).Some?
    ensures |line| >= 2 * |HeaderPath(line).value| + (if StartsWith(line, [QUOTE]) then 9 else 5)
  {
    if StartsWith(line, [QUOTE]) {
      var (x, r) := Unquote(line[1..]).value;
      UnquoteShrinks(line[1..]);
      assert r[..2] == " \"";
      UnquoteShrinks(r[2..]);
    }
  }

  /** What a section that reads back has in its first line. */
  lemma FirstLineHasPath(s: bytes, c: FileChange)
    requires ReadPatch(s) == Some([c])
    ensures |s| >= 11 && TakeLine(s[11..]).Some? && HeaderPath(TakeLine(s[11..]).value.0) == Some(c.path)
  {
    hide TakeLine, HeaderPath, ReadHunk, FileName;
    var first, rest := ReadChange(s).value.0, ReadChange(s).value.1;
    assert [c][0] == c && ReadPatch(s).value[0] == first;
    NamedKeepsPath(s);
  }

  lemma NamedKeepsPath(s: bytes)
    requires ReadChange(s).Some?
    ensures |s| >= 11 && TakeLine(s[11..]).Some?
    ensures HeaderPath(TakeLine(s[11..]).value.0) == Some(ReadChange(s).value.0.path)
  {
    hide TakeLine, HeaderPath, ReadHunk, FileName;
  }

  lemma AfterHeader(c: Change) returns (rest: bytes)
    ensures Show(c) == GitHeader(c.path, c.quoting) + rest
  {
    hide GitHeader, HdrPath, NewFileHunk, ModifyHunk;
    rest := Show(c)[|GitHeader(c.path, c.quoting)|..];
  }

  /** The first line of an unquoted section, up to the first newline of the path. */
  lemma RawFirstLine(c: Change)
    requires !c.quoting
    ensures |Show(c)| >= 11 && TakeLine(Show(c)[11..]).Some?
    ensures
      var a, b := HdrPath("a/", c.path, false), HdrPath("b/", c.path, false);
      var line := TakeLine(Show(c)[11..]).value.0;
      line == (a + " " + b)[..Find(NEWLINE, a + " " + b)]
  {
    hide Show, HdrPath, TakeLine;
    var a, b := HdrPath("a/", c.path, false), HdrPath("b/", c.path, false);
    var line := a + " " + b;
    var rest := AfterHeader(c);
    Nest5("diff --git ", a, " ", b, "\n", rest);
    Nest4(a, " ", b, "\n", rest);
    assert Show(c) == "diff --git " + (line + ([NEWLINE] + rest));
    assert Show(c)[11..] == line + ([NEWLINE] + rest);
    FirstNewline(line, rest);
  }

  lemma {:induction false} FirstNewline(line: bytes, rest: bytes)
    ensures TakeLine(line + ([NEWLINE] + rest)).Some?
    ensures TakeLine(line + ([NEWLINE] + rest)).value.0 == line[..Find(NEWLINE, line)]
  {
    var s, i := line + ([NEWLINE] + rest), Find(NEWLINE, line);
    assert s[i] == NEWLINE && forall k :: 0 <= k < i ==> s[k] == line[k];
    assert Find(NEWLINE, s) == i;
    assert s[..i] == line[..i];
  }

  /** A path taken for a quoted token loses its first and last byte. */
  lemma QuotedPathLost(path: bytes, line: bytes)
    requires StartsWith(path, [QUOTE])
    requires StartsWith(line, [QUOTE]) && |line| <= |HdrPath("a/", path, false) + " " + HdrPath("b/", path, false)|
    ensures HeaderPath(line) != Some(path)
  {
    hide HeaderPath;
    var inner := if |path| >= 2 then path[1..|path| - 1] else [];
    assert |HdrPath("a/", path, false)| == |inner| + 4 && |HdrPath("b/", path, false)| == |inner| + 4;
    if HeaderPath(line).Some? {
      HeaderPathLength(line);
    }
  }

  /** A path with a newline is longer than what stands on the first line. */
  lemma BrokenPathLost(path: bytes, line: bytes)
    requires |line| < 2 + |path|
    ensures HeaderPath(line) != Some(path)
  {
    hide HeaderPath;
    if HeaderPath(line).Some? {
      HeaderPathLength(line);
    }
  }

  /** A path that starts with a quote, or holds a newline, is not what the first line says. */
  lemma RawHeaderLost(c: Change)
    requires !c.quoting && !RawPath(c.path, false)
    ensures |Show(c)| >= 11 && TakeLine(Show(c)[11..]).Some?
    ensures HeaderPath(TakeLine(Show(c)[11..]).value.0) != Some(c.path)
  {
    hide Show, TakeLine, HeaderPath;
    RawFirstLine(c);
    var a, b := HdrPath("a/", c.path, false), HdrPath("b/", c.path, false);
    var whole := a + " " + b;
    var line := whole[..Find(NEWLINE, whole)];
    if StartsWith(c.path, [QUOTE]) {
      assert whole[0] == QUOTE && QUOTE != NEWLINE;
      assert |line| >= 1 && line[..1] == [QUOTE];
      QuotedPathLost(c.path, line);
    } else {
      var i := Find(NEWLINE, c.path);
      assert a == "a/" + c.path && whole[2 + i] == NEWLINE;
      BrokenPathLost(c.path, line);
    }
  }

  lemma ReadNamedFails(path: bytes, created: Option<bytes>, oldLine: bytes, newLine: bytes, h: bytes)
    requires Lacks(NEWLINE, oldLine) && Lacks(NEWLINE, newLine) && FileName(newLine) != Some("b/" + path)
    ensures ReadNamed(path, created, FileNames(oldLine, newLine) + h) == None
    ensures StartsWith(FileNames(oldLine, newLine) + h, "--- ")
  {
    hide FileName, ReadHunk;
    var s2 := newLine + [NEWLINE] + h;
    var s1 := "+++ " + s2;
    var s0 := oldLine + [NEWLINE] + s1;
    TakeLineOf(newLine, h);
    ExpectOf("+++ ", s2);
    TakeLineOf(oldLine, s1);
    ExpectOf("--- ", s0);
    Nest6("--- ", oldLine, "\n", "+++ ", newLine, "\n", h);
    assert FileNames(oldLine, newLine) + h == "--- " + s0 by {
      Nest2(oldLine, [NEWLINE], s1);
      Nest2(newLine, [NEWLINE], h);
    }
  }

  /** A name line ends at the first tab of an unquoted path. */
  lemma TabCutsName(path: bytes, t: bytes)
    requires !Lacks(TAB, path)
    ensures FileName("b/" + path + t) != Some("b/" + path)
  {
    var line := "b/" + path + t;
    var i :| 0 <= i < |path| && path[i] == TAB;
    assert line[2 + i] == TAB;
    assert Find(TAB, line) <= 2 + i;
    assert line[..1] == "b";
  }

  lemma RawNameLost(c: Change)
    requires !c.quoting && IsBytes(c.path) && (c.NewFile? ==> Lacks(NEWLINE, c.mode))
    requires RawPath(c.path, false) && HasNames(c) && !Lacks(TAB, c.path)
    ensures ReadPatch(Show(c)) == None
  {
    hide FileName, ReadNamed, HeaderPath, NewFileHunk, ModifyHunk, ReadHunk;
    if c.NewFile? {
      var t := if c.form == TabAfterName then "\t" else "";
      var head := GitHeader(c.path, false) + ("new file mode " + c.mode + "\n");
      var newLine := HdrPath("b/", c.path, false) + t;
      var names, h := FileNames("/dev/null", newLine), NewFileHunk(c.content);
      assert Show(c) == head + (names + h);
      TabCutsName(c.path, t);
      DevNullRead();
      ReadNamedFails(c.path, Some(c.mode), "/dev/null", newLine, h);
      ReadChangeNew(c.path, false, c.mode, names + h);
    } else {
      var a, b := HdrPath("a/", c.path, false), HdrPath("b/", c.path, false);
      var names, h := FileNames(a, b), ModifyHunk(c.old_, c.new_);
      assert Show(c) == GitHeader(c.path, false) + (names + h) by {
        Nest2(GitHeader(c.path, false), names, h);
      }
      TabCutsName(c.path, "");
      assert b + "" == b;
      ReadNamedFails(c.path, None, a, b, h);
      ReadChangeOld(c.path, false, names + h);
    }
    ShowStart(c, []);
    assert Show(c) + [] == Show(c);
  }

  /** Without quoting a section reads back exactly when its path does not start with a
      quote, holds no newline, and holds no tab unless the section has no name lines. */
  lemma RawSectionIff(c: Change)
    requires !c.quoting && IsBytes(c.path) && (c.NewFile? ==> Lacks(NEWLINE, c.mode))
    ensures ReadPatch(Show(c)) == Some([Meaning(c)]) <==> RawPath(c.path, HasNames(c))
  {
    hide Show, ReadPatch, HeaderPath, TakeLine;
    if RawPath(c.path, HasNames(c)) {
      OneSection(c);
    } else if RawPath(c.path, false) {
      RawNameLost(c);
    } else {
      RawHeaderLost(c);
      MeaningPath(c);
      if ReadPatch(Show(c)) == Some([Meaning(c)]) {
        FirstLineHasPath(Show(c), Meaning(c));
      }
    }
  }

  lemma MeaningPath(c: Change)
    ensures Meaning(c).path == c.path
  {
  }
}
