/** The patch composers of probes/z5: `compose_new_file` and `compose_modify`
    (probe4_apply_check.py) and `compose_new` (probe4b_apply_real.py). */
module PatchPrinter {
  import opened CQuoting
  import opened Text

  const MARKER: bytes := "\\ No newline at end of file\n"

  // -------------------------------------------------------------- numbers

  function Digit(d: int): byte
    requires 0 <= d < 10
  {
    ('0' as int + d) as char
  }

  /** `%d` of a natural number. */
  function Decimal(n: nat): bytes {
    if n < 10 then [Digit(n)] else Decimal(n / 10) + [Digit(n % 10)]
  }

  // ---------------------------------------------------------------- lines

  function DropTail(lines: seq<bytes>, trailing: bool): seq<bytes>
    requires lines != []
  {
    if trailing then lines[..|lines| - 1] else lines
  }

  /** The lines a composer prints: the split without the empty tail that a
      final newline leaves behind. */
  function BodyLines(c: bytes): seq<bytes> {
    DropTail(Split(NEWLINE, c), EndsWithNewline(c))
  }

  /** One printed line per source line, with the no-newline marker after the
      last one when the content does not end in a newline. */
  function PrintedLines(sign: byte, lines: seq<bytes>, trailing: bool): bytes {
    if lines == [] then []
    else
      [sign] + lines[0] + [NEWLINE]
      + (if |lines| == 1 && !trailing then MARKER else [])
      + PrintedLines(sign, lines[1..], trailing)
  }

  /** The body loop shared by the three composers. */
  method PrintLines(sign: byte, lines: seq<bytes>, trailing: bool) returns (out: bytes)
    ensures out == PrintedLines(sign, lines, trailing)
  {
    out := [];
    var n := |lines|;
    for i := 0 to n
      invariant out + PrintedLines(sign, lines[i..], trailing) == PrintedLines(sign, lines, trailing)
    {
      var rest := lines[i..];
      assert rest[1..] == lines[i + 1..];
      out := out + [sign] + lines[i] + [NEWLINE];
      if i == n - 1 && !trailing {
        out := out + MARKER;
      }
    }
  }

  // ------------------------------------------------------------- sections

  /** The header forms: git's own, an explicit empty range for an empty file,
      or a tab after the new name. */
  datatype Form = GitForm | ExplicitRange | TabAfterName

  /** One change to print; `quoting` is the `quote_nonascii` of the composers. */
  datatype Change =
    | NewFile(path: bytes, content: bytes, mode: bytes, form: Form, quoting: bool)
    | Modify(path: bytes, old_: bytes, new_: bytes, quoting: bool)

  function GitHeader(path: bytes, quoting: bool): bytes {
    "diff --git " + HdrPath("a/", path, quoting) + " " + HdrPath("b/", path, quoting) + "\n"
  }

  function Range(start: byte, k: nat): bytes {
    if k == 1 then [start] else [start] + "," + Decimal(k)
  }

  function NewFileHunk(content: bytes): bytes {
    if content == [] then "@@ -0,0 +0,0 @@\n"
    else
      "@@ -0,0 +" + Range('1', |BodyLines(content)|) + " @@\n"
      + PrintedLines('+', BodyLines(content), EndsWithNewline(content))
  }

  function ModifyHunk(old_: bytes, new_: bytes): bytes {
    "@@ -" + Range('1', |BodyLines(old_)|) + " +" + Range('1', |BodyLines(new_)|) + " @@\n"
    + PrintedLines('-', BodyLines(old_), EndsWithNewline(old_))
    + PrintedLines('+', BodyLines(new_), EndsWithNewline(new_))
  }

  function FileNames(oldName: bytes, newName: bytes): bytes {
    "--- " + oldName + "\n" + "+++ " + newName + "\n"
  }

  function Show(c: Change): bytes {
    match c
    case NewFile(path, content, mode, form, quoting) =>
      var t := if form == TabAfterName then "\t" else "";
      GitHeader(path, quoting) + ("new file mode " + mode + "\n")
      + (if content == [] && form != ExplicitRange then []
         else FileNames("/dev/null", HdrPath("b/", path, quoting) + t) + NewFileHunk(content))
    case Modify(path, old_, new_, quoting) =>
      GitHeader(path, quoting)
      + FileNames(HdrPath("a/", path, quoting), HdrPath("b/", path, quoting))
      + ModifyHunk(old_, new_)
  }

  lemma Reassociate(x: bytes, sign: bytes, name: bytes, end: bytes, hunk: bytes)
    ensures x + sign + name + end + hunk == x + (sign + name + end + hunk)
  {
  }

  /** Of an empty file git's own form stops after the mode, with and without the tab; the
      explicit one goes on with both names and an empty range. */
  lemma EmptyForms(path: bytes, mode: bytes, quoting: bool)
    ensures
      var git := Show(NewFile(path, [], mode, GitForm, quoting));
      && git == GitHeader(path, quoting) + ("new file mode " + mode + "\n")
      && Show(NewFile(path, [], mode, TabAfterName, quoting)) == git
      && Show(NewFile(path, [], mode, ExplicitRange, quoting))
         == git + ("--- " + "/dev/null" + "\n" + ("+++ " + HdrPath("b/", path, quoting) + "\n" + "@@ -0,0 +0,0 @@\n"))
  {
    hide HdrPath, GitHeader;
    var b := HdrPath("b/", path, quoting);
    assert b + [] == b;
    Reassociate("--- " + "/dev/null" + "\n", "+++ ", b, "\n", "@@ -0,0 +0,0 @@\n");
  }

  /** Of a file with content the tab comes right behind the new name, and is all that tells
      the forms apart. */
  lemma ContentForms(path: bytes, content: bytes, mode: bytes, quoting: bool) returns (above: bytes, hunk: bytes)
    requires content != []
    ensures StartsWith(hunk, "@@ -0,0 +")
    ensures
      var b := HdrPath("b/", path, quoting);
      && Show(NewFile(path, content, mode, GitForm, quoting)) == above + ("+++ " + b + "\n" + hunk)
      && Show(NewFile(path, content, mode, ExplicitRange, quoting)) == above + ("+++ " + b + "\n" + hunk)
      && Show(NewFile(path, content, mode, TabAfterName, quoting)) == above + ("+++ " + (b + "\t") + "\n" + hunk)
  {
    hide HdrPath, GitHeader;
    HunkStarts(content);
    hunk := NewFileHunk(content);
    hide NewFileHunk, StartsWith;
    var b, x := HdrPath("b/", path, quoting), "--- " + "/dev/null" + "\n";
    var head := GitHeader(path, quoting) + ("new file mode " + mode + "\n");
    above := head + x;
    assert b + [] == b;
    Reassociate(x, "+++ ", b, "\n", hunk);
    Reassociate(x, "+++ ", b + "\t", "\n", hunk);
    Appended(head, x, "+++ " + b + "\n" + hunk);
    Appended(head, x, "+++ " + (b + "\t") + "\n" + hunk);
  }

  lemma Appended(head: bytes, x: bytes, rest: bytes)
    ensures head + (x + rest) == head + x + rest
  {
  }

  lemma HunkStarts(content: bytes)
    ensures StartsWith(NewFileHunk(content), "@@ -0,0 +")
  {
    hide BodyLines, PrintedLines, Range;
    if content == [] {
      assert "@@ -0,0 +0,0 @@\n" == "@@ -0,0 +" + "0,0 @@\n";
    }
  }

  /** The split and the flag every composer starts from. */
  method SplitBody(c: bytes) returns (lines: seq<bytes>, trailing: bool)
    ensures lines == BodyLines(c) && trailing == EndsWithNewline(c)
  {
    lines := Split(NEWLINE, c);
    trailing := EndsWithNewline(c);
    if trailing {
      lines := lines[..|lines| - 1];
    }
  }

  /** `compose_new_file` */
  method ComposeNewFile(path: bytes, content: bytes, mode: bytes, quoting: bool, explicitEmpty: bool)
    returns (out: bytes)
    ensures out == Show(NewFile(path, content, mode, if explicitEmpty then ExplicitRange else GitForm, quoting))
  {
    var a, b := HdrPath("a/", path, quoting), HdrPath("b/", path, quoting);
    out := "diff --git " + a + " " + b + "\n";
    out := out + ("new file mode " + mode + "\n");
    if content == [] && !explicitEmpty {
      return;
    }
    assert b + "" == b;
    var names := "--- " + "/dev/null" + "\n" + "+++ " + b + "\n";
    if content == [] {
      out := out + (names + "@@ -0,0 +0,0 @@\n");
      return;
    }
    var lines, trailing := SplitBody(content);
    var hunk := "@@ -0,0 +" + (if |lines| != 1 then ['1'] + "," + Decimal(|lines|) else ['1']) + " @@\n";
    var body := PrintLines('+', lines, trailing);
    out := out + (names + (hunk + body));
  }

  /** `compose_new`: the same with an optional tab after the new name and no
      explicit empty range. */
  method ComposeNew(path: bytes, content: bytes, mode: bytes, tab: bool) returns (out: bytes)
    ensures out == Show(NewFile(path, content, mode, if tab then TabAfterName else GitForm, true))
  {
    var a, b := HdrPath("a/", path, true), HdrPath("b/", path, true);
    var t := if tab then "\t" else "";
    out := "diff --git " + a + " " + b + "\n";
    out := out + ("new file mode " + mode + "\n");
    if content == [] {
      return;
    }
    var names := "--- " + "/dev/null" + "\n" + "+++ " + (b + t) + "\n";
    var lines, trailing := SplitBody(content);
    var hunk := "@@ -0,0 +" + (if |lines| == 1 then ['1'] else ['1'] + "," + Decimal(|lines|)) + " @@\n";
    var body := PrintLines('+', lines, trailing);
    out := out + (names + (hunk + body));
  }

  /** `compose_modify`: one hunk over the whole file. */
  method ComposeModify(path: bytes, old_: bytes, new_: bytes, quoting: bool) returns (out: bytes)
    ensures out == Show(Modify(path, old_, new_, quoting))
  {
    var a, b := HdrPath("a/", path, quoting), HdrPath("b/", path, quoting);
    var ol, ot := SplitBody(old_);
    var nl, nt := SplitBody(new_);
    out := "diff --git " + a + " " + b + "\n";
    out := out + ("--- " + a + "\n" + "+++ " + b + "\n");
    var hunk := "@@ -" + Range('1', |ol|) + " +" + Range('1', |nl|) + " @@\n";
    var removed := PrintLines('-', ol, ot);
    var added := PrintLines('+', nl, nt);
    out := out + (hunk + removed + added);
  }
}
