/** A reader for git-style unified patches and the meaning of applying one.

    This is the reference the composers are measured against: it reads hunks by
    the line counts of their range headers ("Diff -u or -U Output Format" in the
    POSIX.1-2008 `diff` utility), with git's `diff --git` lines, quoted names
    and no-newline markers. It shares nothing with the printer but `Text.Find`. */
module PatchReader {
  import opened Common
  import opened CQuoting
  import opened Text

  datatype Hunk = Hunk(oldStart: nat, newStart: nat, removed: seq<bytes>, added: seq<bytes>)

  /** One file of a patch; `created` carries the mode of a new file. */
  datatype FileChange = FileChange(path: bytes, created: Option<bytes>, hunks: seq<Hunk>)

  // --------------------------------------------------------------- tokens

  function TakeLine(s: bytes): Option<(bytes, bytes)> {
    var i := Find(NEWLINE, s);
    if i == |s| then None else Some((s[..i], s[i + 1..]))
  }

  function Expect(s: bytes, literal: bytes): Option<bytes> {
    if StartsWith(s, literal) then Some(s[|literal|..]) else None
  }

  predicate IsDigit(b: byte) { '0' <= b <= '9' }

  function ReadDigits(acc: nat, s: bytes): (nat, bytes)
    decreases |s|
  {
    if s == [] || !IsDigit(s[0]) then (acc, s)
    else ReadDigits(10 * acc + (s[0] as int - '0' as int), s[1..])
  }

  function ReadNat(s: bytes): Option<(nat, bytes)> {
    if s == [] || !IsDigit(s[0]) then None else Some(ReadDigits(0, s))
  }

  /** `start` or `start,count`; a missing count is 1. */
  function ReadRange(s: bytes): Option<(nat, nat, bytes)> {
    var (start, rest) :- ReadNat(s);
    if StartsWith(rest, ",") then
      var (count, rest) :- ReadNat(rest[1..]);
      Some((start, count, rest))
    else Some((start, 1, rest))
  }

  // ---------------------------------------------------------------- names

  /** The path of a `diff --git` line. Unquoted names may hold spaces; the line
      is then cut in the middle, since both names have the same length. */
  function HeaderPath(line: bytes): Option<bytes> {
    if StartsWith(line, [QUOTE]) then
      var (x, r) :- Unquote(line[1..]);
      var r :- Expect(r, " \"");
      var (y, r) :- Unquote(r);
      if r == [] && StartsWith(x, "a/") && y == "b/" + x[2..] then Some(x[2..]) else None
    else if |line| < 5 then None
    else
      var p := line[2..2 + (|line| - 5) / 2];
      if line == "a/" + p + " b/" + p then Some(p) else None
  }

  /** The name on a `---` or `+++` line: quoted, or up to the first tab. */
  function FileName(line: bytes): Option<bytes> {
    if StartsWith(line, [QUOTE]) then
      var (d, rest) :- Unquote(line[1..]);
      if rest == [] || rest[0] == TAB then Some(d) else None
    else Some(line[..Find(TAB, line)])
  }

  // ---------------------------------------------------------------- hunks

  /** One line of a hunk body after its sign: the line keeps its newline unless
      a no-newline marker follows it. */
  function ReadLine(s: bytes): Option<(bytes, bytes)> {
    var (text, rest) :- TakeLine(s);
    if StartsWith(rest, "\\ ") then
      var (_, rest) :- TakeLine(rest);
      Some((text, rest))
    else Some((text + [NEWLINE], rest))
  }

  /** Reads lines until the counts of the range header are used up. */
  function ReadBody(o: nat, n: nat, s: bytes): Option<(seq<bytes>, seq<bytes>, bytes)>
    decreases |s|
  {
    if o == 0 && n == 0 then Some(([], [], s))
    else if s == [] then None
    else
      var (line, rest) :- ReadLine(s[1..]);
      if |rest| >= |s| then None
      else if s[0] == '-' && o > 0 then
        var (p, q, tail) :- ReadBody(o - 1, n, rest);
        Some(([line] + p, q, tail))
      else if s[0] == '+' && n > 0 then
        var (p, q, tail) :- ReadBody(o, n - 1, rest);
        Some((p, [line] + q, tail))
      else if s[0] == ' ' && o > 0 && n > 0 then
        var (p, q, tail) :- ReadBody(o - 1, n - 1, rest);
        Some(([line] + p, [line] + q, tail))
      else None
  }

  function ReadHunk(s: bytes): Option<(Hunk, bytes)> {
    var s :- Expect(s, "@@ -");
    var (oldStart, o, s) :- ReadRange(s);
    var s :- Expect(s, " +");
    var (newStart, n, s) :- ReadRange(s);
    var s :- Expect(s, " @@\n");
    var (removed, added, s) :- ReadBody(o, n, s);
    Some((Hunk(oldStart, newStart, removed, added), s))
  }

  // -------------------------------------------------------------- patches

  function ReadNamed(path: bytes, created: Option<bytes>, s: bytes): Option<(FileChange, bytes)> {
    var s :- Expect(s, "--- ");
    var (oldLine, s) :- TakeLine(s);
    var oldName :- FileName(oldLine);
    var s :- Expect(s, "+++ ");
    var (newLine, s) :- TakeLine(s);
    var newName :- FileName(newLine);
    if newName != "b/" + path || oldName != (if created.Some? then "/dev/null" else "a/" + path) then None
    else
      var (hunk, s) :- ReadHunk(s);
      Some((FileChange(path, created, [hunk]), s))
  }

  function ReadChange(s: bytes): Option<(FileChange, bytes)> {
    var s :- Expect(s, "diff --git ");
    var (line, s) :- TakeLine(s);
    var path :- HeaderPath(line);
    if StartsWith(s, "new file mode ") then
      var (mode, s) :- TakeLine(s[14..]);
      if StartsWith(s, "--- ") then ReadNamed(path, Some(mode), s)
      else Some((FileChange(path, Some(mode), []), s))
    else ReadNamed(path, None, s)
  }

  function ReadPatch(s: bytes): Option<seq<FileChange>>
    decreases |s|
  {
    if s == [] then Some([])
    else
      var (c, rest) :- ReadChange(s);
      if |rest| >= |s| then None
      else
        var cs :- ReadPatch(rest);
        Some([c] + cs)
  }

  // ------------------------------------------------------------- applying

  /** The lines of a file, each with its newline; an empty file has none. */
  function FileLines(c: bytes): seq<bytes>
    decreases |c|
  {
    if c == [] then []
    else
      var i := Find(NEWLINE, c);
      if i == |c| then [c] else [c[..i + 1]] + FileLines(c[i + 1..])
  }

  function ApplyHunk(h: Hunk, lines: seq<bytes>): Option<bytes> {
    var k := |h.removed|;
    var at := if k == 0 then h.oldStart else h.oldStart - 1;
    if 0 <= at && at + k <= |lines| && lines[at..at + k] == h.removed then
      Some(Concat(lines[..at] + h.added + lines[at + k..]))
    else None
  }

  /** The file after the change; a missing file is None in `before`. */
  function Apply(c: FileChange, before: Option<bytes>): Option<bytes> {
    if c.created.Some? != before.None? then None
    else
      var lines := if before.Some? then FileLines(before.value) else [];
      if c.hunks == [] then Some(Concat(lines))
      else if |c.hunks| == 1 then ApplyHunk(c.hunks[0], lines)
      else None
  }

  /** The change that undoes a modification. */
  function Reverse(c: FileChange): FileChange {
    c.(hunks := seq(|c.hunks|, i requires 0 <= i < |c.hunks| =>
      var h := c.hunks[i]; Hunk(h.newStart, h.oldStart, h.added, h.removed)))
  }
}
