/** `_resolve_ref` of probes/z7/rawadmin.py: at most five symbolic hops through
    loose reference files, with packed-refs behind them. Reference names are kept
    as the bytes they are decoded from and encoded to. */
module RefChain {
  import opened Common
  import opened Text
  import opened RawLayout
  import Utf8

  /** The per-worktree administrative directory and the shared one. */
  datatype Dirs = Dirs(gitdir: Path, common: Path)

  /** `DecodeError` is the UnicodeDecodeError of a name that is not UTF-8. */
  datatype Outcome = Found(value: string) | Nothing | DecodeError

  /** One look at a name: the chain ends here, or continues with another name. */
  datatype Hop = Final(outcome: Outcome) | Symbolic(target: string)

  const PACKED := "packed-refs"
  const MAX_DEPTH: nat := 5

  predicate PerWorktree(name: string) {
    name == "HEAD" || StartsWith(name, "refs/bisect/") || StartsWith(name, "refs/worktree/")
    || StartsWith(name, "refs/rewritten/")
  }

  function Base(d: Dirs, name: string): Path {
    if PerWorktree(name) then d.gitdir else d.common
  }

  function Loose(fs: FileSystem, d: Dirs, name: string): Option<string> {
    Read(fs, Base(d, name), name)
  }

  /** `decode("ascii", "replace")` */
  function Ascii(b: string): string {
    if b == [] then [] else [if b[0] < 0x80 as char then b[0] else 0xFFFD as char] + Ascii(b[1..])
  }

  function FirstLine(raw: string): string {
    Strip(Split(NEWLINE, raw)[0], ByteSpace())
  }

  /** What a loose reference file says. */
  function LooseHop(raw: string): Hop {
    var v := FirstLine(raw);
    if !StartsWith(v, "ref:") then Final(Found(Ascii(v)))
    else
      var target := Strip(v[4..], ByteSpace());
      if Utf8.Decodable(target) then Symbolic(target) else Final(DecodeError)
  }

  predicate Skipped(line: string) {
    StartsWith(line, "#") || StartsWith(line, "^") || Strip(line, ByteSpace()) == []
  }

  /** The scan of packed-refs. */
  function Scan(lines: seq<string>, name: string): Outcome
    decreases |lines|
  {
    if lines == [] then Nothing
    else
      var line := lines[0];
      var i := Find(' ', line);
      if Skipped(line) || i == |line| then Scan(lines[1..], name)
      else
        var n := Strip(line[i + 1..], ByteSpace());
        if !Utf8.Decodable(n) then DecodeError
        else if n == name then Found(Ascii(line[..i]))
        else Scan(lines[1..], name)
  }

  function Packed(fs: FileSystem, d: Dirs, name: string): Outcome {
    match Read(fs, d.common, PACKED)
    case None => Nothing
    case Some(raw) => Scan(Split(NEWLINE, raw), name)
  }

  /** One look at a name; packed-refs only when there is no loose file. */
  function HopFrom(fs: FileSystem, d: Dirs, name: string): Hop {
    match Loose(fs, d, name)
    case Some(raw) => LooseHop(raw)
    case None => Final(Packed(fs, d, name))
  }

  function Resolve(fs: FileSystem, d: Dirs, name: string, depth: nat): Outcome
    decreases MAX_DEPTH + 1 - depth
  {
    if depth > MAX_DEPTH then Nothing
    else
      match HopFrom(fs, d, name)
      case Final(o) => o
      case Symbolic(target) => Resolve(fs, d, target, depth + 1)
  }

  /** The packed-refs loop of `_resolve_ref`. */
  method ScanPacked(raw: string, name: string) returns (r: Outcome)
    ensures r == Scan(Split(NEWLINE, raw), name)
  {
    var lines := Split(NEWLINE, raw);
    for i := 0 to |lines|
      invariant Scan(lines[i..], name) == Scan(lines, name)
    {
      var line := lines[i];
      assert lines[i..][0] == line && lines[i..][1..] == lines[i + 1..];
      if Skipped(line) {
        continue;
      }
      var j := Find(' ', line);
      if j < |line| {
        var n := Strip(line[j + 1..], ByteSpace());
        if !Utf8.Decodable(n) {
          return DecodeError;
        }
        if n == name {
          return Found(Ascii(line[..j]));
        }
      }
    }
    return Nothing;
  }

  /** `_resolve_ref` */
  method ResolveRef(fs: FileSystem, d: Dirs, name: string, depth: nat) returns (r: Outcome)
    ensures r == Resolve(fs, d, name, depth)
    decreases MAX_DEPTH + 1 - depth
  {
    if depth > MAX_DEPTH {
      return Nothing;
    }
    var raw := Loose(fs, d, name);
    if raw.Some? {
      var v := FirstLine(raw.value);
      if StartsWith(v, "ref:") {
        var target := Strip(v[4..], ByteSpace());
        if !Utf8.Decodable(target) {
          return DecodeError;
        }
        r := ResolveRef(fs, d, target, depth + 1);
        return;
      }
      return Found(Ascii(v));
    }
    var packed := Read(fs, d.common, PACKED);
    if packed.Some? {
      r := ScanPacked(packed.value, name);
      return;
    }
    return Nothing;
  }

  // ------------------------------------------------------ the whole chain

  /** The name reached after k symbolic hops, unless the chain ends before. */
  function After(fs: FileSystem, d: Dirs, name: string, k: nat): Option<string>
    decreases k
  {
    if k == 0 then Some(name)
    else
      match HopFrom(fs, d, name)
      case Final(_) => None
      case Symbolic(target) => After(fs, d, target, k - 1)
  }

  /** The chain ends after exactly k symbolic hops, with outcome o. */
  predicate EndsAt(fs: FileSystem, d: Dirs, name: string, k: nat, o: Outcome) {
    var n := After(fs, d, name, k);
    n.Some? && HopFrom(fs, d, n.value) == Final(o)
  }

  ghost predicate Endless(fs: FileSystem, d: Dirs, name: string) {
    forall k: nat :: After(fs, d, name, k).Some?
  }

  lemma {:induction false} BoundedFrom(fs: FileSystem, d: Dirs, name: string, depth: nat, k: nat, o: Outcome)
    requires EndsAt(fs, d, name, k, o)
    ensures Resolve(fs, d, name, depth) == if depth + k <= MAX_DEPTH then o else Nothing
    decreases k
  {
    hide HopFrom;
    match HopFrom(fs, d, name)
    case Final(_) =>
      assert k == 0;
    case Symbolic(target) =>
      if k > 0 {
        BoundedFrom(fs, d, target, depth + 1, k - 1, o);
      }
  }

  lemma {:induction false} EndlessFrom(fs: FileSystem, d: Dirs, name: string, depth: nat)
    requires Endless(fs, d, name)
    ensures Resolve(fs, d, name, depth) == Nothing
    decreases MAX_DEPTH + 1 - depth
  {
    hide HopFrom;
    if depth <= MAX_DEPTH {
      assert After(fs, d, name, 1).Some?;
      var target := HopFrom(fs, d, name).target;
      forall k: nat
        ensures After(fs, d, target, k).Some?
      {
        assert After(fs, d, name, k + 1).Some?;
      }
      EndlessFrom(fs, d, target, depth + 1);
    }
  }

  lemma {:induction false} EndsOrGoesOn(fs: FileSystem, d: Dirs, name: string, k: nat)
    ensures After(fs, d, name, k).Some? || exists j: nat, o :: j < k && EndsAt(fs, d, name, j, o)
    decreases k
  {
    hide HopFrom;
    if k > 0 {
      match HopFrom(fs, d, name)
      case Final(o) =>
        assert EndsAt(fs, d, name, 0, o);
      case Symbolic(target) =>
        EndsOrGoesOn(fs, d, target, k - 1);
        if !After(fs, d, target, k - 1).Some? {
          var j: nat, o :| j < k - 1 && EndsAt(fs, d, target, j, o);
          assert EndsAt(fs, d, name, j + 1, o);
        }
    }
  }

  /** Bounded resolution refines following the chain to its end: it agrees with
      it on chains of at most five hops, and finds nothing on a longer chain and
      on one that never ends. */
  lemma BoundedRefinesChain(fs: FileSystem, d: Dirs, name: string)
    ensures forall k: nat, o :: EndsAt(fs, d, name, k, o) ==>
      Resolve(fs, d, name, 0) == if k <= 5 then o else Nothing
    ensures Endless(fs, d, name) ==> Resolve(fs, d, name, 0) == Nothing
    ensures Endless(fs, d, name) || exists k: nat, o :: EndsAt(fs, d, name, k, o)
  {
    hide HopFrom, Resolve, After;
    forall k: nat, o | EndsAt(fs, d, name, k, o)
      ensures Resolve(fs, d, name, 0) == if k <= 5 then o else Nothing
    {
      BoundedFrom(fs, d, name, 0, k, o);
    }
    if Endless(fs, d, name) {
      EndlessFrom(fs, d, name, 0);
    } else {
      var k: nat :| !After(fs, d, name, k).Some?;
      EndsOrGoesOn(fs, d, name, k);
    }
  }

  /** A value is returned exactly when the chain has it within five hops. */
  lemma FoundIff(fs: FileSystem, d: Dirs, name: string, value: string)
    ensures Resolve(fs, d, name, 0) == Found(value)
       <==> exists k: nat :: k <= 5 && EndsAt(fs, d, name, k, Found(value))
  {
    hide Resolve, EndsAt, Endless;
    BoundedRefinesChain(fs, d, name);
  }

  // -------------------------------------------------- cycles are the only way

  lemma {:induction false} AfterAfter(fs: FileSystem, d: Dirs, name: string, i: nat, k: nat)
    requires After(fs, d, name, i).Some?
    ensures After(fs, d, name, i + k) == After(fs, d, After(fs, d, name, i).value, k)
    decreases i
  {
    hide HopFrom;
    if i > 0 {
      AfterAfter(fs, d, HopFrom(fs, d, name).target, i - 1, k);
    }
  }

  lemma {:induction false} AfterPrefix(fs: FileSystem, d: Dirs, name: string, i: nat, k: nat)
    requires i <= k && After(fs, d, name, k).Some?
    ensures After(fs, d, name, i).Some?
    decreases i
  {
    hide HopFrom;
    if i > 0 {
      AfterPrefix(fs, d, HopFrom(fs, d, name).target, i - 1, k - 1);
    }
  }

  ghost predicate Repeats(fs: FileSystem, d: Dirs, name: string, i: nat, j: nat) {
    i < j && After(fs, d, name, j).Some? && After(fs, d, name, i) == After(fs, d, name, j)
  }

  lemma {:induction false} CycleGoesOn(fs: FileSystem, d: Dirs, name: string, i: nat, j: nat, k: nat)
    requires Repeats(fs, d, name, i, j)
    ensures After(fs, d, name, k).Some?
    decreases k
  {
    hide HopFrom, After;
    if k <= j {
      AfterPrefix(fs, d, name, k, j);
    } else {
      AfterAfter(fs, d, name, j, k - j);
      AfterAfter(fs, d, name, i, k - j);
      CycleGoesOn(fs, d, name, i, j, i + (k - j));
    }
  }

  function FileKey(d: Dirs, name: string): (Path, string) {
    if StartsWith(name, "/") then ("", name) else (Base(d, name), name)
  }

  /** The loose files behind the first m names. */
  ghost function KeysSeen(fs: FileSystem, d: Dirs, name: string, m: nat): set<(Path, string)> {
    if m == 0 then {}
    else
      KeysSeen(fs, d, name, m - 1)
      + match After(fs, d, name, m - 1) { case None => {} case Some(n) => {FileKey(d, n)} }
  }

  ghost predicate NoRepeat(fs: FileSystem, d: Dirs, name: string, m: nat) {
    forall i: nat, j: nat :: i < j < m ==> !Repeats(fs, d, name, i, j)
  }

  lemma {:induction false} KeysSeenOrigin(fs: FileSystem, d: Dirs, name: string, m: nat, n: string)
    requires FileKey(d, n) in KeysSeen(fs, d, name, m)
    ensures exists i: nat :: i < m && After(fs, d, name, i) == Some(n)
  {
    hide After, Base;
    if After(fs, d, name, m - 1) != Some(n) {
      KeysSeenOrigin(fs, d, name, m - 1, n);
    }
  }

  /** Distinct names on an endless chain sit in distinct files. */
  lemma {:induction false} KeysSeenCount(fs: FileSystem, d: Dirs, name: string, m: nat)
    requires Endless(fs, d, name)
    ensures KeysSeen(fs, d, name, m) <= fs.files.Keys
    ensures NoRepeat(fs, d, name, m) ==> |KeysSeen(fs, d, name, m)| == m
  {
    hide After, Endless, LooseHop, Packed;
    if m > 0 {
      KeysSeenCount(fs, d, name, m - 1);
      var n := SymbolicAt(fs, d, name, m - 1);
      if FileKey(d, n) in KeysSeen(fs, d, name, m - 1) {
        KeysSeenOrigin(fs, d, name, m - 1, n);
        var i: nat :| i < m - 1 && After(fs, d, name, i) == Some(n);
        assert Repeats(fs, d, name, i, m - 1);
      } else {
        assert NoRepeat(fs, d, name, m) ==> NoRepeat(fs, d, name, m - 1);
      }
    }
  }

  lemma SymbolicAt(fs: FileSystem, d: Dirs, name: string, k: nat) returns (n: string)
    requires Endless(fs, d, name)
    ensures After(fs, d, name, k) == Some(n) && FileKey(d, n) in fs.files
  {
    hide After, LooseHop, Packed;
    assert After(fs, d, name, k).Some? && After(fs, d, name, k + 1).Some?;
    n := After(fs, d, name, k).value;
    AfterAfter(fs, d, name, k, 1);
    OneMore(fs, d, n);
  }

  lemma OneMore(fs: FileSystem, d: Dirs, n: string)
    requires After(fs, d, n, 1).Some?
    ensures FileKey(d, n) in fs.files
  {
    assert HopFrom(fs, d, n).Symbolic?;
  }

  /** In a finite file system a chain is endless exactly when a name comes back. */
  lemma EndlessIffRepeats(fs: FileSystem, d: Dirs, name: string)
    ensures Endless(fs, d, name) <==> exists i: nat, j: nat :: Repeats(fs, d, name, i, j)
  {
    hide After, Repeats;
    if Endless(fs, d, name) {
      var m := |fs.files| + 1;
      KeysSeenCount(fs, d, name, m);
      SubsetSize(KeysSeen(fs, d, name, m), fs.files.Keys);
      assert |fs.files.Keys| == |fs.files|;
      assert !NoRepeat(fs, d, name, m);
    } else if i: nat, j: nat :| Repeats(fs, d, name, i, j) {
      forall k: nat
        ensures After(fs, d, name, k).Some?
      {
        CycleGoesOn(fs, d, name, i, j, k);
      }
    }
  }

  // ------------------------------------------------------------ packed-refs

  lemma AfterNext(fs: FileSystem, d: Dirs, name: string, target: string, k: nat)
    requires HopFrom(fs, d, name) == Symbolic(target)
    ensures After(fs, d, name, k + 1) == After(fs, d, target, k)
  {
    hide HopFrom;
  }

  function PackedKey(d: Dirs): (Path, string) {
    (d.common, PACKED)
  }

  /** The name k hops on, if there is one, has a loose file, which is not packed-refs itself. */
  predicate LooseBehind(fs: FileSystem, d: Dirs, name: string, k: nat) {
    var n := After(fs, d, name, k);
    n.Some? ==> Loose(fs, d, n.value).Some? && FileKey(d, n.value) != PackedKey(d)
  }

  /** The same files but for packed-refs. */
  ghost predicate AgreeElsewhere(fs: FileSystem, other: FileSystem, d: Dirs) {
    forall key :: key != PackedKey(d) ==>
      (key in fs.files <==> key in other.files) && (key in fs.files ==> fs.files[key] == other.files[key])
  }

  /** With a loose file behind every name reached, packed-refs has no say: any
      content, or none, gives the same outcome. */
  lemma {:induction false} PackedIrrelevant(fs: FileSystem, other: FileSystem, d: Dirs, name: string, depth: nat)
    requires AgreeElsewhere(fs, other, d)
    requires forall k: nat :: depth + k <= 5 ==> LooseBehind(fs, d, name, k)
    ensures Resolve(fs, d, name, depth) == Resolve(other, d, name, depth)
    decreases MAX_DEPTH + 1 - depth
  {
    hide HopFrom, After, AgreeElsewhere, LooseBehind;
    if depth <= MAX_DEPTH {
      assert LooseBehind(fs, d, name, 0);
      SameHop(fs, other, d, name);
      match HopFrom(fs, d, name)
      case Final(_) =>
      case Symbolic(target) =>
        forall k: nat | depth + 1 + k <= MAX_DEPTH
          ensures LooseBehind(fs, d, target, k)
        {
          assert LooseBehind(fs, d, name, k + 1);
          LooseNext(fs, d, name, target, k);
        }
        PackedIrrelevant(fs, other, d, target, depth + 1);
    }
  }

  lemma SameHop(fs: FileSystem, other: FileSystem, d: Dirs, name: string)
    requires AgreeElsewhere(fs, other, d) && LooseBehind(fs, d, name, 0)
    ensures HopFrom(fs, d, name) == HopFrom(other, d, name)
  {
    hide LooseHop, Packed, Base;
    assert After(fs, d, name, 0) == Some(name);
    assert Loose(fs, d, name) == Loose(other, d, name);
  }

  lemma LooseNext(fs: FileSystem, d: Dirs, name: string, target: string, k: nat)
    requires HopFrom(fs, d, name) == Symbolic(target) && LooseBehind(fs, d, name, k + 1)
    ensures LooseBehind(fs, d, target, k)
  {
    hide HopFrom, After, Loose, FileKey;
    AfterNext(fs, d, name, target, k);
  }

  /** Without one behind the last name, packed-refs alone decides. */
  lemma PackedDecides(fs: FileSystem, d: Dirs, name: string, k: nat)
    requires k <= 5 && After(fs, d, name, k).Some?
    requires Loose(fs, d, After(fs, d, name, k).value) == None
    ensures Resolve(fs, d, name, 0) == Packed(fs, d, After(fs, d, name, k).value)
  {
    BoundedFrom(fs, d, name, 0, k, Packed(fs, d, After(fs, d, name, k).value));
  }

  /** A line of a packed-refs file. */
  datatype PackedLine =
    Header(text: string) | Entry(oid: string, name: string) | Peeled(oid: string) | Stray(text: string)

  predicate Hex(s: string) {
    s != [] && LowerHex(s)
  }

  predicate LineOk(l: PackedLine) {
    match l
    case Header(text) => Lacks(NEWLINE, text)
    case Entry(oid, name) => Hex(oid) && Lacks(NEWLINE, name) && Stripped(name, ByteSpace())
    case Peeled(oid) => Hex(oid)
    case Stray(text) => Lacks(NEWLINE, text) && (AllSpace(text, ByteSpace()) || Lacks(' ', text))
  }

  function LineText(l: PackedLine): string {
    match l
    case Header(text) => "#" + text
    case Entry(oid, name) => oid + " " + name
    case Peeled(oid) => "^" + oid
    case Stray(text) => text
  }

  function PackedTexts(ls: seq<PackedLine>): seq<string> {
    if ls == [] then [""] else [LineText(ls[0])] + PackedTexts(ls[1..])
  }

  function PrintPacked(ls: seq<PackedLine>): string {
    Join(NEWLINE, PackedTexts(ls))
  }

  /** The object of the first entry with the name, unless one before it is not UTF-8. */
  function FirstEntry(ls: seq<PackedLine>, name: string): Outcome {
    if ls == [] then Nothing
    else if ls[0].Entry? && !Utf8.Decodable(ls[0].name) then DecodeError
    else if ls[0].Entry? && ls[0].name == name then Found(ls[0].oid)
    else FirstEntry(ls[1..], name)
  }

  lemma {:induction false} AsciiHex(s: string)
    requires forall i :: 0 <= i < |s| ==> s[i] < 0x80 as char
    ensures Ascii(s) == s
  {
    if s != [] {
      AsciiHex(s[1..]);
    }
  }

  lemma ScanSkips(line: string, rest: seq<string>, name: string)
    requires Skipped(line) || Find(' ', line) == |line|
    ensures Scan([line] + rest, name) == Scan(rest, name)
  {
    hide Skipped, Strip, Find;
    assert ([line] + rest)[1..] == rest;
  }

  lemma ScanEntry(line: string, oid: string, entry: string, rest: seq<string>, name: string)
    requires !Skipped(line) && Find(' ', line) == |oid| < |line|
    requires line[..|oid|] == oid && Strip(line[|oid| + 1..], ByteSpace()) == entry
    ensures Scan([line] + rest, name)
         == if !Utf8.Decodable(entry) then DecodeError
            else if entry == name then Found(Ascii(oid)) else Scan(rest, name)
  {
    hide Skipped, Strip, Find, Ascii;
    assert ([line] + rest)[1..] == rest;
  }

  lemma ScanLine(l: PackedLine, rest: seq<string>, name: string)
    requires LineOk(l)
    ensures Scan([LineText(l)] + rest, name)
         == if l.Entry? && !Utf8.Decodable(l.name) then DecodeError
            else if l.Entry? && l.name == name then Found(l.oid) else Scan(rest, name)
    ensures Lacks(NEWLINE, LineText(l))
  {
    hide Scan, Skipped, Strip, Find, Utf8.Decodable, Ascii;
    var t := LineText(l);
    match l
    case Entry(oid, entry) =>
      EntryNotSkipped(oid, entry);
      HexIsPlain(oid);
      FindAt(' ', oid, entry);
      assert t == oid + [' '] + entry;
      assert t[..|oid|] == oid && t[|oid| + 1..] == entry;
      StripFixed(entry, ByteSpace());
      ScanEntry(t, oid, entry, rest, name);
    case Header(_) =>
      RemarkSkipped(t);
      ScanSkips(t, rest, name);
    case Peeled(oid) =>
      HexIsPlain(oid);
      RemarkSkipped(t);
      ScanSkips(t, rest, name);
    case Stray(_) =>
      StraySkipped(t);
      ScanSkips(t, rest, name);
  }

  lemma StraySkipped(t: string)
    requires AllSpace(t, ByteSpace()) || Lacks(' ', t)
    ensures Skipped(t) || Find(' ', t) == |t|
  {
    if AllSpace(t, ByteSpace()) {
      StripPadded(t, "", "", ByteSpace());
      assert t + "" + "" == t;
    }
  }

  lemma RemarkSkipped(t: string)
    requires t != "" && (t[0] == '#' || t[0] == '^')
    ensures Skipped(t)
  {
    assert t[..1] == [t[0]];
  }

  lemma HexIsPlain(oid: string)
    requires Hex(oid)
    ensures Lacks(' ', oid) && Lacks(NEWLINE, oid) && Ascii(oid) == oid
  {
    AsciiHex(oid);
  }

  lemma EntryNotSkipped(oid: string, name: string)
    requires Hex(oid)
    ensures !Skipped(oid + " " + name)
  {
    var t := oid + " " + name;
    assert t[0] == oid[0];
    StripRightKeepsFirst(t, ByteSpace());
  }

  lemma {:induction false} ScanTexts(ls: seq<PackedLine>, name: string)
    requires forall i :: 0 <= i < |ls| ==> LineOk(ls[i])
    ensures Scan(PackedTexts(ls), name) == FirstEntry(ls, name)
    ensures PackedTexts(ls) != [] && forall i :: 0 <= i < |PackedTexts(ls)| ==> Lacks(NEWLINE, PackedTexts(ls)[i])
  {
    hide LineOk, LineText, Lacks;
    if ls == [] {
      assert [""][1..] == [];
      NoText();
    } else {
      ScanTexts(ls[1..], name);
      ScanLine(ls[0], PackedTexts(ls[1..]), name);
    }
  }

  lemma NoText()
    ensures Lacks(NEWLINE, "")
  {
  }

  /** Looking a name up in a printed packed-refs file finds its first entry. */
  lemma PackedRoundTrip(fs: FileSystem, d: Dirs, ls: seq<PackedLine>, name: string)
    requires forall i :: 0 <= i < |ls| ==> LineOk(ls[i])
    requires Read(fs, d.common, "packed-refs") == Some(PrintPacked(ls))
    ensures Packed(fs, d, name) == FirstEntry(ls, name)
  {
    hide Scan, LineOk, FirstEntry, PackedTexts, Split;
    ScanTexts(ls, name);
    SplitJoin(NEWLINE, PackedTexts(ls));
  }

  // ---------------------------------------------------- what git writes there

  /** A reference name as git writes one. */
  predicate NameOk(name: string) {
    name != "" && Lacks(NEWLINE, name) && Stripped(name, ByteSpace()) && Utf8.Decodable(name) && name[0] != '/'
  }

  /** White space that can stand on a line. */
  predicate Pad(s: string) {
    AllSpace(s, ByteSpace()) && Lacks(NEWLINE, s)
  }

  /** A file whose first line is the text and white space around it, with or without more lines. */
  predicate FirstLineHolds(raw: string, before: string, text: string, after: string) {
    && Pad(before) && Pad(after) && Lacks(NEWLINE, text) && Stripped(text, ByteSpace())
    && (raw == before + text + after || StartsWith(raw, before + text + after + [NEWLINE]))
  }

  lemma FirstLineIs(raw: string, before: string, text: string, after: string)
    requires FirstLineHolds(raw, before, text, after)
    ensures FirstLine(raw) == text
  {
    hide Strip, Stripped;
    var line := before + text + after;
    assert Lacks(NEWLINE, line);
    if StartsWith(raw, line + [NEWLINE]) {
      var rest := raw[|line| + 1..];
      assert raw == line + [NEWLINE] + rest;
      FindAt(NEWLINE, line, rest);
      assert raw[..|line|] == line;
    } else {
      assert Find(NEWLINE, raw) == |raw|;
    }
    StripPadded(before, text, after, ByteSpace());
  }

  /** A file whose first line starts with "ref:" is one hop to the name behind that, white
      space aside, which must be UTF-8. */
  lemma SymbolicFile(raw: string, before: string, pad: string, name: string, after: string)
    requires Pad(pad) && Stripped(name, ByteSpace()) && name != ""
    requires FirstLineHolds(raw, before, "ref:" + pad + name, after)
    ensures LooseHop(raw) == if Utf8.Decodable(name) then Symbolic(name) else Final(DecodeError)
  {
    hide Strip, Stripped, FirstLine, Utf8.Decodable;
    var line := "ref:" + pad + name;
    FirstLineIs(raw, before, line, after);
    assert line[..4] == "ref:" && line[4..] == pad + name + "";
    StripPadded(pad, name, "", ByteSpace());
  }

  lemma {:induction false} AsciiMeans(s: string)
    ensures |Ascii(s)| == |s|
    ensures forall i :: 0 <= i < |s| ==> Ascii(s)[i] == if s[i] as int < 128 then s[i] else '\U{FFFD}'
  {
    if s != [] {
      AsciiMeans(s[1..]);
    }
  }

  /** Any other first line ends the chain: its ASCII characters are the value, with
      replacement characters for the other bytes. */
  lemma ObjectFile(raw: string, before: string, text: string, after: string)
    requires FirstLineHolds(raw, before, text, after) && !StartsWith(text, "ref:")
    ensures
      var value := Ascii(text);
      && LooseHop(raw) == Final(Found(value)) && |value| == |text|
      && (forall i :: 0 <= i < |text| ==> value[i] == if text[i] as int < 128 then text[i] else '\U{FFFD}')
      && (Hex(text) ==> value == text)
  {
    hide FirstLine;
    FirstLineIs(raw, before, text, after);
    AsciiMeans(text);
    if Hex(text) {
      AsciiHex(text);
    }
  }

  lemma HexIsNoName(oid: string)
    requires Hex(oid)
    ensures !StartsWith(oid, "ref:")
  {
    assert |oid| >= 4 ==> oid[..4][0] != "ref:"[0];
  }

  /** The names each worktree has for itself. */
  predicate Private(name: string) {
    || name == "HEAD"
    || exists area :: area in ["bisect", "worktree", "rewritten"] && StartsWith(name, "refs/" + area + "/")
  }

  lemma PrivateIff(name: string)
    ensures PerWorktree(name) <==> Private(name)
  {
    var areas := ["bisect", "worktree", "rewritten"];
    assert "refs/" + "bisect" + "/" == "refs/bisect/" && "refs/" + "worktree" + "/" == "refs/worktree/"
      && "refs/" + "rewritten" + "/" == "refs/rewritten/";
    assert areas[0] in areas && areas[1] in areas && areas[2] in areas;
  }

  /** Where a name is looked up: a private one in the worktree's own directory, any other in
      the shared one. The file there decides; without one, the first entry of packed-refs. */
  lemma LooseThenPacked(
      fs: FileSystem, d: Dirs, name: string, before: string, text: string, after: string, ls: seq<PackedLine>)
    requires NameOk(name) && forall i :: 0 <= i < |ls| ==> LineOk(ls[i])
    requires (d.common, "packed-refs") in fs.files && fs.files[(d.common, "packed-refs")] == PrintPacked(ls)
    ensures
      var file := (if Private(name) then d.gitdir else d.common, name);
      && (file in fs.files && Hex(text) && FirstLineHolds(fs.files[file], before, text, after) ==>
            Resolve(fs, d, name, 0) == Found(text))
      && (file in fs.files && NameOk(text) && FirstLineHolds(fs.files[file], before, "ref: " + text, after) ==>
            Resolve(fs, d, name, 0) == Resolve(fs, d, text, 1))
      && (file !in fs.files ==> Resolve(fs, d, name, 0) == FirstEntry(ls, name))
  {
    hide PerWorktree, Private, LineOk, PrintPacked, LooseHop, FirstLineHolds, Hex, Stripped, Strip, Packed, FirstEntry;
    hide Scan, Utf8.Decodable, Ascii;
    PrivateIff(name);
    PackedRoundTrip(fs, d, ls, name);
    HopOf(fs, d, name);
    FirstHop(fs, d, name);
    hide HopFrom, Resolve;
    var file := (if Private(name) then d.gitdir else d.common, name);
    if file in fs.files {
      ObjectLine(fs.files[file], before, text, after);
      SymbolicLine(fs.files[file], before, text, after);
    }
  }

  lemma ObjectLine(raw: string, before: string, text: string, after: string)
    ensures Hex(text) && FirstLineHolds(raw, before, text, after) ==> LooseHop(raw) == Final(Found(text))
  {
    hide LooseHop, FirstLineHolds, Hex;
    if Hex(text) && FirstLineHolds(raw, before, text, after) {
      HexIsNoName(text);
      ObjectFile(raw, before, text, after);
    }
  }

  lemma SymbolicLine(raw: string, before: string, text: string, after: string)
    ensures NameOk(text) && FirstLineHolds(raw, before, "ref: " + text, after) ==> LooseHop(raw) == Symbolic(text)
  {
    hide LooseHop, FirstLineHolds, Stripped, Utf8.Decodable;
    if NameOk(text) && FirstLineHolds(raw, before, "ref: " + text, after) {
      OneSpace();
      assert "ref:" + " " + text == "ref: " + text;
      SymbolicFile(raw, before, " ", text, after);
    }
  }

  lemma FirstHop(fs: FileSystem, d: Dirs, name: string)
    ensures Resolve(fs, d, name, 0)
         == match HopFrom(fs, d, name) { case Final(o) => o case Symbolic(target) => Resolve(fs, d, target, 1) }
  {
    hide HopFrom;
  }

  lemma HopOf(fs: FileSystem, d: Dirs, name: string)
    requires NameOk(name)
    ensures HopFrom(fs, d, name)
         == var file := (if PerWorktree(name) then d.gitdir else d.common, name);
            if file in fs.files then LooseHop(fs.files[file]) else Final(Packed(fs, d, name))
  {
    hide LooseHop, Packed, PerWorktree, Stripped, Utf8.Decodable;
  }

  lemma OneSpace()
    ensures Pad(" ")
  {
  }

  /** HEAD is read in the worktree's own directory, its branch in the shared one: the
      loose file there decides, else the first entry of packed-refs. */
  lemma HeadOfBranch(fs: FileSystem, d: Dirs, branch: string, oid: string, ls: seq<PackedLine>)
    requires NameOk(branch) && !Private(branch) && Hex(oid)
    requires forall i :: 0 <= i < |ls| ==> LineOk(ls[i])
    requires (d.gitdir, "HEAD") in fs.files && fs.files[(d.gitdir, "HEAD")] == "ref: " + branch + [NEWLINE]
    requires (d.common, "packed-refs") in fs.files && fs.files[(d.common, "packed-refs")] == PrintPacked(ls)
    ensures (d.common, branch) in fs.files && fs.files[(d.common, branch)] == oid + [NEWLINE] ==>
      Resolve(fs, d, "HEAD", 0) == Found(oid)
    ensures (d.common, branch) !in fs.files ==> Resolve(fs, d, "HEAD", 0) == FirstEntry(ls, branch)
  {
    hide HopFrom, Resolve, PerWorktree, Private, FirstEntry, PrintPacked, NameOk, Hex, LineOk, FirstLineHolds;
    PrivateIff(branch);
    HeadHop(fs, d, branch);
    BranchHop(fs, d, branch);
    if (d.common, branch) in fs.files {
      if fs.files[(d.common, branch)] == oid + [NEWLINE] {
        PlainLine(oid);
        HexIsNoName(oid);
        ObjectFile(oid + [NEWLINE], "", oid, "");
        TwoHops(fs, d, "HEAD", branch, Found(oid));
      }
    } else {
      PackedRoundTrip(fs, d, ls, branch);
      TwoHops(fs, d, "HEAD", branch, FirstEntry(ls, branch));
    }
  }

  lemma PlainLine(oid: string)
    requires Hex(oid)
    ensures FirstLineHolds(oid + [NEWLINE], "", oid, "")
  {
    assert "" + oid + "" == oid;
  }

  lemma HeadHop(fs: FileSystem, d: Dirs, branch: string)
    requires NameOk(branch)
    requires (d.gitdir, "HEAD") in fs.files && fs.files[(d.gitdir, "HEAD")] == "ref: " + branch + [NEWLINE]
    ensures HopFrom(fs, d, "HEAD") == Symbolic(branch)
  {
    hide LooseHop, Utf8.Decodable;
    HeadLine(branch);
    OneSpace();
    SymbolicFile("ref: " + branch + [NEWLINE], "", " ", branch, "");
    assert Base(d, "HEAD") == d.gitdir;
    assert !StartsWith("HEAD", "/") by { assert "HEAD"[..1][0] == 'H'; }
    assert Loose(fs, d, "HEAD") == Some("ref: " + branch + [NEWLINE]);
  }

  lemma HeadLine(branch: string)
    requires NameOk(branch)
    ensures FirstLineHolds("ref: " + branch + [NEWLINE], "", "ref:" + " " + branch, "")
  {
    var text := "ref:" + " " + branch;
    assert "ref: " + branch == text && "" + text + "" == text;
    assert text[0] == 'r' && text[|text| - 1] == branch[|branch| - 1];
  }

  lemma BranchHop(fs: FileSystem, d: Dirs, branch: string)
    requires NameOk(branch) && !PerWorktree(branch)
    ensures HopFrom(fs, d, branch)
         == if (d.common, branch) in fs.files then LooseHop(fs.files[(d.common, branch)])
            else Final(Packed(fs, d, branch))
  {
    hide LooseHop, Packed, PerWorktree;
  }

  lemma TwoHops(fs: FileSystem, d: Dirs, name: string, target: string, o: Outcome)
    requires HopFrom(fs, d, name) == Symbolic(target) && HopFrom(fs, d, target) == Final(o)
    ensures Resolve(fs, d, name, 0) == o
  {
    hide HopFrom;
    assert Resolve(fs, d, name, 0) == Resolve(fs, d, target, 1);
  }

  /** The name k hops on, if there is one, is not private to a worktree. */
  predicate SharedBehind(fs: FileSystem, d: Dirs, name: string, k: nat) {
    var n := After(fs, d, name, k);
    n.Some? ==> !PerWorktree(n.value)
  }

  /** Worktrees of one repository agree on every name that, like all names behind
      it, belongs to none of them alone. */
  lemma {:induction false} SharedNamesAgree(fs: FileSystem, d: Dirs, e: Dirs, name: string, depth: nat)
    requires d.common == e.common
    requires forall k: nat :: depth + k <= 5 ==> SharedBehind(fs, d, name, k)
    ensures Resolve(fs, d, name, depth) == Resolve(fs, e, name, depth)
    decreases MAX_DEPTH + 1 - depth
  {
    hide HopFrom, After, SharedBehind;
    if depth <= MAX_DEPTH {
      assert SharedBehind(fs, d, name, 0);
      SharedHop(fs, d, e, name);
      match HopFrom(fs, d, name)
      case Final(_) =>
      case Symbolic(target) =>
        forall k: nat | depth + 1 + k <= MAX_DEPTH
          ensures SharedBehind(fs, d, target, k)
        {
          assert SharedBehind(fs, d, name, k + 1);
          SharedNext(fs, d, name, target, k);
        }
        SharedNamesAgree(fs, d, e, target, depth + 1);
    }
  }

  lemma SharedHop(fs: FileSystem, d: Dirs, e: Dirs, name: string)
    requires d.common == e.common && SharedBehind(fs, d, name, 0)
    ensures HopFrom(fs, d, name) == HopFrom(fs, e, name)
  {
    hide LooseHop, Packed, PerWorktree;
    assert After(fs, d, name, 0) == Some(name);
    PackedIsShared(fs, d, e, name);
  }

  lemma SharedNext(fs: FileSystem, d: Dirs, name: string, target: string, k: nat)
    requires HopFrom(fs, d, name) == Symbolic(target) && SharedBehind(fs, d, name, k + 1)
    ensures SharedBehind(fs, d, target, k)
  {
    hide HopFrom, After, PerWorktree;
    AfterNext(fs, d, name, target, k);
  }

  lemma PackedIsShared(fs: FileSystem, d: Dirs, e: Dirs, name: string)
    requires d.common == e.common
    ensures Packed(fs, d, name) == Packed(fs, e, name)
  {
  }
}
