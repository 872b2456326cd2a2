/** `git worktree list --porcelain`: the record parser and `resolve_worktree` of
    src/sol_claude_dispatcher/git.py, against a printer of the format. */
module Porcelain {
  import opened Common
  import opened Text

  /** One parsed record: the last value of every key. */
  type Record = map<string, string>

  function Trim(s: string): string {
    Strip(s, StrSpace())
  }

  // --------------------------------------------------------------- parsing

  /** `line.partition(" ")`, without the separator. */
  function Partition(line: string): (string, string) {
    var i := Find(' ', line);
    (line[..i], if i == |line| then "" else line[i + 1..])
  }

  predicate Blank(line: string) {
    Trim(line) == ""
  }

  /** The records after one more line; `open` says whether the last record still
      takes attributes. */
  function Absorb(records: seq<Record>, open: bool, line: string): (seq<Record>, bool)
    requires open ==> records != []
  {
    var (key, value) := Partition(line);
    if Blank(line) then (records, false)
    else if key == "worktree" then (records + [map["worktree" := Trim(value)]], true)
    else if open then
      var last := |records| - 1;
      (records[..last] + [records[last][key := Trim(value)]], true)
    else (records, open)
  }

  function AbsorbAll(records: seq<Record>, open: bool, lines: seq<string>): (seq<Record>, bool)
    requires open ==> records != []
    decreases |lines|
  {
    if lines == [] then (records, open)
    else
      var (r, o) := Absorb(records, open, lines[0]);
      AbsorbAll(r, o, lines[1..])
  }

  function Parse(text: string): seq<Record> {
    AbsorbAll([], false, Split(NEWLINE, text)).0
  }

  /** `_worktree_records`: one pass with a mutable current record. */
  method WorktreeRecords(text: string) returns (records: seq<Record>)
    ensures records == Parse(text)
  {
    var lines := Split(NEWLINE, text);
    records := [];
    var current := false;
    for i := 0 to |lines|
      invariant current ==> records != []
      invariant AbsorbAll(records, current, lines[i..]) == AbsorbAll([], false, lines)
    {
      var line := lines[i];
      assert lines[i..][1..] == lines[i + 1..];
      if Blank(line) {
        current := false;
        continue;
      }
      var (key, value) := Partition(line);
      if key == "worktree" {
        records := records + [map["worktree" := Trim(value)]];
        current := true;
      } else if current {
        var last := |records| - 1;
        records := records[..last] + [records[last][key := Trim(value)]];
      }
    }
  }

  // -------------------------------------------------------------- printing

  /** A worktree as git knows it: a path and attributes, some without a value. */
  datatype Worktree = Worktree(path: string, attributes: seq<(string, string)>)

  function AttributeLine(a: (string, string)): string {
    if a.1 == "" then a.0 else a.0 + " " + a.1
  }

  function AttributeLines(attributes: seq<(string, string)>): seq<string> {
    if attributes == [] then [] else [AttributeLine(attributes[0])] + AttributeLines(attributes[1..])
  }

  /** The lines of one record: its path, its attributes, an empty line. */
  function RecordLines(w: Worktree): seq<string> {
    ["worktree " + w.path] + (AttributeLines(w.attributes) + [""])
  }

  function Lines(ws: seq<Worktree>): seq<string> {
    if ws == [] then [""] else RecordLines(ws[0]) + Lines(ws[1..])
  }

  /** Every line ends with a newline. */
  function Print(ws: seq<Worktree>): string {
    Join(NEWLINE, Lines(ws))
  }

  /** A key has no space, does not start with white space and does not open a record. */
  predicate KeyOk(key: string) {
    key != "" && key != "worktree" && Lacks(' ', key) && Lacks(NEWLINE, key) && Stripped(key, StrSpace())
  }

  predicate WorktreeOk(w: Worktree) {
    Lacks(NEWLINE, w.path)
    && forall i :: 0 <= i < |w.attributes| ==> KeyOk(w.attributes[i].0) && Lacks(NEWLINE, w.attributes[i].1)
  }

  function WithAttributes(r: Record, attributes: seq<(string, string)>): Record
    decreases |attributes|
  {
    if attributes == [] then r
    else WithAttributes(r[attributes[0].0 := Trim(attributes[0].1)], attributes[1..])
  }

  /** What the parser should see of a worktree. */
  function RecordOf(w: Worktree): Record {
    WithAttributes(map["worktree" := Trim(w.path)], w.attributes)
  }

  function RecordsOf(ws: seq<Worktree>): seq<Record> {
    if ws == [] then [] else [RecordOf(ws[0])] + RecordsOf(ws[1..])
  }

  /** White space ends a record; and what follows is dropped until a line opens one. */
  lemma StrayLines(records: seq<Record>, open: bool, line: string)
    requires open ==> records != []
    ensures AllSpace(line, StrSpace()) ==> Absorb(records, open, line) == (records, false)
    ensures line != "worktree" && !StartsWith(line, "worktree ") ==> Absorb(records, false, line) == (records, false)
  {
    if AllSpace(line, StrSpace()) {
      StripPadded(line, "", "", StrSpace());
      assert line + "" + "" == line;
    }
    var i := Find(' ', line);
    if line[..i] == "worktree" {
      assert i == 8 && (i < |line| ==> line[..9] == line[..8] + [line[8]]);
    }
  }

  // ------------------------------------------------------------ round trip

  lemma AbsorbCons(records: seq<Record>, open: bool, line: string, rest: seq<string>)
    requires open ==> records != []
    ensures
      var (r, o) := Absorb(records, open, line);
      AbsorbAll(records, open, [line] + rest) == AbsorbAll(r, o, rest)
  {
    assert ([line] + rest)[1..] == rest;
  }

  lemma {:induction false} FindLacking(c: char, s: string)
    requires Lacks(c, s)
    ensures Find(c, s) == |s|
  {
  }

  lemma PartitionOf(key: string, value: string)
    requires Lacks(' ', key)
    ensures Partition(key + " " + value) == (key, value)
    ensures Partition(key) == (key, "")
  {
    FindAt(' ', key, value);
    FindLacking(' ', key);
    var line := key + " " + value;
    assert line[..|key|] == key && line[|key| + 1..] == value;
    assert key[..|key|] == key;
  }

  /** A string whose first character is not white space is not blank. */
  lemma NotBlank(s: string)
    requires s != "" && !StrSpace()(s[0])
    ensures !Blank(s)
  {
    StripRightKeepsFirst(s, StrSpace());
  }

  lemma AbsorbAttribute(records: seq<Record>, r: Record, a: (string, string))
    requires KeyOk(a.0)
    ensures Absorb(records + [r], true, AttributeLine(a)) == (records + [r[a.0 := Trim(a.1)]], true)
  {
    hide Trim, StrSpace, Strip;
    PartitionOf(a.0, a.1);
    var line := AttributeLine(a);
    assert line[0] == a.0[0];
    NotBlank(line);
    assert (records + [r])[..|records|] == records;
  }

  lemma {:induction false} AbsorbAttributes(
      records: seq<Record>, r: Record, attributes: seq<(string, string)>, rest: seq<string>)
    requires forall i :: 0 <= i < |attributes| ==> KeyOk(attributes[i].0)
    ensures AbsorbAll(records + [r], true, AttributeLines(attributes) + rest)
         == AbsorbAll(records + [WithAttributes(r, attributes)], true, rest)
    decreases |attributes|
  {
    hide Absorb, AbsorbAll, Trim, KeyOk;
    if attributes == [] {
      assert AttributeLines(attributes) + rest == rest;
    } else {
      var a := attributes[0];
      var more := AttributeLines(attributes[1..]) + rest;
      assert AttributeLines(attributes) + rest == [AttributeLine(a)] + more;
      AbsorbCons(records + [r], true, AttributeLine(a), more);
      AbsorbAttribute(records, r, a);
      AbsorbAttributes(records, r[a.0 := Trim(a.1)], attributes[1..], rest);
    }
  }

  lemma AbsorbHead(records: seq<Record>, path: string)
    ensures Absorb(records, false, "worktree " + path) == (records + [map["worktree" := Trim(path)]], true)
  {
    hide Trim, Strip;
    PartitionOf("worktree", path);
    assert "worktree " + path == "worktree" + " " + path;
    NotBlank("worktree" + " " + path);
  }

  lemma AbsorbBlank(records: seq<Record>)
    requires records != []
    ensures Absorb(records, true, "") == (records, false)
  {
  }

  /** One printed record is read back as one record, whatever follows. */
  lemma AbsorbRecord(records: seq<Record>, w: Worktree, rest: seq<string>)
    requires WorktreeOk(w)
    ensures AbsorbAll(records, false, RecordLines(w) + rest) == AbsorbAll(records + [RecordOf(w)], false, rest)
  {
    hide Absorb, AbsorbAll, Trim, WithAttributes, AttributeLines;
    var attrs := AttributeLines(w.attributes);
    var started := map["worktree" := Trim(w.path)];
    assert RecordLines(w) + rest == ["worktree " + w.path] + (attrs + ([""] + rest));
    AbsorbHead(records, w.path);
    AbsorbCons(records, false, "worktree " + w.path, attrs + ([""] + rest));
    AbsorbAttributes(records, started, w.attributes, [""] + rest);
    AbsorbBlank(records + [RecordOf(w)]);
    AbsorbCons(records + [RecordOf(w)], true, "", rest);
  }

  lemma {:induction false} AbsorbLines(records: seq<Record>, ws: seq<Worktree>)
    requires forall i :: 0 <= i < |ws| ==> WorktreeOk(ws[i])
    ensures AbsorbAll(records, false, Lines(ws)) == (records + RecordsOf(ws), false)
    decreases |ws|
  {
    hide AbsorbAll, RecordOf, RecordLines, WorktreeOk;
    if ws == [] {
      EndOfText(records);
      assert records + [] == records;
    } else {
      AbsorbRecord(records, ws[0], Lines(ws[1..]));
      AbsorbLines(records + [RecordOf(ws[0])], ws[1..]);
      assert records + [RecordOf(ws[0])] + RecordsOf(ws[1..]) == records + RecordsOf(ws);
    }
  }

  lemma EndOfText(records: seq<Record>)
    ensures AbsorbAll(records, false, [""]) == (records, false)
  {
    assert [""][1..] == [];
  }

  lemma {:induction false} LinesPlain(ws: seq<Worktree>)
    requires forall i :: 0 <= i < |ws| ==> WorktreeOk(ws[i])
    ensures forall i :: 0 <= i < |Lines(ws)| ==> Lacks(NEWLINE, Lines(ws)[i])
    ensures Lines(ws) != []
  {
    if ws != [] {
      LinesPlain(ws[1..]);
      AttributesPlain(ws[0].attributes);
      assert Lacks(NEWLINE, "worktree " + ws[0].path);
    }
  }

  lemma {:induction false} AttributesPlain(attributes: seq<(string, string)>)
    requires forall i :: 0 <= i < |attributes| ==> KeyOk(attributes[i].0) && Lacks(NEWLINE, attributes[i].1)
    ensures forall i :: 0 <= i < |AttributeLines(attributes)| ==> Lacks(NEWLINE, AttributeLines(attributes)[i])
  {
    if attributes != [] {
      AttributesPlain(attributes[1..]);
      assert Lacks(NEWLINE, AttributeLine(attributes[0]));
    }
  }

  /** Parsing undoes printing, record by record. */
  lemma PorcelainRoundTrip(ws: seq<Worktree>)
    requires forall i :: 0 <= i < |ws| ==> WorktreeOk(ws[i])
    ensures Parse(Print(ws)) == RecordsOf(ws)
  {
    hide AbsorbAll, RecordOf, Lines, WorktreeOk, RecordsOf, Split;
    LinesPlain(ws);
    SplitJoin(NEWLINE, Lines(ws));
    AbsorbLines([], ws);
    assert [] + RecordsOf(ws) == RecordsOf(ws);
  }

  /** The last value an attribute list gives a key, stripped. */
  function LastValue(attributes: seq<(string, string)>, key: string): Option<string> {
    if attributes == [] then None
    else
      var last := |attributes| - 1;
      if attributes[last].0 == key then Some(Trim(attributes[last].1)) else LastValue(attributes[..last], key)
  }

  function Lookup(r: Record, key: string): Option<string> {
    if key in r then Some(r[key]) else None
  }

  lemma {:induction false} WithAttributesSnoc(r: Record, init: seq<(string, string)>, a: (string, string))
    ensures WithAttributes(r, init + [a]) == WithAttributes(r, init)[a.0 := Trim(a.1)]
    decreases |init|
  {
    hide Trim;
    if init == [] {
      assert (init + [a])[1..] == [];
    } else {
      assert (init + [a])[1..] == init[1..] + [a];
      WithAttributesSnoc(r[init[0].0 := Trim(init[0].1)], init[1..], a);
    }
  }

  lemma {:induction false} WithAttributesLookup(r: Record, attributes: seq<(string, string)>, key: string)
    ensures Lookup(WithAttributes(r, attributes), key)
         == if LastValue(attributes, key).Some? then LastValue(attributes, key) else Lookup(r, key)
    decreases |attributes|
  {
    hide Trim;
    if attributes != [] {
      var last := |attributes| - 1;
      WithAttributesSnoc(r, attributes[..last], attributes[last]);
      WithAttributesLookup(r, attributes[..last], key);
      assert attributes == attributes[..last] + [attributes[last]];
    }
  }

  lemma {:induction false} NoValue(attributes: seq<(string, string)>, key: string)
    requires forall i :: 0 <= i < |attributes| ==> attributes[i].0 != key
    ensures LastValue(attributes, key) == None
  {
    if attributes != [] {
      NoValue(attributes[..|attributes| - 1], key);
    }
  }

  /** What a parsed record holds: the stripped path, and of every other key the last printed value. */
  lemma RecordMeaning(w: Worktree, key: string)
    requires WorktreeOk(w)
    ensures Lookup(RecordOf(w), key)
         == if key == "worktree" then Some(Trim(w.path)) else LastValue(w.attributes, key)
  {
    hide Trim;
    WithAttributesLookup(map["worktree" := Trim(w.path)], w.attributes, key);
    if key == "worktree" {
      NoValue(w.attributes, key);
    }
  }

  /** The path comes back exactly when `strip` leaves it alone. */
  lemma PathRecoveredIff(w: Worktree)
    requires WorktreeOk(w)
    ensures Lookup(RecordOf(w), "worktree") == Some(w.path) <==> Stripped(w.path, StrSpace())
  {
    RecordMeaning(w, "worktree");
    StripStripped(w.path, StrSpace());
  }

  // ------------------------------------------------- paths with a newline

  predicate PathsLackNewlines(records: seq<Record>) {
    forall i :: 0 <= i < |records| ==> "worktree" in records[i] ==> Lacks(NEWLINE, records[i]["worktree"])
  }

  lemma AbsorbPath(records: seq<Record>, open: bool, line: string)
    requires open ==> records != []
    requires PathsLackNewlines(records) && Lacks(NEWLINE, line)
    ensures PathsLackNewlines(Absorb(records, open, line).0)
  {
    hide Strip;
    var value := Partition(line).1;
    assert Lacks(NEWLINE, value);
    StripLacks(NEWLINE, value, StrSpace());
  }

  lemma {:induction false} AbsorbPaths(records: seq<Record>, open: bool, lines: seq<string>)
    requires open ==> records != []
    requires PathsLackNewlines(records) && forall i :: 0 <= i < |lines| ==> Lacks(NEWLINE, lines[i])
    ensures PathsLackNewlines(AbsorbAll(records, open, lines).0)
    decreases |lines|
  {
    hide Absorb, PathsLackNewlines, Lacks;
    if lines != [] {
      AbsorbPath(records, open, lines[0]);
      AbsorbKeepsOpen(records, open, lines[0]);
      var (r, o) := Absorb(records, open, lines[0]);
      AbsorbPaths(r, o, lines[1..]);
    }
  }

  /** The rest of a path after a newline is read as an attribute of the record. */
  lemma NewlineIsAttribute(w: Worktree, start: string, a: (string, string))
    requires w.path == start + [NEWLINE] + AttributeLine(a)
    requires WorktreeOk(Worktree(start, [a] + w.attributes))
    ensures Print([w]) == Print([Worktree(start, [a] + w.attributes)])
    ensures Parse(Print([w])) == [RecordOf(Worktree(start, [a] + w.attributes))]
  {
    hide AttributeLine, WorktreeOk, RecordOf, Parse;
    var v := Worktree(start, [a] + w.attributes);
    var rest := AttributeLines(w.attributes) + [""] + [""];
    OneLines(w);
    OneLines(v);
    assert ([a] + w.attributes)[1..] == w.attributes;
    assert "worktree " + w.path == ("worktree " + start) + [NEWLINE] + AttributeLine(a);
    assert Lines([v]) == ["worktree " + start] + ([AttributeLine(a)] + rest);
    JoinAcross(NEWLINE, "worktree " + start, AttributeLine(a), rest);
    PorcelainRoundTrip([v]);
    OneRecord(v);
  }

  lemma OneLines(w: Worktree)
    ensures Lines([w]) == ["worktree " + w.path] + (AttributeLines(w.attributes) + [""] + [""])
  {
    assert [w][1..] == [];
  }

  lemma OneRecord(w: Worktree)
    ensures RecordsOf([w]) == [RecordOf(w)]
  {
    assert [w][1..] == [];
  }

  /** Of all paths a single printed record can have, exactly those come back in some
      parsed record that hold no newline and that `strip` leaves alone. */
  lemma PathComesBackIff(w: Worktree)
    requires WorktreeOk(w.(path := ""))
    ensures (exists r :: r in Parse(Print([w])) && Lookup(r, "worktree") == Some(w.path))
       <==> Lacks(NEWLINE, w.path) && Stripped(w.path, StrSpace())
  {
    hide Print, RecordOf, Lookup, KeyOk, Split;
    if Lacks(NEWLINE, w.path) {
      assert WorktreeOk(w);
      PorcelainRoundTrip([w]);
      OneRecord(w);
      PathRecoveredIff(w);
      assert RecordOf(w) in [RecordOf(w)];
    } else {
      PathsParsed(Print([w]), w.path);
    }
  }

  lemma PathsParsed(text: string, path: string)
    requires !Lacks(NEWLINE, path)
    ensures forall r :: r in Parse(text) ==> Lookup(r, "worktree") != Some(path)
  {
    SplitLacks(NEWLINE, text);
    AbsorbPaths([], false, Split(NEWLINE, text));
  }

  // ------------------------------------------------------ resolve_worktree

  datatype WorktreeRef = WorktreeRef(path: string, head: string, branch: Option<string>)

  /** `GitEvidenceCollectionFailed`, with the path of the record that matched. */
  datatype Failure = NoUsableHead(path: string)

  /** `Path(p).name`: the last component that is neither empty nor ".". */
  function FinalComponent(path: string): string {
    LastNamed(Split('/', path))
  }

  function LastNamed(parts: seq<string>): string {
    if parts == [] then ""
    else
      var last := parts[|parts| - 1];
      if last == "" || last == "." then LastNamed(parts[..|parts| - 1]) else last
  }

  lemma {:induction false} SplitOnce(dir: string, name: string)
    requires Lacks('/', name)
    ensures Split('/', dir + "/" + name) == Split('/', dir) + [name]
    decreases |dir|
  {
    var s, i := dir + "/" + name, Find('/', dir);
    if i == |dir| {
      FindAt('/', dir, name);
      assert s == dir + ['/'] + name && s[..i] == dir && s[i + 1..] == name;
      FindLacking('/', name);
    } else {
      var rest := dir[i + 1..];
      assert Lacks('/', dir[..i]) && dir == dir[..i] + ['/'] + rest;
      assert s == dir[..i] + ['/'] + (rest + "/" + name);
      FindAt('/', dir[..i], rest + "/" + name);
      assert s[..i] == dir[..i] && s[i + 1..] == rest + "/" + name;
      SplitOnce(rest, name);
    }
  }

  lemma LastNamedSnoc(parts: seq<string>, last: string)
    ensures LastNamed(parts + [last]) == if last == "" || last == "." then LastNamed(parts) else last
  {
    assert (parts + [last])[..|parts|] == parts;
  }

  /** The name of a path is its last component, and slashes and dots at the end do not
      count. Every path is built so. */
  lemma FinalComponentIs(dir: string, name: string)
    requires Lacks('/', name)
    ensures name != "" && name != "." ==>
      FinalComponent(name) == name && FinalComponent(dir + "/" + name) == name
    ensures FinalComponent("") == "" && FinalComponent(".") == ""
    ensures FinalComponent(dir + "/") == FinalComponent(dir) == FinalComponent(dir + "/.")
  {
    hide LastNamed, Split;
    OnePart(name);
    OnePart("");
    OnePart(".");
    assert dir + "/" + "" == dir + "/" && dir + "/" + "." == dir + "/.";
    SplitOnce(dir, name);
    SplitOnce(dir, "");
    SplitOnce(dir, ".");
    LastNamedSnoc(Split('/', dir), name);
    LastNamedSnoc(Split('/', dir), "");
    LastNamedSnoc(Split('/', dir), ".");
  }

  lemma OnePart(name: string)
    requires Lacks('/', name)
    ensures Split('/', name) == [name] && LastNamed([name]) == if name == "." then "" else name
  {
    FindLacking('/', name);
    assert [name][..0] == [];
  }

  /** Forty lower-case hexadecimal digits. */
  predicate IsHex40(s: string) {
    |s| == 40 && LowerHex(s)
  }

  lemma HeadIs(s: string)
    ensures IsHex40(s) <==> |s| == 40 && forall i :: 0 <= i < |s| ==> s[i] in "0123456789abcdef"
  {
    LowerHexIs(s);
  }

  function OrElse(o: Option<string>, default: string): string {
    if o.Some? then o.value else default
  }

  /** What the first record with the name says. */
  function Answer(r: Record): Result<Option<WorktreeRef>, Failure> {
    var path := OrElse(Lookup(r, "worktree"), "");
    var head := OrElse(Lookup(r, "HEAD"), "");
    var branch := OrElse(Lookup(r, "branch"), "");
    if !IsHex40(head) then Err(NoUsableHead(path))
    else Ok(Some(WorktreeRef(path, head, if branch == "" then None else Some(branch))))
  }

  predicate Named(r: Record, name: string) {
    "worktree" in r && FinalComponent(r["worktree"]) == name
  }

  function Resolve(records: seq<Record>, name: string): Result<Option<WorktreeRef>, Failure> {
    if records == [] then Ok(None)
    else if Named(records[0], name) then Answer(records[0])
    else Resolve(records[1..], name)
  }

  predicate HasPath(records: seq<Record>) {
    forall i :: 0 <= i < |records| ==> "worktree" in records[i]
  }

  lemma AbsorbHasPath(records: seq<Record>, open: bool, line: string)
    requires open ==> records != []
    requires HasPath(records)
    ensures HasPath(Absorb(records, open, line).0)
  {
    hide Trim, Partition, Blank;
  }

  lemma {:induction false} AllHavePaths(records: seq<Record>, open: bool, lines: seq<string>)
    requires open ==> records != []
    requires HasPath(records)
    ensures HasPath(AbsorbAll(records, open, lines).0)
    decreases |lines|
  {
    hide Absorb, HasPath;
    if lines != [] {
      AbsorbHasPath(records, open, lines[0]);
      var (r, o) := Absorb(records, open, lines[0]);
      AbsorbKeepsOpen(records, open, lines[0]);
      AllHavePaths(r, o, lines[1..]);
    }
  }

  /** Every parsed record has a path, whatever the text: `record["worktree"]` cannot fail. */
  lemma ParsedHavePaths(text: string)
    ensures forall r :: r in Parse(text) ==> "worktree" in r
  {
    AllHavePaths([], false, Split(NEWLINE, text));
  }

  lemma AbsorbKeepsOpen(records: seq<Record>, open: bool, line: string)
    requires open ==> records != []
    ensures Absorb(records, open, line).1 ==> Absorb(records, open, line).0 != []
  {
  }

  /** `resolve_worktree` on the output of git. */
  method ResolveWorktree(text: string, name: string) returns (r: Result<Option<WorktreeRef>, Failure>)
    ensures r == Resolve(Parse(text), name)
  {
    var records := WorktreeRecords(text);
    ParsedHavePaths(text);
    assert records[0..] == records;
    for i := 0 to |records|
      invariant Resolve(records[i..], name) == Resolve(records, name)
    {
      assert records[i..][1..] == records[i + 1..];
      if FinalComponent(records[i]["worktree"]) != name {
        continue;
      }
      assert records[i..][0] == records[i] && Named(records[i], name);
      var head := if "HEAD" in records[i] then records[i]["HEAD"] else "";
      if !IsHex40(head) {
        return Err(NoUsableHead(records[i]["worktree"]));
      }
      var branch := if "branch" in records[i] then records[i]["branch"] else "";
      return Ok(Some(WorktreeRef(records[i]["worktree"], head, if branch == "" then None else Some(branch))));
    }
    return Ok(None);
  }

  // --------------------------------------- the answer in terms of worktrees

  predicate WorktreeNamed(w: Worktree, name: string) {
    FinalComponent(Trim(w.path)) == name
  }

  /** The worktree at i has the name and none before it has. */
  predicate FirstNamed(ws: seq<Worktree>, name: string, i: nat) {
    i < |ws| && WorktreeNamed(ws[i], name) && forall j: nat :: j < i ==> !WorktreeNamed(ws[j], name)
  }

  /** The answer a worktree's own attributes give. */
  function OwnAnswer(w: Worktree): Result<Option<WorktreeRef>, Failure> {
    var head := OrElse(LastValue(w.attributes, "HEAD"), "");
    var branch := OrElse(LastValue(w.attributes, "branch"), "");
    if IsHex40(head)
    then Ok(Some(WorktreeRef(Trim(w.path), head, if branch == "" then None else Some(branch))))
    else Err(NoUsableHead(Trim(w.path)))
  }

  lemma AnswerIsOwn(w: Worktree, name: string)
    requires WorktreeOk(w)
    ensures Named(RecordOf(w), name) <==> WorktreeNamed(w, name)
    ensures Answer(RecordOf(w)) == OwnAnswer(w)
  {
    hide Trim, FinalComponent, RecordOf, IsHex40;
    RecordMeaning(w, "worktree");
    RecordMeaning(w, "HEAD");
    RecordMeaning(w, "branch");
  }

  /** The answer on a printed list: the first worktree with the name answers
      from its own attributes, and there is none exactly when no worktree has it. */
  lemma ResolvePrinted(ws: seq<Worktree>, name: string)
    requires forall i :: 0 <= i < |ws| ==> WorktreeOk(ws[i])
    ensures
      var r := Resolve(Parse(Print(ws)), name);
      && (r == Ok(None) <==> forall i: nat :: i < |ws| ==> !WorktreeNamed(ws[i], name))
      && (forall i: nat :: FirstNamed(ws, name, i) ==> r == OwnAnswer(ws[i]))
  {
    PorcelainRoundTrip(ws);
    ResolveRecords(ws, name);
  }

  lemma {:induction false} ResolveRecords(ws: seq<Worktree>, name: string)
    requires forall i :: 0 <= i < |ws| ==> WorktreeOk(ws[i])
    ensures
      var r := Resolve(RecordsOf(ws), name);
      && (r == Ok(None) <==> forall i: nat :: i < |ws| ==> !WorktreeNamed(ws[i], name))
      && (forall i: nat :: FirstNamed(ws, name, i) ==> r == OwnAnswer(ws[i]))
  {
    hide RecordOf, WorktreeNamed, WorktreeOk, Named, Answer;
    if ws != [] {
      AnswerIsOwn(ws[0], name);
      ResolveRecords(ws[1..], name);
      assert forall i: nat :: 0 < i < |ws| ==> ws[i] == ws[1..][i - 1];
      if WorktreeNamed(ws[0], name) {
        assert OwnAnswer(ws[0]) != Ok(None);
      } else {
        assert forall i: nat :: i < |ws[1..]| ==> ws[1..][i] == ws[i + 1];
        forall i: nat | FirstNamed(ws, name, i)
          ensures i > 0 && FirstNamed(ws[1..], name, i - 1)
        {
        }
      }
    }
  }
}
