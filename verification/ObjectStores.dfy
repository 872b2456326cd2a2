/** `resolve_object_stores` of probes/z7/rawadmin.py: the primary object store and
    every alternate, transitively, with cycle protection. */
module ObjectStores {
  import opened Common
  import opened Text
  import opened RawLayout
  import opened GitDirs
  import opened NormPaths
  import opened BreadthFirst

  function FileOf(r: Reason): string {
    match r
    case Primary => ""
    case Alternates => "info/alternates"
    case HttpAlternates => "info/http-alternates"
  }

  // ------------------------------------------------------- the store graph

  function Target(store: Path, line: string): Path {
    NormPath(JoinPath(store, line))
  }

  /** What one line of an alternates file lists: nothing when blank or a comment. */
  function LineItem(store: Path, why: Reason, line: string): seq<Item> {
    var ln := Strip(line, ByteSpace());
    if ln == [] || StartsWith(ln, "#") then [] else [Item(Target(store, ln), why, Some((store, FileOf(why))))]
  }

  function LinesItems(store: Path, why: Reason, lines: seq<string>): seq<Item> {
    if lines == [] then [] else LineItem(store, why, lines[0]) + LinesItems(store, why, lines[1..])
  }

  function ListedIn(fs: FileSystem, store: Path, why: Reason): seq<Item> {
    match Read(fs, store, FileOf(why))
    case None => []
    case Some(raw) => LinesItems(store, why, Split(NEWLINE, raw))
  }

  function Successors(fs: FileSystem, store: Path): seq<Item> {
    ListedIn(fs, store, Alternates) + ListedIn(fs, store, HttpAlternates)
  }

  function StoreGraph(fs: FileSystem): Graph {
    (store: Path) => Successors(fs, store)
  }

  function Start(commondir: Path): Item {
    Item(NormPath(JoinPath(commondir, "objects")), Primary, None)
  }

  lemma {:induction false} LinesVia(store: Path, why: Reason, lines: seq<string>)
    ensures forall it :: it in LinesItems(store, why, lines) ==>
      it.reason == why && it.via == Some((store, FileOf(why)))
  {
    if lines != [] {
      LinesVia(store, why, lines[1..]);
    }
  }

  lemma ListedInVia(fs: FileSystem, store: Path, why: Reason)
    ensures forall it :: it in ListedIn(fs, store, why) ==>
      it.reason == why && it.via == Some((store, FileOf(it.reason)))
  {
    match Read(fs, store, FileOf(why))
    case None =>
    case Some(raw) => LinesVia(store, why, Split(NEWLINE, raw));
  }

  /** Every listed item names the file that lists it, in the listing store. */
  lemma SuccessorsVia(fs: FileSystem, store: Path)
    ensures forall it :: it in Successors(fs, store) ==> it.via == Some((store, FileOf(it.reason)))
  {
    ListedInVia(fs, store, Alternates);
    ListedInVia(fs, store, HttpAlternates);
  }

  // ------------------------------------------------------ an alternates file

  /** A line of an alternates file as written: a remark, white space, or a store. */
  datatype AlternatesLine = Remark(text: string) | White(text: string) | Store(path: Path)

  predicate LineOk(l: AlternatesLine) {
    match l
    case Remark(text) => Lacks(NEWLINE, text)
    case White(text) => Lacks(NEWLINE, text) && AllSpace(text, ByteSpace())
    case Store(path) => Lacks(NEWLINE, path) && path != "" && path[0] != '#' && Stripped(path, ByteSpace())
  }

  function LineText(l: AlternatesLine): string {
    match l
    case Remark(text) => "#" + text
    case White(text) => text
    case Store(path) => path
  }

  function LineTexts(ls: seq<AlternatesLine>): seq<string> {
    if ls == [] then [""] else [LineText(ls[0])] + LineTexts(ls[1..])
  }

  function PrintAlternates(ls: seq<AlternatesLine>): string {
    Join(NEWLINE, LineTexts(ls))
  }

  /** The stores of the lines, relative ones below the listing store. */
  function StoresOf(store: Path, why: Reason, ls: seq<AlternatesLine>): seq<Item> {
    if ls == [] then []
    else
      (if ls[0].Store? then [Item(Target(store, ls[0].path), why, Some((store, FileOf(why))))] else [])
      + StoresOf(store, why, ls[1..])
  }

  lemma {:induction false} StripWhite(s: string, space: char -> bool)
    requires AllSpace(s, space)
    ensures Strip(s, space) == ""
  {
    if s != "" {
      StripWhite(s[1..], space);
    }
  }

  lemma StripRemark(text: string)
    ensures StartsWith(Strip("#" + text, ByteSpace()), "#")
  {
    var s := "#" + text;
    StripRightPrefix(s, ByteSpace());
    StripRightKeepsFirst(s, ByteSpace());
  }

  lemma {:induction false} StripRightPrefix(s: string, space: char -> bool)
    ensures StripRight(s, space) == s[..|StripRight(s, space)|]
  {
    if s != [] && space(s[|s| - 1]) {
      StripRightPrefix(s[..|s| - 1], space);
    }
  }

  lemma LineRead(store: Path, why: Reason, l: AlternatesLine)
    requires LineOk(l)
    ensures LineItem(store, why, LineText(l))
         == if l.Store? then [Item(Target(store, l.path), why, Some((store, FileOf(why))))] else []
    ensures Lacks(NEWLINE, LineText(l))
  {
    match l
    case Remark(text) => StripRemark(text);
    case White(text) => StripWhite(text, ByteSpace());
    case Store(path) =>
      StripFixed(path, ByteSpace());
      assert path[..1][0] != '#';
  }

  lemma {:induction false} LinesRead(store: Path, why: Reason, ls: seq<AlternatesLine>)
    requires forall i :: 0 <= i < |ls| ==> LineOk(ls[i])
    ensures LinesItems(store, why, LineTexts(ls)) == StoresOf(store, why, ls)
    ensures LineTexts(ls) != [] && forall i :: 0 <= i < |LineTexts(ls)| ==> Lacks(NEWLINE, LineTexts(ls)[i])
  {
    hide LineItem, LineText, LineOk, Lacks;
    if ls == [] {
      LineRead(store, why, White(""));
      EmptyLine();
      assert [""][1..] == [];
    } else {
      LinesRead(store, why, ls[1..]);
      LineRead(store, why, ls[0]);
      assert ([LineText(ls[0])] + LineTexts(ls[1..]))[1..] == LineTexts(ls[1..]);
    }
  }

  lemma EmptyLine()
    ensures LineOk(White("")) && LineText(White("")) == "" && Lacks(NEWLINE, "")
  {
  }

  /** A written alternates file lists exactly the stores written into it, in order. */
  lemma AlternatesRoundTrip(fs: FileSystem, store: Path, why: Reason, ls: seq<AlternatesLine>)
    requires forall i :: 0 <= i < |ls| ==> LineOk(ls[i])
    requires Read(fs, store, FileOf(why)) == Some(PrintAlternates(ls))
    ensures ListedIn(fs, store, why) == StoresOf(store, why, ls)
  {
    hide LineOk, LinesItems, StoresOf, LineTexts, Split, Lacks;
    LinesRead(store, why, ls);
    SplitJoin(NEWLINE, LineTexts(ls));
  }

  /** A store as it is meant: from the root, or some climbs and components from the
      store that lists it. */
  datatype Place = At(components: seq<string>) | From(up: nat, components: seq<string>)

  predicate PlaceOk(store: seq<string>, p: Place) {
    Components(p.components)
    && (p.From? ==> p.up <= |store| && p.up + |p.components| > 0)
  }

  function Written(p: Place): AlternatesLine {
    match p
    case At(cs) => Store(Absolute(cs))
    case From(up, cs) => Store(Relative(up, cs))
  }

  /** A line of text, or a place. */
  datatype Entered = Aside(line: AlternatesLine) | Named(place: Place)

  function LineOf(e: Entered): AlternatesLine {
    match e
    case Aside(line) => line
    case Named(p) => Written(p)
  }

  predicate EnteredOk(store: seq<string>, e: Entered) {
    LineOk(LineOf(e)) && match e { case Aside(line) => !line.Store? case Named(p) => PlaceOk(store, p) }
  }

  function LinesOf(es: seq<Entered>): (ls: seq<AlternatesLine>)
    ensures |ls| == |es| && forall i :: 0 <= i < |es| ==> ls[i] == LineOf(es[i])
  {
    if es == [] then [] else [LineOf(es[0])] + LinesOf(es[1..])
  }

  /** The components of the places, in order. */
  function PlacesOf(store: seq<string>, es: seq<Entered>): seq<seq<string>>
    requires forall i :: 0 <= i < |es| ==> EnteredOk(store, es[i])
  {
    if es == [] then []
    else
      var rest := PlacesOf(store, es[1..]);
      assert EnteredOk(store, es[0]);
      match es[0]
      case Aside(_) => rest
      case Named(At(cs)) => [cs] + rest
      case Named(From(up, cs)) => [store[..|store| - up] + cs] + rest
  }

  lemma TargetOf(store: seq<string>, p: Place)
    requires Components(store) && PlaceOk(store, p)
    ensures p.At? ==> Target(Absolute(store), Written(p).path) == Absolute(p.components)
    ensures p.From? ==>
      Target(Absolute(store), Written(p).path) == Absolute(store[..|store| - p.up] + p.components)
  {
    hide NormPath, Component, Absolute, Relative, JoinPath;
    match p
    case At(cs) => AbsolutePointed(Absolute(store), cs);
    case From(up, cs) => RelativePointed(store, up, cs);
  }

  lemma {:induction false} PlacesListed(store: seq<string>, why: Reason, es: seq<Entered>)
    requires Components(store) && forall i :: 0 <= i < |es| ==> EnteredOk(store, es[i])
    ensures
      var items, places := StoresOf(Absolute(store), why, LinesOf(es)), PlacesOf(store, es);
      |items| == |places| && forall i :: 0 <= i < |items| ==> items[i].path == Absolute(places[i])
  {
    hide Components, Absolute, Relative, LineOk, Target;
    if es != [] {
      PlacesListed(store, why, es[1..]);
      assert EnteredOk(store, es[0]);
      assert LinesOf(es)[1..] == LinesOf(es[1..]);
      if es[0].Named? {
        TargetOf(store, es[0].place);
      }
    }
  }

  predicate AllEntered(store: seq<string>, es: seq<Entered>) {
    forall i :: 0 <= i < |es| ==> EnteredOk(store, es[i])
  }

  /** One file of a store: not there, or printed. */
  predicate FileIs(fs: FileSystem, store: seq<string>, name: string, es: Option<seq<Entered>>) {
    var key := (Absolute(store), name);
    match es
    case None => key !in fs.files
    case Some(entered) =>
      AllEntered(store, entered) && key in fs.files && fs.files[key] == PrintAlternates(LinesOf(entered))
  }

  function PlacesIn(store: seq<string>, es: Option<seq<Entered>>): seq<seq<string>>
    requires es.Some? ==> AllEntered(store, es.value)
  {
    if es.Some? then PlacesOf(store, es.value) else []
  }

  lemma ListedPlaces(fs: FileSystem, store: seq<string>, why: Reason, es: Option<seq<Entered>>)
    requires Components(store) && !why.Primary?
    requires FileIs(fs, store, if why.Alternates? then "info/alternates" else "info/http-alternates", es)
    ensures
      var items, places := ListedIn(fs, Absolute(store), why), PlacesIn(store, es);
      && |items| == |places|
      && forall i :: 0 <= i < |items| ==> items[i].path == Absolute(places[i]) && items[i].reason == why
  {
    hide LineOk, PrintAlternates, StoresOf, PlacesOf, Components, EnteredOk, LinesOf;
    assert "info/alternates"[..1] == "i" && "info/http-alternates"[..1] == "i";
    ListedInVia(fs, Absolute(store), why);
    if es.Some? {
      forall i | 0 <= i < |es.value|
        ensures LineOk(LinesOf(es.value)[i])
      {
        EnteredIsLine(store, es.value, i);
      }
      AlternatesRoundTrip(fs, Absolute(store), why, LinesOf(es.value));
      PlacesListed(store, why, es.value);
    }
  }

  lemma EnteredIsLine(store: seq<string>, es: seq<Entered>, i: nat)
    requires AllEntered(store, es) && i < |es|
    ensures LineOk(LinesOf(es)[i])
  {
  }

  /** What a store leads to: the places written into its two files, in order, ordinary
      ones first, an absolute place as it stands, a relative one from the store. */
  lemma AlternatesLead(
      fs: FileSystem, store: seq<string>, es: Option<seq<Entered>>, hs: Option<seq<Entered>>)
    requires Components(store)
    requires FileIs(fs, store, "info/alternates", es) && FileIs(fs, store, "info/http-alternates", hs)
    ensures
      var items, places := Successors(fs, Absolute(store)), PlacesIn(store, es) + PlacesIn(store, hs);
      && |items| == |places|
      && (forall i :: 0 <= i < |items| ==> items[i].path == Absolute(places[i]))
      && (forall i :: 0 <= i < |items| ==>
            items[i].reason == if i < |PlacesIn(store, es)| then Alternates else HttpAlternates)
  {
    hide ListedIn, PlacesIn, FileIs, Components, Absolute;
    ListedPlaces(fs, store, Alternates, es);
    ListedPlaces(fs, store, HttpAlternates, hs);
  }

  /** The primary store lies in the shared directory. */
  lemma PrimaryStore(common: seq<string>)
    requires Components(common)
    ensures Start(Absolute(common)) == Item(Absolute(common + ["objects"]), Primary, None)
  {
    hide NormPath, JoinPath, Component, Absolute, Relative;
    ObjectsIsComponent();
    RelativePointed(common, 0, ["objects"]);
    assert common[..|common|] + ["objects"] == common + ["objects"];
    assert Climb(0) + ["objects"] == ["objects"];
  }

  lemma ObjectsIsComponent()
    ensures Component("objects") && Relative(0, ["objects"]) == "objects"
  {
    assert Climb(0) + ["objects"] == ["objects"];
  }

  // --------------------------------------------------------------- the walk

  datatype Entry = Entry(item: Item, exists_: bool, alternates: Option<string>, http: Option<string>)

  function Items(out: seq<Entry>): (items: seq<Item>)
    ensures |items| == |out| && forall i :: 0 <= i < |out| ==> items[i] == out[i].item
  {
    seq(|out|, i requires 0 <= i < |out| => out[i].item)
  }

  function Content(fs: FileSystem, dir: Path, name: string): Option<string> {
    if (dir, name) in fs.files then Some(fs.files[(dir, name)]) else None
  }

  /** What an entry records about its store. */
  predicate Records(fs: FileSystem, e: Entry) {
    var s := e.item.path;
    && e.exists_ == (s in fs.dirs)
    && e.alternates == Read(fs, s, FileOf(Alternates))
    && e.http == Read(fs, s, FileOf(HttpAlternates))
  }

  lemma RecordsMean(fs: FileSystem, e: Entry)
    requires Records(fs, e)
    ensures e.exists_ <==> e.item.path in fs.dirs
    ensures e.alternates == Content(fs, e.item.path, "info/alternates")
    ensures e.http == Content(fs, e.item.path, "info/http-alternates")
  {
    assert "info/alternates"[..1] == "i" && "info/http-alternates"[..1] == "i";
  }

  lemma Reassociate<T>(a: seq<T>, b: seq<T>, c: seq<T>)
    ensures a + (b + c) == a + b + c
  {
  }

  /** The inner loop over the lines of one alternates file. */
  method ReadLines(store: Path, why: Reason, raw: string) returns (found: seq<Item>)
    ensures found == LinesItems(store, why, Split(NEWLINE, raw))
  {
    var lines := Split(NEWLINE, raw);
    found := [];
    for i := 0 to |lines|
      invariant found + LinesItems(store, why, lines[i..]) == LinesItems(store, why, lines)
    {
      var ln := Strip(lines[i], ByteSpace());
      ghost var rest := LinesItems(store, why, lines[i + 1..]);
      assert lines[i..][1..] == lines[i + 1..] && lines[i..][0] == lines[i];
      Reassociate(found, LineItem(store, why, lines[i]), rest);
      if ln == [] || StartsWith(ln, "#") {
        assert found + [] == found;
      } else {
        found := found + [Item(Target(store, ln), why, Some((store, FileOf(why))))];
      }
    }
    assert found + [] == found;
  }

  method ListSuccessors(store: Path, alternates: Option<string>, http: Option<string>, ghost fs: FileSystem)
    returns (found: seq<Item>)
    requires alternates == Read(fs, store, FileOf(Alternates)) && http == Read(fs, store, FileOf(HttpAlternates))
    ensures found == Successors(fs, store)
    ensures alternates.None? && http.None? ==> found == []
  {
    found := [];
    if alternates.Some? {
      found := ReadLines(store, Alternates, alternates.value);
    }
    assert found == ListedIn(fs, store, Alternates);
    if http.Some? {
      var more := ReadLines(store, HttpAlternates, http.value);
      found := found + more;
    }
  }

  /** The files of stores that have not been visited yet. */
  ghost function Unread(fs: FileSystem, seen: set<Path>): set<(Path, string)> {
    set f | f in fs.files && f.0 !in seen
  }

  lemma ReadingShrinks(fs: FileSystem, seen: set<Path>, store: Path)
    requires store !in seen
    ensures Unread(fs, seen + {store}) <= Unread(fs, seen)
    ensures Read(fs, store, FileOf(Alternates)).Some? || Read(fs, store, FileOf(HttpAlternates)).Some?
            ==> |Unread(fs, seen + {store})| < |Unread(fs, seen)|
    ensures |Unread(fs, seen + {store})| <= |Unread(fs, seen)|
  {
    var a, b := (store, FileOf(Alternates)), (store, FileOf(HttpAlternates));
    var small, big := Unread(fs, seen + {store}), Unread(fs, seen);
    assert "info/alternates"[..1] == "i" && "info/http-alternates"[..1] == "i";
    assert small <= big;
    SubsetSize(small, big);
    if a in fs.files {
      assert a in big && a !in small;
    }
    if b in fs.files {
      assert b in big && b !in small;
    }
  }

  /** The loop over the queue, from any start item. */
  method Walk(fs: FileSystem, start: Item, ghost g: Graph)
    returns (out: seq<Entry>, ghost items: seq<Item>, ghost all: seq<Item>, ghost hops: seq<nat>, ghost depth: seq<nat>)
    requires forall s :: g(s) == Successors(fs, s)
    ensures Inv(g, start, items, all, |all|, hops, depth)
    ensures |out| == |items| && forall i :: 0 <= i < |out| ==> out[i].item == items[i] && Records(fs, out[i])
  {
    hide Inv;
    var seen: set<Path> := {};
    var queue := [start];
    out := [];
    ghost var k: nat := 0;
    items, all, hops, depth := [], [start], [], [0];
    InvStart(g, start);
    while queue != []
      invariant Inv(g, start, items, all, k, hops, depth)
      invariant k <= |all| == |depth| && queue == all[k..]
      invariant |out| == |items| && forall i :: 0 <= i < |out| ==> out[i].item == items[i] && Records(fs, out[i])
      invariant forall t :: t in seen <==> Has(items, t)
      decreases |Unread(fs, seen)|, |queue|
    {
      var item := queue[0];
      queue := queue[1..];
      assert item == all[k] && queue == all[k + 1..];
      if item.path in seen {
        Skip(g, start, items, all, k, hops, depth);
        k := k + 1;
        continue;
      }
      var store := item.path;
      var alternates, http := Read(fs, store, FileOf(Alternates)), Read(fs, store, FileOf(HttpAlternates));
      var entry := Entry(item, store in fs.dirs, alternates, http);
      var found := ListSuccessors(store, alternates, http, fs);
      Visit(g, start, items, all, k, hops, depth);
      ReadingShrinks(fs, seen, store);
      SeenGrows(items, item, seen);
      QueueGrows(all, found, k);
      seen := seen + {store};
      out := out + [entry];
      queue := queue + found;
      hops, depth := hops + [depth[k]], depth + Layer(found, depth[k] + 1);
      items, all, k := items + [item], all + found, k + 1;
    }
    assert |queue| == |all| - k == 0;
  }

  lemma SeenGrows(items: seq<Item>, item: Item, seen: set<Path>)
    requires forall t :: t in seen <==> Has(items, t)
    ensures forall t :: t in seen + {item.path} <==> Has(items + [item], t)
  {
    forall t ensures t in seen + {item.path} <==> Has(items + [item], t) {
      HasAppend(items, [item], t);
      assert [item][0] == item;
    }
  }

  lemma QueueGrows(all: seq<Item>, found: seq<Item>, k: nat)
    requires k < |all|
    ensures (all + found)[k + 1..] == all[k + 1..] + found
  {
  }

  method ResolveObjectStores(fs: FileSystem, commondir: Path) returns (out: seq<Entry>, ghost hops: seq<nat>)
    // primary first, no store twice
    ensures out != [] && out[0].item == Start(commondir)
    ensures forall i, j :: 0 <= i < j < |out| ==> out[i].item.path != out[j].item.path
    // exactly the closure of the primary store
    ensures forall t :: Has(Items(out), t) <==> Reachable(StoreGraph(fs), Start(commondir).path, t)
    // every other entry is listed by a file of an earlier one
    ensures forall i :: 0 < i < |out| ==> Listed(StoreGraph(fs), out[i].item, Items(out)[..i])
    // breadth first
    ensures |hops| == |out| && Ascending(hops)
    ensures forall i :: 0 <= i < |out| ==> AtDistance(StoreGraph(fs), Start(commondir).path, out[i].item.path, hops[i])
    // in order of first mention
    ensures Items(out) == Firsts([Start(commondir)] + Discovered(StoreGraph(fs), Items(out)))
    // each with what is found there
    ensures forall i :: 0 <= i < |out| ==>
      var store := out[i].item.path;
      && (out[i].exists_ <==> store in fs.dirs)
      && out[i].alternates == Content(fs, store, "info/alternates")
      && out[i].http == Content(fs, store, "info/http-alternates")
  {
    hide Inv, Records, Content, Reachable, AtDistance, Firsts, Discovered, Listed, Has;
    ghost var g := StoreGraph(fs);
    ghost var items: seq<Item>, all: seq<Item>, depth: seq<nat>;
    out, items, all, hops, depth := Walk(fs, Start(commondir), g);
    WalkComplete(g, Start(commondir), items, all, hops, depth);
    assert Items(out) == items;
    forall i | 0 <= i < |out|
      ensures out[i].exists_ <==> out[i].item.path in fs.dirs
      ensures out[i].alternates == Content(fs, out[i].item.path, "info/alternates")
      ensures out[i].http == Content(fs, out[i].item.path, "info/http-alternates")
    {
      RecordsMean(fs, out[i]);
    }
  }
}
