/** The breadth-first walk behind `resolve_object_stores`
    (probes/z7/rawadmin.py), over any graph whose nodes are named by paths.

    The walk is described by three sequences: `all` is everything ever put on the
    queue, of which the first `k` have been taken off again, and `items` are the
    nodes visited so far. */
module BreadthFirst {
  import opened Common
  import opened RawLayout

  datatype Reason = Primary | Alternates | HttpAlternates

  /** A queued node: its path, why it is listed, and the file that lists it. */
  datatype Item = Item(path: Path, reason: Reason, via: Option<(Path, string)>)

  /** The items each node lists, in order. */
  type Graph = Path -> seq<Item>

  predicate Has(items: seq<Item>, p: Path) {
    exists i :: 0 <= i < |items| && items[i].path == p
  }

  /** `t` can be reached from `p` in at most n hops. */
  ghost predicate Near(g: Graph, p: Path, t: Path, n: nat)
    decreases n
  {
    if n == 0 then t == p
    else Near(g, p, t, n - 1) || exists s :: Near(g, p, s, n - 1) && Has(g(s), t)
  }

  ghost predicate Reachable(g: Graph, p: Path, t: Path) {
    exists n: nat :: Near(g, p, t, n)
  }

  /** The hop distance of `t` from `p` is n. */
  ghost predicate AtDistance(g: Graph, p: Path, t: Path, n: nat) {
    Near(g, p, t, n) && (n > 0 ==> !Near(g, p, t, n - 1))
  }

  lemma {:induction false} NearGrows(g: Graph, p: Path, t: Path, m: nat, n: nat)
    requires m <= n && Near(g, p, t, m)
    ensures Near(g, p, t, n)
    decreases n
  {
    if m < n {
      NearGrows(g, p, t, m, n - 1);
    }
  }

  /** A distance is a minimum, hence unique. */
  lemma DistanceMinimal(g: Graph, p: Path, t: Path, m: nat, n: nat)
    requires AtDistance(g, p, t, m) && Near(g, p, t, n)
    ensures m <= n
    ensures AtDistance(g, p, t, n) ==> m == n
  {
    if n < m { NearGrows(g, p, t, n, m - 1); }
    if m < n { NearGrows(g, p, t, m, n - 1); }
  }

  // ------------------------------------------------------ order of the walk

  /** The first item of every path, in order. */
  function Firsts(items: seq<Item>): seq<Item> {
    if items == [] then []
    else
      var init := Firsts(items[..|items| - 1]);
      var last := items[|items| - 1];
      if Has(init, last.path) then init else init + [last]
  }

  /** Everything the given nodes list, in order. */
  function Discovered(g: Graph, items: seq<Item>): seq<Item> {
    if items == [] then []
    else Discovered(g, items[..|items| - 1]) + g(items[|items| - 1].path)
  }

  // ------------------------------------------------------------- invariants

  ghost predicate Queued(g: Graph, start: Item, items: seq<Item>, all: seq<Item>, k: nat) {
    && k <= |all| && all == [start] + Discovered(g, items)
    && items == Firsts(all[..k])
    && (forall i :: 0 <= i < k ==> Has(items, all[i].path))
    && (k > 0 ==> items != [] && items[0] == start)
    && (k == 0 ==> items == [])
  }

  predicate Ascending(d: seq<nat>) {
    forall i, j :: 0 <= i < j < |d| ==> d[i] <= d[j]
  }

  /** Queue depths ascend, and by at most one past the last visited node. */
  ghost predicate Layered(items: seq<Item>, all: seq<Item>, k: nat, hops: seq<nat>, depth: seq<nat>) {
    && |hops| == |items| && |depth| == |all|
    && Ascending(hops) && Ascending(depth)
    && (items == [] ==> forall j :: 0 <= j < |all| ==> depth[j] == 0)
    && (items != [] ==> forall j :: 0 <= j < |all| ==> depth[j] <= hops[|hops| - 1] + 1)
    && (items != [] ==> forall j :: k <= j < |all| ==> hops[|hops| - 1] <= depth[j])
  }

  ghost predicate Measured(g: Graph, p: Path, items: seq<Item>, all: seq<Item>, hops: seq<nat>, depth: seq<nat>)
    requires |hops| == |items| && |depth| == |all|
  {
    && (forall j :: 0 <= j < |all| ==> Near(g, p, all[j].path, depth[j]))
    && (forall i :: 0 <= i < |items| ==> AtDistance(g, p, items[i].path, hops[i]))
  }

  ghost predicate QueuedAt(all: seq<Item>, depth: seq<nat>, t: Path, d: nat)
    requires |depth| == |all|
  {
    exists j :: 0 <= j < |all| && all[j].path == t && depth[j] == d
  }

  /** Everything a visited node lists is queued one hop further. */
  ghost predicate Expanded(g: Graph, items: seq<Item>, all: seq<Item>, hops: seq<nat>, depth: seq<nat>)
    requires |hops| == |items| && |depth| == |all|
  {
    forall i, t :: 0 <= i < |items| && Has(g(items[i].path), t) ==> QueuedAt(all, depth, t, hops[i] + 1)
  }

  ghost predicate Listed(g: Graph, it: Item, parents: seq<Item>) {
    exists i :: 0 <= i < |parents| && it in g(parents[i].path)
  }

  ghost predicate Parented(g: Graph, items: seq<Item>, all: seq<Item>) {
    && (forall j :: 0 < j < |all| ==> Listed(g, all[j], items))
    && (forall j :: 0 < j < |items| ==> Listed(g, items[j], items[..j]))
  }

  ghost predicate Inv(
      g: Graph, start: Item, items: seq<Item>, all: seq<Item>, k: nat, hops: seq<nat>, depth: seq<nat>) {
    && Queued(g, start, items, all, k)
    && Layered(items, all, k, hops, depth)
    && Measured(g, start.path, items, all, hops, depth)
    && Expanded(g, items, all, hops, depth)
    && Parented(g, items, all)
  }

  // ------------------------------------------------------------------ steps

  lemma InvStart(g: Graph, start: Item)
    ensures Inv(g, start, [], [start], 0, [], [0])
  {
  }

  /** A node that was visited before is dropped. */
  lemma Skip(g: Graph, start: Item, items: seq<Item>, all: seq<Item>, k: nat, hops: seq<nat>, depth: seq<nat>)
    requires Inv(g, start, items, all, k, hops, depth) && k < |all|
    requires Has(items, all[k].path)
    ensures Inv(g, start, items, all, k + 1, hops, depth)
  {
    assert all[..k + 1][..k] == all[..k];
    assert Firsts(all[..k + 1]) == items;
  }

  /** The part of the invariant that puts near nodes among the visited ones. */
  ghost predicate Frontier(
      g: Graph, p: Path, items: seq<Item>, all: seq<Item>, k: nat, hops: seq<nat>, depth: seq<nat>) {
    && |hops| == |items| && |depth| == |all| && k <= |all|
    && Ascending(depth)
    && (forall i :: 0 <= i < k ==> Has(items, all[i].path))
    && (forall i :: 0 <= i < |items| ==> AtDistance(g, p, items[i].path, hops[i]))
    && Expanded(g, items, all, hops, depth)
    && (k == 0 ==> |all| > 0 && depth[0] == 0)
    && (k > 0 ==> Has(items, p))
  }

  lemma InvFrontier(g: Graph, start: Item, items: seq<Item>, all: seq<Item>, k: nat, hops: seq<nat>, depth: seq<nat>)
    requires Inv(g, start, items, all, k, hops, depth)
    ensures Frontier(g, start.path, items, all, k, hops, depth)
  {
    assert k > 0 ==> items[0].path == start.path;
  }

  lemma NeighbourVisited(g: Graph, p: Path, items: seq<Item>, all: seq<Item>, k: nat, hops: seq<nat>, depth: seq<nat>,
                         m: nat, s: Path, t: Path)
    requires Frontier(g, p, items, all, k, hops, depth)
    requires k < |all| ==> m + 1 < depth[k]
    requires Has(items, s) && Near(g, p, s, m) && Has(g(s), t)
    ensures Has(items, t)
  {
    var i :| 0 <= i < |items| && items[i].path == s;
    DistanceMinimal(g, p, s, hops[i], m);
    assert QueuedAt(all, depth, t, hops[i] + 1);
    var j :| 0 <= j < |all| && all[j].path == t && depth[j] == hops[i] + 1;
    assert j < k;
  }

  /** Nodes closer than the head of the queue have all been visited. */
  lemma {:induction false} NearerVisited(g: Graph, p: Path, items: seq<Item>, all: seq<Item>, k: nat,
                                         hops: seq<nat>, depth: seq<nat>, m: nat, t: Path)
    requires Frontier(g, p, items, all, k, hops, depth)
    requires k < |all| ==> m < depth[k]
    requires Near(g, p, t, m)
    ensures Has(items, t)
    decreases m
  {
    if m > 0 {
      if Near(g, p, t, m - 1) {
        NearerVisited(g, p, items, all, k, hops, depth, m - 1, t);
      } else {
        var s :| Near(g, p, s, m - 1) && Has(g(s), t);
        NearerVisited(g, p, items, all, k, hops, depth, m - 1, s);
        NeighbourVisited(g, p, items, all, k, hops, depth, m - 1, s, t);
      }
    }
  }

  lemma HasAppend(a: seq<Item>, b: seq<Item>, t: Path)
    ensures Has(a + b, t) <==> Has(a, t) || Has(b, t)
  {
    if Has(a, t) {
      var i :| 0 <= i < |a| && a[i].path == t;
      assert (a + b)[i].path == t;
    }
    if Has(b, t) {
      var i :| 0 <= i < |b| && b[i].path == t;
      assert (a + b)[|a| + i].path == t;
    }
  }

  /** A new node is visited and everything it lists is queued behind the rest. */
  ghost function Layer(found: seq<Item>, d: nat): seq<nat> {
    seq(|found|, _ => d)
  }

  lemma VisitQueued(g: Graph, start: Item, items: seq<Item>, all: seq<Item>, k: nat)
    requires Queued(g, start, items, all, k) && k < |all| && !Has(items, all[k].path)
    ensures Queued(g, start, items + [all[k]], all + g(all[k].path), k + 1)
  {
    var found := g(all[k].path);
    var items', all' := items + [all[k]], all + found;
    assert items'[..|items|] == items;
    assert all'[..k + 1] == all[..k + 1] && all[..k + 1][..k] == all[..k];
    assert all' == [start] + (Discovered(g, items) + found);
    forall i | 0 <= i < k + 1 ensures Has(items', all'[i].path) {
      HasAppend(items, [all[k]], all'[i].path);
      assert [all[k]][0] == all[k];
    }
  }

  lemma VisitLayered(items: seq<Item>, all: seq<Item>, k: nat, hops: seq<nat>, depth: seq<nat>, found: seq<Item>)
    requires Layered(items, all, k, hops, depth) && k < |all|
    ensures Layered(items + [all[k]], all + found, k + 1, hops + [depth[k]], depth + Layer(found, depth[k] + 1))
  {
  }

  lemma HeadIsFar(g: Graph, p: Path, items: seq<Item>, all: seq<Item>, k: nat, hops: seq<nat>, depth: seq<nat>)
    requires Frontier(g, p, items, all, k, hops, depth) && k < |all| && !Has(items, all[k].path)
    ensures depth[k] > 0 ==> !Near(g, p, all[k].path, depth[k] - 1)
  {
    if depth[k] > 0 && Near(g, p, all[k].path, depth[k] - 1) {
      NearerVisited(g, p, items, all, k, hops, depth, depth[k] - 1, all[k].path);
    }
  }

  lemma HeadDistance(g: Graph, start: Item, items: seq<Item>, all: seq<Item>, k: nat, hops: seq<nat>, depth: seq<nat>)
    requires Inv(g, start, items, all, k, hops, depth) && k < |all| && !Has(items, all[k].path)
    ensures AtDistance(g, start.path, all[k].path, depth[k])
  {
    InvFrontier(g, start, items, all, k, hops, depth);
    HeadIsFar(g, start.path, items, all, k, hops, depth);
  }

  lemma VisitMeasured(g: Graph, p: Path, items: seq<Item>, all: seq<Item>, k: nat, hops: seq<nat>, depth: seq<nat>)
    requires |hops| == |items| && |depth| == |all| && k < |all|
    requires Measured(g, p, items, all, hops, depth) && AtDistance(g, p, all[k].path, depth[k])
    ensures
      var found := g(all[k].path);
      Measured(g, p, items + [all[k]], all + found, hops + [depth[k]], depth + Layer(found, depth[k] + 1))
  {
    var d, found := depth[k], g(all[k].path);
    var all', depth' := all + found, depth + Layer(found, d + 1);
    forall j | 0 <= j < |all'| ensures Near(g, p, all'[j].path, depth'[j]) {
      if j >= |all| {
        assert found[j - |all|] == all'[j] && depth'[j] == d + 1;
        assert Has(g(all[k].path), all'[j].path);
      }
    }
  }

  lemma VisitExpanded(g: Graph, items: seq<Item>, all: seq<Item>, k: nat, hops: seq<nat>, depth: seq<nat>)
    requires |hops| == |items| && |depth| == |all| && k < |all|
    requires Expanded(g, items, all, hops, depth)
    ensures
      var found := g(all[k].path);
      Expanded(g, items + [all[k]], all + found, hops + [depth[k]], depth + Layer(found, depth[k] + 1))
  {
    var it, d := all[k], depth[k];
    var found := g(it.path);
    var items', all', hops', depth' := items + [it], all + found, hops + [d], depth + Layer(found, d + 1);
    forall i, t | 0 <= i < |items'| && Has(g(items'[i].path), t) ensures QueuedAt(all', depth', t, hops'[i] + 1) {
      if i < |items| {
        assert QueuedAt(all, depth, t, hops[i] + 1);
        var j :| 0 <= j < |all| && all[j].path == t && depth[j] == hops[i] + 1;
        assert all'[j].path == t && depth'[j] == hops'[i] + 1;
      } else {
        var j :| 0 <= j < |found| && found[j].path == t;
        assert all'[|all| + j].path == t && depth'[|all| + j] == d + 1;
      }
    }
  }

  lemma ListedGrows(g: Graph, it: Item, parents: seq<Item>, more: seq<Item>)
    requires Listed(g, it, parents)
    ensures Listed(g, it, parents + more)
  {
    var i :| 0 <= i < |parents| && it in g(parents[i].path);
    assert (parents + more)[i] == parents[i];
  }

  lemma VisitParented(g: Graph, items: seq<Item>, all: seq<Item>, k: nat)
    requires k < |all| && Parented(g, items, all) && (items != [] ==> k > 0)
    ensures Parented(g, items + [all[k]], all + g(all[k].path))
  {
    var it := all[k];
    var items', all' := items + [it], all + g(it.path);
    forall j | 0 < j < |all'| ensures Listed(g, all'[j], items') {
      if j < |all| {
        ListedGrows(g, all[j], items, [it]);
        assert all'[j] == all[j];
      } else {
        assert items'[|items|] == it && all'[j] in g(it.path);
      }
    }
    forall j | 0 < j < |items'| ensures Listed(g, items'[j], items'[..j]) {
      assert items'[..j] == items[..j];
      if j == |items| {
        assert items[..j] == items && items'[j] == all[k];
      }
    }
  }

  lemma Visit(g: Graph, start: Item, items: seq<Item>, all: seq<Item>, k: nat, hops: seq<nat>, depth: seq<nat>)
    requires Inv(g, start, items, all, k, hops, depth) && k < |all| && !Has(items, all[k].path)
    ensures
      var found := g(all[k].path);
      Inv(g, start, items + [all[k]], all + found, k + 1, hops + [depth[k]], depth + Layer(found, depth[k] + 1))
  {
    VisitQueued(g, start, items, all, k);
    VisitLayered(items, all, k, hops, depth, g(all[k].path));
    HeadDistance(g, start, items, all, k, hops, depth);
    VisitMeasured(g, start.path, items, all, k, hops, depth);
    VisitExpanded(g, items, all, k, hops, depth);
    VisitParented(g, items, all, k);
  }

  // ----------------------------------------------------------------- result

  lemma {:induction false} FirstsDistinct(items: seq<Item>)
    ensures forall i, j :: 0 <= i < j < |Firsts(items)| ==> Firsts(items)[i].path != Firsts(items)[j].path
  {
    if items != [] {
      FirstsDistinct(items[..|items| - 1]);
    }
  }

  lemma ReachableVisited(g: Graph, p: Path, items: seq<Item>, all: seq<Item>, hops: seq<nat>, depth: seq<nat>, t: Path)
    requires Frontier(g, p, items, all, |all|, hops, depth)
    ensures Has(items, t) <==> Reachable(g, p, t)
  {
    if Reachable(g, p, t) {
      var n: nat :| Near(g, p, t, n);
      NearerVisited(g, p, items, all, |all|, hops, depth, n, t);
    }
    if Has(items, t) {
      var i :| 0 <= i < |items| && items[i].path == t;
      assert Near(g, p, t, hops[i]);
    }
  }

  /** When the queue is empty the visited nodes are exactly the reachable ones. */
  lemma WalkComplete(g: Graph, start: Item, items: seq<Item>, all: seq<Item>, hops: seq<nat>, depth: seq<nat>)
    requires Inv(g, start, items, all, |all|, hops, depth)
    ensures items == Firsts([start] + Discovered(g, items)) && items != [] && items[0] == start
    ensures forall t :: Has(items, t) <==> Reachable(g, start.path, t)
    ensures forall i, j :: 0 <= i < j < |items| ==> items[i].path != items[j].path
    ensures forall i :: 0 < i < |items| ==> Listed(g, items[i], items[..i])
    ensures |hops| == |items| && Ascending(hops)
    ensures forall i :: 0 <= i < |items| ==> AtDistance(g, start.path, items[i].path, hops[i])
  {
    assert all[..|all|] == all;
    FirstsDistinct(all);
    InvFrontier(g, start, items, all, |all|, hops, depth);
    forall t {
      ReachableVisited(g, start.path, items, all, hops, depth, t);
    }
  }
}
