/** Subsequences: keeping fewer elements, in the same order. */
module Subsequences {
  import opened Common

  predicate Subsequence(a: seq<string>, b: seq<string>)
    decreases |b|
  {
    a == [] || (b != [] && ((a[0] == b[0] && Subsequence(a[1..], b[1..])) || Subsequence(a, b[1..])))
  }

  /** Ascending places in `b` where the elements of `a` stand. */
  predicate Embedding(places: seq<nat>, a: seq<string>, b: seq<string>) {
    && |places| == |a|
    && (forall k :: 0 <= k < |a| ==> places[k] < |b| && b[places[k]] == a[k])
    && (forall j, k :: 0 <= j < k < |a| ==> places[j] < places[k])
  }

  function Shift(places: seq<nat>): (r: seq<nat>)
    ensures |r| == |places| && forall k :: 0 <= k < |r| ==> r[k] == places[k] + 1
  {
    if places == [] then [] else [places[0] + 1] + Shift(places[1..])
  }

  function Unshift(places: seq<nat>): (r: seq<nat>)
    requires forall k :: 0 <= k < |places| ==> places[k] > 0
    ensures |r| == |places| && forall k :: 0 <= k < |r| ==> r[k] == places[k] - 1
  {
    if places == [] then [] else [places[0] - 1] + Unshift(places[1..])
  }

  lemma {:induction false} EmbeddingOf(a: seq<string>, b: seq<string>) returns (places: seq<nat>)
    requires Subsequence(a, b)
    ensures Embedding(places, a, b)
    decreases |b|
  {
    if a == [] {
      places := [];
    } else if a[0] == b[0] && Subsequence(a[1..], b[1..]) {
      var rest := EmbeddingOf(a[1..], b[1..]);
      places := [0] + Shift(rest);
    } else {
      var rest := EmbeddingOf(a, b[1..]);
      places := Shift(rest);
    }
  }

  lemma {:induction false} EmbeddedIsSubsequence(places: seq<nat>, a: seq<string>, b: seq<string>)
    requires Embedding(places, a, b)
    ensures Subsequence(a, b)
    decreases |b|
  {
    if a != [] {
      if places[0] == 0 {
        var rest := Unshift(places[1..]);
        assert Embedding(rest, a[1..], b[1..]);
        EmbeddedIsSubsequence(rest, a[1..], b[1..]);
      } else {
        assert forall k :: 0 < k < |a| ==> places[0] < places[k];
        var rest := Unshift(places);
        assert Embedding(rest, a, b[1..]);
        EmbeddedIsSubsequence(rest, a, b[1..]);
      }
    }
  }

  /** The recursive and the positional reading agree. */
  lemma SubsequenceIsEmbedding(a: seq<string>, b: seq<string>)
    ensures Subsequence(a, b) <==> exists places :: Embedding(places, a, b)
  {
    if Subsequence(a, b) {
      var _ := EmbeddingOf(a, b);
    } else if places :| Embedding(places, a, b) {
      EmbeddedIsSubsequence(places, a, b);
    }
  }

  lemma {:induction false} DropHead(a: seq<string>, b: seq<string>)
    requires a != [] && Subsequence(a, b)
    ensures Subsequence(a[1..], b)
    decreases |b|
  {
    if a[0] == b[0] && Subsequence(a[1..], b[1..]) {
    } else {
      DropHead(a, b[1..]);
    }
  }

  /** Taking the first match never hurts. */
  lemma TakeFirst(a: seq<string>, b: seq<string>)
    requires a != [] && b != [] && a[0] == b[0]
    ensures Subsequence(a, b) <==> Subsequence(a[1..], b[1..])
  {
    if Subsequence(a, b[1..]) {
      DropHead(a, b[1..]);
    }
  }

  lemma {:induction false} FilterSubsequence(xs: seq<string>, p: string -> bool, q: string -> bool)
    requires forall x :: x in xs && p(x) ==> q(x)
    ensures Subsequence(Filter(xs, p), Filter(xs, q))
  {
    if xs != [] {
      FilterSubsequence(xs[1..], p, q);
      var a, b := Filter(xs[1..], p), Filter(xs[1..], q);
      assert Filter(xs, p) == if p(xs[0]) then [xs[0]] + a else a;
      assert Filter(xs, q) == if q(xs[0]) then [xs[0]] + b else b;
      if p(xs[0]) {
        assert ([xs[0]] + a)[1..] == a && ([xs[0]] + b)[1..] == b;
      } else if q(xs[0]) {
        assert ([xs[0]] + b)[1..] == b;
      }
    }
  }
}
