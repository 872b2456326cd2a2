/** Option, Result and a few facts about sequences used by several components. */
module Common {

  datatype Option<+T> = None | Some(value: T) {
    predicate IsFailure() { None? }
    function PropagateFailure<U>(): Option<U>
      requires None?
    {
      None
    }
    function Extract(): T
      requires Some?
    {
      value
    }
  }

  datatype Result<+T, +E> = Ok(value: T) | Err(error: E) {
    predicate IsFailure() { Err? }
    function PropagateFailure<U>(): Result<U, E>
      requires Err?
    {
      Err(error)
    }
    function Extract(): T
      requires Ok?
    {
      value
    }
  }

  /** The concatenation of a list of sequences, in order. */
  function Concat<T>(parts: seq<seq<T>>): seq<T> {
    if parts == [] then [] else parts[0] + Concat(parts[1..])
  }

  lemma ConcatCons<T>(part: seq<T>, rest: seq<seq<T>>)
    ensures Concat([part] + rest) == part + Concat(rest)
  {
    assert ([part] + rest)[1..] == rest;
  }

  lemma {:induction false} ConcatAppend<T>(a: seq<seq<T>>, b: seq<seq<T>>)
    ensures Concat(a + b) == Concat(a) + Concat(b)
  {
    if a == [] {
      assert a + b == b;
    } else {
      assert (a + b)[1..] == a[1..] + b;
      ConcatAppend(a[1..], b);
    }
  }

  predicate NoDuplicates<T(==)>(xs: seq<T>) {
    forall i, j :: 0 <= i < j < |xs| ==> xs[i] != xs[j]
  }

  function Filter<T>(xs: seq<T>, keep: T -> bool): seq<T> {
    if xs == [] then [] else (if keep(xs[0]) then [xs[0]] else []) + Filter(xs[1..], keep)
  }

  lemma FilterEmpty<T>(keep: T -> bool)
    ensures Filter([], keep) == []
  {
  }

  lemma FilterCons<T>(x: T, rest: seq<T>, keep: T -> bool)
    ensures Filter([x] + rest, keep) == (if keep(x) then [x] else []) + Filter(rest, keep)
  {
    assert ([x] + rest)[1..] == rest;
  }

  lemma {:induction false} FilterAppend<T>(a: seq<T>, b: seq<T>, keep: T -> bool)
    ensures Filter(a + b, keep) == Filter(a, keep) + Filter(b, keep)
  {
    hide Filter;
    if a == [] {
      FilterEmpty(keep);
      assert a + b == b && [] + Filter(b, keep) == Filter(b, keep);
    } else {
      var rest := a[1..];
      assert a == [a[0]] + rest && a + b == [a[0]] + (rest + b);
      FilterCons(a[0], rest + b, keep);
      FilterCons(a[0], rest, keep);
      FilterAppend(rest, b, keep);
    }
  }

  lemma FilterSnoc<T>(xs: seq<T>, x: T, keep: T -> bool)
    ensures Filter(xs + [x], keep) == Filter(xs, keep) + (if keep(x) then [x] else [])
  {
    hide Filter;
    FilterAppend(xs, [x], keep);
    FilterCons(x, [], keep);
    FilterEmpty(keep);
    assert [x] + [] == [x];
  }

  lemma {:induction false} FilterKeeps<T>(xs: seq<T>, keep: T -> bool)
    requires forall x :: x in xs ==> keep(x)
    ensures Filter(xs, keep) == xs
  {
    if xs != [] {
      FilterKeeps(xs[1..], keep);
    }
  }

  lemma {:induction false} FilterMembers<T>(xs: seq<T>, keep: T -> bool)
    ensures forall x :: x in Filter(xs, keep) <==> x in xs && keep(x)
  {
    if xs != [] {
      FilterMembers(xs[1..], keep);
      assert xs == [xs[0]] + xs[1..];
    }
  }

  /** The distinct elements in the order they are first seen. */
  function FirstSeen<T(==)>(xs: seq<T>): seq<T> {
    if xs == [] then []
    else
      var init := FirstSeen(xs[..|xs| - 1]);
      if xs[|xs| - 1] in init then init else init + [xs[|xs| - 1]]
  }

  /** `x` occurs in `xs` for the first time at index i. */
  predicate FirstAt<T(==)>(xs: seq<T>, x: T, i: nat) {
    i < |xs| && xs[i] == x && x !in xs[..i]
  }

  /** Every element once, in the order of first occurrence. */
  lemma {:induction false} FirstSeenSpec<T>(xs: seq<T>)
    ensures NoDuplicates(FirstSeen(xs))
    ensures forall x :: x in FirstSeen(xs) <==> x in xs
    ensures forall i, j, a: nat, b: nat ::
      (0 <= i < j < |FirstSeen(xs)| && FirstAt(xs, FirstSeen(xs)[i], a) && FirstAt(xs, FirstSeen(xs)[j], b)) ==> a < b
  {
    if xs != [] {
      var n := |xs| - 1;
      var init, last := xs[..n], xs[n];
      FirstSeenSpec(init);
      assert xs == init + [last];
      forall x, a: nat | FirstAt(xs, x, a) && a < n ensures FirstAt(init, x, a) {
        assert init[..a] == xs[..a];
      }
      forall x, a: nat | FirstAt(xs, x, a) && x in init ensures a < n {
        assert x in xs[..n];
      }
    }
  }

  lemma {:induction false} SubsetSize<T>(a: set<T>, b: set<T>)
    requires a <= b
    ensures |a| <= |b| && (a != b ==> |a| < |b|)
  {
    assert b == a + (b - a);
    assert |b| == |a| + |b - a|;
    if |b - a| == 0 {
      assert b - a == {};
    }
  }
}
