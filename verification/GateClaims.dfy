/** The checks of scripts/gate/claims.py on emitted sections, and the bisection for
    the largest single argument. */
module GateClaims {
  import opened Common
  import opened Subsequences

  const PREAMBLE: string := "ENVELOPE_PRECEDENCE_PREAMBLE"

  /** `SECTION_ORDER` of src/sol_claude_dispatcher/worker_context.py. */
  function SectionOrder(): seq<string> {
    ["DISPATCHER_SYSTEM_POLICY", "TASK_ENVELOPE", PREAMBLE, "CORE_APPROVED_SKILLS", "CONTEXTUAL_SKILLS",
     "CURATED_ROOT_GUIDANCE", "CURATED_IN_SCOPE_SUBPROJECT_GUIDANCE", "GRAPH_REFRESH_CLAUSE"]
  }

  predicate IsProjected(s: string) {
    || s == "CORE_APPROVED_SKILLS" || s == "CONTEXTUAL_SKILLS" || s == "CURATED_ROOT_GUIDANCE"
    || s == "CURATED_IN_SCOPE_SUBPROJECT_GUIDANCE" || s == "GRAPH_REFRESH_CLAUSE"
  }

  /** `_is_subsequence`: one pass of an iterator over `order`, each `in` consuming
      it up to and including the element found. */
  method IsSubsequence(emitted: seq<string>, order: seq<string>) returns (r: bool)
    ensures r <==> exists places :: Embedding(places, emitted, order)
  {
    SubsequenceIsEmbedding(emitted, order);
    var pos := 0;
    assert emitted[0..] == emitted && order[0..] == order;
    for i := 0 to |emitted|
      invariant pos <= |order|
      invariant Subsequence(emitted, order) == Subsequence(emitted[i..], order[pos..])
    {
      ghost var rest := emitted[i..];
      while pos < |order| && order[pos] != emitted[i]
        invariant pos <= |order|
        invariant Subsequence(emitted, order) == Subsequence(rest, order[pos..])
      {
        assert order[pos..][1..] == order[pos + 1..];
        pos := pos + 1;
      }
      if pos == |order| {
        return false;
      }
      TakeFirst(rest, order[pos..]);
      assert order[pos..][1..] == order[pos + 1..] && rest[1..] == emitted[i + 1..];
      pos := pos + 1;
    }
    return true;
  }

  // -------------------------------------------------------------- preamble

  function FirstIndex(x: string, xs: seq<string>): (i: nat)
    requires x in xs
    ensures i < |xs| && xs[i] == x && x !in xs[..i]
  {
    if xs[0] == x then 0 else 1 + FirstIndex(x, xs[1..])
  }

  /** `_preamble_precedes_projection` */
  predicate PreamblePrecedesProjection(sections: seq<string>) {
    PREAMBLE in sections
    && var i := FirstIndex(PREAMBLE, sections);
       && Filter(sections[i + 1..], (s: string) => IsProjected(s)) != []
       && Filter(sections[..i], (s: string) => IsProjected(s)) == []
  }

  /** The preamble stands at i, the first projected section right after it. */
  predicate PreambleAt(sections: seq<string>, i: int) {
    && 0 <= i < |sections| - 1 && sections[i] == "ENVELOPE_PRECEDENCE_PREAMBLE" && IsProjected(sections[i + 1])
    && forall j :: 0 <= j < i ==> !IsProjected(sections[j])
  }

  predicate ImmediatelyBefore(sections: seq<string>) {
    exists i :: 0 <= i < |sections| && PreambleAt(sections, i)
  }

  lemma PrecedesMeans(sections: seq<string>)
    ensures PreamblePrecedesProjection(sections) <==>
      PREAMBLE in sections
      && var i := FirstIndex(PREAMBLE, sections);
         && (exists j :: i < j < |sections| && IsProjected(sections[j]))
         && (forall j :: 0 <= j < i ==> !IsProjected(sections[j]))
  {
    hide Filter;
    if PREAMBLE in sections {
      var i := FirstIndex(PREAMBLE, sections);
      var keep := (s: string) => IsProjected(s);
      var after, before := Filter(sections[i + 1..], keep), Filter(sections[..i], keep);
      FilterMembers(sections[i + 1..], keep);
      FilterMembers(sections[..i], keep);
      assert after != [] ==> after[0] in after;
      assert before != [] ==> before[0] in before;
      forall j | 0 <= j < i
        ensures sections[j] in sections[..i]
      {
        assert sections[..i][j] == sections[j];
      }
      forall j | i < j < |sections|
        ensures sections[j] in sections[i + 1..]
      {
        assert sections[i + 1..][j - i - 1] == sections[j];
      }
    }
  }

  /** Only projected sections come after the preamble in the order, none before. */
  lemma OrderAround(k: nat)
    requires k < |SectionOrder()|
    ensures IsProjected(SectionOrder()[k]) <==> k > 2
    ensures SectionOrder()[k] == PREAMBLE <==> k == 2
  {
  }

  /** The check by itself says less than that the preamble comes immediately before
      the first projected section; together with the check of the order it says
      exactly that. */
  lemma TogetherImmediate(sections: seq<string>, places: seq<nat>)
    requires Embedding(places, sections, SectionOrder())
    ensures PreamblePrecedesProjection(sections) <==> ImmediatelyBefore(sections)
  {
    hide IsProjected, SectionOrder, PreamblePrecedesProjection;
    PrecedesMeans(sections);
    forall k | 0 <= k < |sections|
      ensures IsProjected(sections[k]) <==> places[k] > 2
      ensures sections[k] == PREAMBLE <==> places[k] == 2
    {
      OrderAround(places[k]);
    }
    if PREAMBLE in sections {
      var i := FirstIndex(PREAMBLE, sections);
      assert forall j :: i < j < |sections| ==> places[i] < places[j];
      assert forall j :: 0 <= j < i ==> places[j] < places[i];
      assert PreamblePrecedesProjection(sections) ==> PreambleAt(sections, i);
    }
  }

  lemma CheckAloneIsWeaker()
    ensures
      var sections := [PREAMBLE, "TASK_ENVELOPE", "CORE_APPROVED_SKILLS"];
      PreamblePrecedesProjection(sections) && !ImmediatelyBefore(sections)
  {
    var sections := [PREAMBLE, "TASK_ENVELOPE", "CORE_APPROVED_SKILLS"];
    PrecedesMeans(sections);
    assert sections[0] == PREAMBLE && IsProjected(sections[2]);
    assert FirstIndex(PREAMBLE, sections) == 0;
  }

  // ------------------------------------------------------------- bisection

  const LEAST: nat := 1024
  const MOST: nat := 2_097_152

  /** `max_single_argv_bytes`, the kernel's answer to a size being a parameter:
      it stops at a step from accepted to refused, or at an end of the range. */
  method MaxSingleArgvBytes(accepts: nat -> bool) returns (lo: nat)
    ensures 1024 <= lo <= 2_097_152
    ensures lo > 1024 ==> accepts(lo)
    ensures lo < 2_097_152 ==> !accepts(lo + 1)
  {
    var hi: nat;
    lo, hi := LEAST, MOST;
    while lo < hi
      invariant LEAST <= lo <= hi <= MOST
      invariant lo > LEAST ==> accepts(lo)
      invariant hi < MOST ==> !accepts(hi + 1)
      decreases hi - lo
    {
      var mid := (lo + hi + 1) / 2;
      if accepts(mid) {
        lo := mid;
      } else {
        hi := mid - 1;
      }
    }
  }

  /** A smaller argument than an accepted one is accepted. */
  ghost predicate Capped(accepts: nat -> bool) {
    forall m: nat, n: nat :: m <= n && accepts(n) ==> accepts(m)
  }

  /** Where acceptance is a cap, such a stop is the largest accepted size of the
      range, if there is one; so the result is the cap, whatever was probed. */
  lemma StopIsLargest(accepts: nat -> bool, lo: nat)
    requires Capped(accepts)
    requires 1024 <= lo <= 2_097_152 && (lo > 1024 ==> accepts(lo)) && (lo < 2_097_152 ==> !accepts(lo + 1))
    ensures forall n: nat :: n <= 2_097_152 && accepts(n) ==> n <= lo
    ensures accepts(1024) ==> accepts(lo)
  {
    forall n: nat | n <= 2_097_152
      ensures accepts(n) ==> n <= lo
    {
      if lo < 2_097_152 {
        assert !accepts(lo + 1);
      }
    }
  }
}
