/** `str.find`, `str.count`, `str.replace(…, 1)` and the newline translation of
    `read_text`. Texts are kept as their UTF-8 bytes. */
module Substrings {
  import opened Text

  predicate OccursAt(pat: string, s: string, i: int) {
    0 <= i && i + |pat| <= |s| && s[i..i + |pat|] == pat
  }

  /** The index of the first occurrence, or the length of `s`. */
  function IndexOf(pat: string, s: string): (i: nat)
    requires pat != ""
    ensures i <= |s|
    ensures i < |s| ==> OccursAt(pat, s, i)
    ensures forall k :: 0 <= k < i ==> !OccursAt(pat, s, k)
  {
    if |s| < |pat| then |s|
    else if s[..|pat|] == pat then 0
    else
      var rest := IndexOf(pat, s[1..]);
      assert forall k :: 0 < k <= |s| ==> (OccursAt(pat, s, k) <==> OccursAt(pat, s[1..], k - 1)) by {
        forall k | 0 < k <= |s|
          ensures OccursAt(pat, s, k) <==> OccursAt(pat, s[1..], k - 1)
        {
          if k + |pat| <= |s| {
            assert s[1..][k - 1..k - 1 + |pat|] == s[k..k + |pat|];
          }
        }
      }
      1 + rest
  }

  predicate Occurs(pat: string, s: string)
    requires pat != ""
  {
    IndexOf(pat, s) < |s|
  }

  lemma OccursIff(pat: string, s: string)
    requires pat != ""
    ensures Occurs(pat, s) <==> exists i :: OccursAt(pat, s, i)
  {
    if Occurs(pat, s) {
      assert OccursAt(pat, s, IndexOf(pat, s));
    }
  }

  /** The first occurrence is where it is and nowhere before. */
  lemma IndexIs(pat: string, s: string, i: nat)
    requires pat != "" && OccursAt(pat, s, i)
    requires forall k :: 0 <= k < i ==> !OccursAt(pat, s, k)
    ensures IndexOf(pat, s) == i
  {
    var j := IndexOf(pat, s);
    assert j < i ==> OccursAt(pat, s, j);
  }

  /** `s.count(pat)`: occurrences that do not overlap, from the left. */
  function Count(pat: string, s: string): nat
    requires pat != ""
    decreases |s|
  {
    var i := IndexOf(pat, s);
    if i == |s| then 0 else 1 + Count(pat, s[i + |pat|..])
  }

  /** `s.replace(pat, sub, 1)` */
  function ReplaceFirst(pat: string, sub: string, s: string): string
    requires pat != ""
  {
    var i := IndexOf(pat, s);
    if i == |s| then s else s[..i] + sub + s[i + |pat|..]
  }

  /** One occurrence, in the sense of `count`, is one place with no further one after it. */
  lemma CountIsOne(pat: string, s: string)
    requires pat != ""
    ensures Count(pat, s) == 1 <==> Occurs(pat, s) && !Occurs(pat, s[IndexOf(pat, s) + |pat|..])
  {
    hide IndexOf, Count, OccursAt;
    CountSteps(pat, s);
    if Occurs(pat, s) {
      CountSteps(pat, s[IndexOf(pat, s) + |pat|..]);
    }
  }

  lemma CountSteps(pat: string, s: string)
    requires pat != ""
    ensures !Occurs(pat, s) ==> Count(pat, s) == 0
    ensures Occurs(pat, s) ==> IndexOf(pat, s) + |pat| <= |s|
    ensures Occurs(pat, s) ==> Count(pat, s) == 1 + Count(pat, s[IndexOf(pat, s) + |pat|..])
  {
    hide IndexOf;
  }

  lemma MiddleDecides(before: string, x: string, y: string, after: string)
    ensures before + x + after == before + y + after <==> x == y
  {
    var s, t := before + x + after, before + y + after;
    assert |x| == |y| ==> s[|before|..|before| + |x|] == x && t[|before|..|before| + |y|] == y;
  }

  lemma CutAround(pat: string, s: string, i: nat)
    requires OccursAt(pat, s, i)
    ensures s == s[..i] + pat + s[i + |pat|..]
  {
  }

  lemma ReplacedBetween(before: string, pat: string, sub: string, after: string, s: string)
    requires s == before + pat + after
    ensures before + sub + after != s <==> pat != sub
  {
    MiddleDecides(before, sub, pat, after);
  }

  /** Replacing the first occurrence changes the text exactly when there is one and
      the replacement is another text; nothing outside it moves. */
  lemma ReplaceChanges(pat: string, sub: string, s: string)
    requires pat != ""
    ensures ReplaceFirst(pat, sub, s) != s <==> Occurs(pat, s) && pat != sub
  {
    hide IndexOf, OccursAt;
    var i := IndexOf(pat, s);
    if i < |s| {
      assert OccursAt(pat, s, i);
      Fits(pat, s, i);
      CutAround(pat, s, i);
      ReplacedBetween(s[..i], pat, sub, s[i + |pat|..], s);
      assert ReplaceFirst(pat, sub, s) == s[..i] + sub + s[i + |pat|..];
    }
  }

  lemma Fits(pat: string, s: string, i: nat)
    requires OccursAt(pat, s, i)
    ensures i + |pat| <= |s|
  {
  }

  /** Universal newlines: "\r\n" and a lone "\r" are read as "\n". */
  function Universal(s: string): string {
    if s == "" then ""
    else if s[0] == '\r' then "\n" + Universal(if |s| > 1 && s[1] == '\n' then s[2..] else s[1..])
    else [s[0]] + Universal(s[1..])
  }

  lemma {:induction false} UniversalLacksReturn(s: string)
    ensures Lacks('\r', Universal(s))
  {
    if s != "" {
      if s[0] == '\r' {
        UniversalLacksReturn(if |s| > 1 && s[1] == '\n' then s[2..] else s[1..]);
      } else {
        UniversalLacksReturn(s[1..]);
      }
    }
  }

  /** Nothing changes before the first carriage return. */
  lemma {:induction false} UniversalPrefix(a: string, b: string)
    requires Lacks('\r', a)
    ensures Universal(a + b) == a + Universal(b)
  {
    if a == "" {
      assert a + b == b;
    } else {
      assert (a + b)[1..] == a[1..] + b;
      UniversalPrefix(a[1..], b);
    }
  }

  lemma UniversalFixed(s: string)
    requires Lacks('\r', s)
    ensures Universal(s) == s
  {
    UniversalPrefix(s, "");
    assert s + "" == s;
  }
}
