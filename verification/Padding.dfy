/** `_pad_to` of scripts/gate/manifests.py: resizing a file with padding behind a
    marker. Texts are kept as their UTF-8 bytes. */
module Padding {
  import opened Text
  import opened Substrings

  const PAD_MARKER := "\n<!-- gate size padding below this line -->\n"

  /** The marker without its last character. */
  const STEM := PAD_MARKER[..|PAD_MARKER| - 1]

  /** `read_text(…).split(PAD_MARKER)[0]` */
  function Body(content: string): string {
    var text := Universal(content);
    text[..IndexOf(PAD_MARKER, text)]
  }

  /** Filler until the target is reached. */
  function Grow(text: string, target: int, filler: string): string
    requires filler != ""
    decreases target - |text|
  {
    if |text| >= target then text else Grow(text + filler, target, filler)
  }

  function Padded(content: string, target: int, filler: string): string
    requires filler != ""
  {
    var body := Body(content);
    if target <= |body| then body else Grow(body + PAD_MARKER, target, filler)
  }

  class TextFile {
    var content: string

    constructor (content: string)
      ensures this.content == content
    {
      this.content := content;
    }

    /** `_pad_to`. An empty filler would never reach a larger target. */
    method PadTo(target: int, filler: string)
      requires filler != ""
      modifies this
      ensures content == Padded(old(content), target, filler)
    {
      var text := Universal(content);
      var body := text[..IndexOf(PAD_MARKER, text)];
      if target <= |body| {
        content := body;
        return;
      }
      body := body + PAD_MARKER;
      while |body| < target
        invariant Grow(body, target, filler) == Padded(old(content), target, filler)
        decreases target - |body|
      {
        body := body + filler;
      }
      content := body;
    }
  }

  // ------------------------------------------------------------------ size

  lemma {:induction false} GrowSize(text: string, target: int, filler: string)
    requires filler != ""
    ensures var r := Grow(text, target, filler); StartsWith(r, text) && |r| >= target
    ensures |text| >= target ==> Grow(text, target, filler) == text
    ensures |text| < target ==> |Grow(text, target, filler)| < target + |filler|
    decreases target - |text|
  {
    if |text| < target {
      GrowSize(text + filler, target, filler);
      var r := Grow(text + filler, target, filler);
      assert r[..|text|] == r[..|text + filler|][..|text|] == text;
    }
  }

  /** The body comes first; the target is reached; and the overshoot stays below
      one filler past the larger of the target and the body with its marker. */
  lemma PaddedSize(content: string, target: int, filler: string)
    requires filler != ""
    ensures
      var r, body := Padded(content, target, filler), Body(content);
      && StartsWith(r, body) && |r| >= target
      && (target <= |body| ==> r == body)
      && (target > |body| ==> StartsWith(r, body + PAD_MARKER))
      && |r| < (if target <= |body + PAD_MARKER| then |body + PAD_MARKER| else target) + |filler|
  {
    var body := Body(content);
    if target > |body| {
      GrowSize(body + PAD_MARKER, target, filler);
      var r := Padded(content, target, filler);
      assert r[..|body|] == r[..|body + PAD_MARKER|][..|body|] == body;
    }
  }

  // -------------------------------------------------------------- recovery

  /** The body ends with all of the marker but its last newline. */
  predicate EndsWithStem(body: string) {
    |body| >= |STEM| && body[|body| - |STEM|..] == STEM
  }

  /** Newlines at both ends and nowhere between. */
  predicate Framed(m: string) {
    |m| >= 2 && m[0] == NEWLINE && m[|m| - 1] == NEWLINE && forall d :: 0 < d < |m| - 1 ==> m[d] != NEWLINE
  }

  lemma MarkerIsFramed()
    ensures Framed(PAD_MARKER) && Lacks('\r', PAD_MARKER)
  {
  }

  lemma BodyLacks(content: string)
    ensures Lacks('\r', Body(content)) && !Occurs(PAD_MARKER, Body(content))
    ensures Body(Body(content)) == Body(content)
  {
    var text := Universal(content);
    UniversalLacksReturn(content);
    var body := Body(content);
    forall k
      ensures !OccursAt(PAD_MARKER, body, k)
    {
      assert OccursAt(PAD_MARKER, body, k) ==> OccursAt(PAD_MARKER, text, k) by {
        if OccursAt(PAD_MARKER, body, k) {
          assert text[k..k + |PAD_MARKER|] == body[k..k + |PAD_MARKER|];
        }
      }
    }
    OccursIff(PAD_MARKER, body);
    UniversalFixed(body);
  }

  /** A framed marker overlaps itself in one newline only: behind a body without it,
      it occurs early exactly when the body ends with all of it but that newline. */
  lemma EarlyMarker(m: string, body: string, rest: string, k: nat)
    requires Framed(m) && !OccursAt(m, body, k) && k < |body|
    ensures OccursAt(m, body + m + rest, k) <==> k == |body| - (|m| - 1) && body[k..] == m[..|m| - 1]
  {
    var s := body + m + rest;
    var n := |m|;
    if k + n <= |body| {
      assert s[k..k + n] == body[k..k + n];
    } else {
      var d := |body| - k;
      assert s[|body|] == m[0];
      assert s[k..k + n][d] == s[|body|];
      if d == n - 1 {
        assert s[k..k + n] == body[k..] + [NEWLINE];
        assert m == m[..n - 1] + [NEWLINE];
        assert (body[k..] + [NEWLINE])[..n - 1] == body[k..];
      } else {
        assert m[d] != NEWLINE;
      }
    }
  }

  lemma FirstMarker(m: string, body: string, rest: string)
    requires Framed(m) && !Occurs(m, body)
    ensures
      var early := |body| >= |m| - 1 && body[|body| - (|m| - 1)..] == m[..|m| - 1];
      IndexOf(m, body + m + rest) == if early then |body| - (|m| - 1) else |body|
  {
    hide Framed, IndexOf;
    FrameLength(m);
    var s := body + m + rest;
    var early := |body| >= |m| - 1 && body[|body| - (|m| - 1)..] == m[..|m| - 1];
    forall k: nat | k < |body|
      ensures OccursAt(m, s, k) <==> early && k == |body| - (|m| - 1)
    {
      OccursIff(m, body);
      EarlyMarker(m, body, rest, k);
    }
    assert s[|body|..|body| + |m|] == m;
    IndexIs(m, s, if early then |body| - (|m| - 1) else |body|);
  }

  lemma FrameLength(m: string)
    requires Framed(m)
    ensures |m| >= 2
  {
  }

  /** What comes back from a padded body. */
  lemma BodyOfPadded(body: string, rest: string)
    requires Lacks('\r', body) && !Occurs(PAD_MARKER, body)
    ensures Body(body + PAD_MARKER + rest) == if EndsWithStem(body) then body[..|body| - |STEM|] else body
  {
    hide IndexOf, Universal, Framed, OccursAt, Occurs;
    MarkerIsFramed();
    assert Lacks('\r', body + PAD_MARKER);
    UniversalPrefix(body + PAD_MARKER, rest);
    FirstMarker(PAD_MARKER, body, Universal(rest));
    var s := body + PAD_MARKER + Universal(rest);
    assert forall i :: 0 <= i <= |body| ==> s[..i] == body[..i];
  }

  /** Padding loses nothing of the body exactly when nothing was padded or the body
      does not end with the stem of the marker. */
  lemma RecoveredIff(content: string, target: int, filler: string)
    requires filler != ""
    ensures Body(Padded(content, target, filler)) == Body(content)
       <==> target <= |Body(content)| || !EndsWithStem(Body(content))
  {
    var body := Body(content);
    BodyLacks(content);
    if target > |body| {
      PaddedSize(content, target, filler);
      var r := Padded(content, target, filler);
      var rest := r[|body + PAD_MARKER|..];
      assert r == body + PAD_MARKER + rest;
      BodyOfPadded(body, rest);
    }
  }

  /** Sizes asked for before leave no trace in a later one. */
  ghost predicate HistoryIndependent(content: string, target: int, filler: string)
    requires filler != ""
  {
    forall next: int, other: string | other != "" ::
      Padded(Padded(content, target, filler), next, other) == Padded(content, next, other)
  }

  /** Growing or shrinking again gives what padding the first content would have
      given, for every next size, exactly under the condition of `RecoveredIff`. */
  lemma HistoryIndependentIff(content: string, target: int, filler: string)
    requires filler != ""
    ensures HistoryIndependent(content, target, filler)
       <==> target <= |Body(content)| || !EndsWithStem(Body(content))
  {
    RecoveredIff(content, target, filler);
    var r := Padded(content, target, filler);
    if Body(r) != Body(content) {
      assert Padded(r, 0, "x") == Body(r);
      assert Padded(content, 0, "x") == Body(content);
    } else {
      forall next: int, other: string | other != ""
        ensures Padded(r, next, other) == Padded(content, next, other)
      {
      }
    }
  }

  /** In particular padding twice is padding once. */
  lemma PaddingIsIdempotent(content: string, target: int, filler: string)
    requires filler != "" && !EndsWithStem(Body(content))
    ensures Padded(Padded(content, target, filler), target, filler) == Padded(content, target, filler)
  {
    RecoveredIff(content, target, filler);
  }

  /** A body that is the stem: the second padding starts from nothing. */
  lemma StemIsLost()
    ensures Body(STEM) == STEM && Body(Padded(STEM, |STEM| + 1, " ")) == ""
  {
    MarkerIsFramed();
    assert forall i :: 0 <= i < |STEM| ==> STEM[i] == PAD_MARKER[i];
    UniversalFixed(STEM);
    assert IndexOf(PAD_MARKER, STEM) == |STEM|;
    assert STEM[..|STEM|] == STEM;
    BodyLacks(STEM);
    PaddedSize(STEM, |STEM| + 1, " ");
    var r := Padded(STEM, |STEM| + 1, " ");
    assert r == STEM + PAD_MARKER + r[|STEM + PAD_MARKER|..];
    BodyOfPadded(STEM, r[|STEM + PAD_MARKER|..]);
  }
}
