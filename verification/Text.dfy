/** String operations of the Python library that several components rely on.
    Byte strings are strings whose characters have codes below 256. */
module Text {

  type NonEmpty = s: string | s != "" witness "x"

  const NEWLINE: char := '\n'

  predicate StartsWith(s: string, prefix: string) {
    |prefix| <= |s| && s[..|prefix|] == prefix
  }

  /** The index of the first `c`, or the length when there is none. */
  function Find(c: char, s: string): (i: nat)
    ensures i <= |s|
    ensures i < |s| ==> s[i] == c
    ensures forall k :: 0 <= k < i ==> s[k] != c
  {
    if s == [] || s[0] == c then 0 else 1 + Find(c, s[1..])
  }

  /** `s.split(c)`: never empty. */
  function Split(c: char, s: string): (parts: seq<string>)
    ensures |parts| >= 1
    decreases |s|
  {
    var i := Find(c, s);
    if i == |s| then [s] else [s[..i]] + Split(c, s[i + 1..])
  }

  /** `c.join(parts)` */
  function Join(c: char, parts: seq<string>): string {
    if parts == [] then [] else if |parts| == 1 then parts[0] else parts[0] + [c] + Join(c, parts[1..])
  }

  predicate EndsWithNewline(s: string) {
    |s| > 0 && s[|s| - 1] == NEWLINE
  }

  predicate Lacks(c: char, s: string) {
    forall i :: 0 <= i < |s| ==> s[i] != c
  }

  lemma {:induction false} FindAt(c: char, l: string, r: string)
    requires Lacks(c, l)
    ensures Find(c, l + [c] + r) == |l|
  {
    var s := l + [c] + r;
    assert s[|l|] == c;
    assert forall k :: 0 <= k < |l| ==> s[k] == l[k];
  }

  /** Splitting undoes joining separator-free parts. */
  lemma {:induction false} SplitJoin(c: char, parts: seq<string>)
    requires parts != []
    requires forall i :: 0 <= i < |parts| ==> Lacks(c, parts[i])
    ensures Split(c, Join(c, parts)) == parts
  {
    var s := Join(c, parts);
    if |parts| == 1 {
      assert parts == [s];
    } else {
      var rest := Join(c, parts[1..]);
      FindAt(c, parts[0], rest);
      SplitJoin(c, parts[1..]);
      assert s[..|parts[0]|] == parts[0] && s[|parts[0]| + 1..] == rest;
    }
  }

  lemma {:induction false} SplitLacks(c: char, s: string)
    ensures forall i :: 0 <= i < |Split(c, s)| ==> Lacks(c, Split(c, s)[i])
    decreases |s|
  {
    var i := Find(c, s);
    if i < |s| {
      SplitLacks(c, s[i + 1..]);
    }
  }

  // ------------------------------------------------------------- stripping

  function StripLeft(s: string, space: char -> bool): (r: string)
    ensures |r| <= |s|
  {
    if s != [] && space(s[0]) then StripLeft(s[1..], space) else s
  }

  function StripRight(s: string, space: char -> bool): (r: string)
    ensures |r| <= |s|
  {
    if s != [] && space(s[|s| - 1]) then StripRight(s[..|s| - 1], space) else s
  }

  /** `s.strip()` for the given notion of white space. */
  function Strip(s: string, space: char -> bool): string {
    StripRight(StripLeft(s, space), space)
  }

  predicate Stripped(s: string, space: char -> bool) {
    s == [] || (!space(s[0]) && !space(s[|s| - 1]))
  }

  predicate AllSpace(s: string, space: char -> bool) {
    forall i :: 0 <= i < |s| ==> space(s[i])
  }

  lemma StripFixed(s: string, space: char -> bool)
    requires Stripped(s, space)
    ensures Strip(s, space) == s
  {
  }

  /** `strip` leaves a string alone exactly when it neither starts nor ends with white space. */
  lemma {:induction false} StripStripped(s: string, space: char -> bool)
    ensures Strip(s, space) == s <==> Stripped(s, space)
  {
    if s != [] && space(s[0]) {
      assert |StripLeft(s, space)| < |s|;
    } else if s != [] && space(s[|s| - 1]) {
      assert |StripRight(s, space)| < |s|;
    }
  }

  lemma {:induction false} StripRightKeepsFirst(s: string, space: char -> bool)
    requires s != [] && !space(s[0])
    ensures StripRight(s, space) != []
  {
    if space(s[|s| - 1]) {
      StripRightKeepsFirst(s[..|s| - 1], space);
    }
  }

  lemma {:induction false} StripTail(p: string, white: string, space: char -> bool)
    requires AllSpace(white, space) && p != [] && !space(p[|p| - 1])
    ensures StripRight(p + white, space) == p
    decreases |white|
  {
    if white == "" {
      assert p + white == p;
    } else {
      var n := |white| - 1;
      assert (p + white)[..|p + white| - 1] == p + white[..n];
      assert (p + white)[|p + white| - 1] == white[n];
      StripTail(p, white[..n], space);
    }
  }

  lemma {:induction false} StripHead(white: string, s: string, space: char -> bool)
    requires AllSpace(white, space) && (s != [] ==> !space(s[0]))
    ensures StripLeft(white + s, space) == s
  {
    if white == "" {
      assert white + s == s;
    } else {
      assert (white + s)[1..] == white[1..] + s;
      StripHead(white[1..], s, space);
    }
  }

  /** White space around a stripped string goes, and nothing else. */
  lemma StripPadded(before: string, s: string, after: string, space: char -> bool)
    requires AllSpace(before, space) && AllSpace(after, space) && Stripped(s, space)
    ensures Strip(before + s + after, space) == s
  {
    hide StripLeft, StripRight;
    if s == "" {
      StripHead(before + after, "", space);
      assert before + s + after == before + after + "";
      StripNothing(space);
    } else {
      assert before + s + after == before + (s + after);
      StripHead(before, s + after, space);
      StripTail(s, after, space);
    }
  }

  lemma StripNothing(space: char -> bool)
    ensures StripRight("", space) == ""
  {
  }

  lemma {:induction false} StripLeftLacks(c: char, s: string, space: char -> bool)
    requires Lacks(c, s)
    ensures Lacks(c, StripLeft(s, space))
  {
    if s != [] && space(s[0]) {
      StripLeftLacks(c, s[1..], space);
    }
  }

  lemma {:induction false} StripRightLacks(c: char, s: string, space: char -> bool)
    requires Lacks(c, s)
    ensures Lacks(c, StripRight(s, space))
  {
    if s != [] && space(s[|s| - 1]) {
      StripRightLacks(c, s[..|s| - 1], space);
    }
  }

  lemma StripLacks(c: char, s: string, space: char -> bool)
    requires Lacks(c, s)
    ensures Lacks(c, Strip(s, space))
  {
    StripLeftLacks(c, s, space);
    StripRightLacks(c, StripLeft(s, space), space);
  }

  /** A separator inside a part makes it two parts. */
  lemma JoinAcross(c: char, p: string, q: string, rest: seq<string>)
    ensures Join(c, [p + [c] + q] + rest) == Join(c, [p] + ([q] + rest))
  {
    assert ([p + [c] + q] + rest)[1..] == rest;
    assert ([p] + ([q] + rest))[1..] == [q] + rest && ([q] + rest)[1..] == rest;
    var tail := Join(c, rest);
    if rest != [] {
      assert p + [c] + q + [c] + tail == p + [c] + (q + [c] + tail);
    }
  }

  /** Hexadecimal digits in lower case. */
  predicate LowerHex(s: string) {
    forall i :: 0 <= i < |s| ==> '0' <= s[i] <= '9' || 'a' <= s[i] <= 'f'
  }

  lemma LowerHexIs(s: string)
    ensures LowerHex(s) <==> forall i :: 0 <= i < |s| ==> s[i] in "0123456789abcdef"
  {
    forall i | 0 <= i < |s|
      ensures s[i] in "0123456789abcdef" <==> '0' <= s[i] <= '9' || 'a' <= s[i] <= 'f'
    {
      HexDigit(s[i]);
    }
  }

  lemma HexDigit(c: char)
    ensures c in "0123456789abcdef" <==> '0' <= c <= '9' || 'a' <= c <= 'f'
  {
    var all := "0123456789abcdef";
    if '0' <= c <= '9' {
      assert all[c as int - '0' as int] == c;
    } else if 'a' <= c <= 'f' {
      assert all[10 + c as int - 'a' as int] == c;
    }
  }

  /** The white space `bytes.strip` removes. */
  function ByteSpace(): char -> bool {
    c => c == ' ' || 9 <= c as int <= 13
  }

  /** The white space `str.strip` removes. */
  function StrSpace(): char -> bool {
    c =>
      var n := c as int;
      9 <= n <= 13 || 28 <= n <= 32 || n == 0x85 || n == 0xA0 || n == 0x1680 || 0x2000 <= n <= 0x200A
      || n == 0x2028 || n == 0x2029 || n == 0x202F || n == 0x205F || n == 0x3000
  }

  /** Both notions, character by character: they agree on ASCII but for the four separators
      from 28 to 31. */
  lemma SpacesAre(c: char)
    ensures ByteSpace()(c) <==> c in " \t\n\r" || c as int in {11, 12}
    ensures c as int < 128 ==> (StrSpace()(c) <==> ByteSpace()(c) || c as int in {28, 29, 30, 31})
    ensures c as int >= 128 ==>
      (StrSpace()(c) <==>
        c as int in {0x85, 0xA0, 0x1680, 0x2000, 0x2001, 0x2002, 0x2003, 0x2004, 0x2005, 0x2006, 0x2007, 0x2008,
                     0x2009, 0x200A, 0x2028, 0x2029, 0x202F, 0x205F, 0x3000})
  {
    var blanks := " \t\n\r";
    assert blanks[0] in blanks && blanks[1] in blanks && blanks[2] in blanks && blanks[3] in blanks;
  }
}
