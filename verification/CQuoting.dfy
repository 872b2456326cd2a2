/** Byte strings and git's C-style quoting of path names (probes/z5/probe4_apply_check.py).

    A byte string is a string whose characters have codes below 256, so that
    ASCII literals can be written as strings. The functions are total; the laws
    about paths ask for `IsBytes`. */
module CQuoting {
  import opened Common
  import opened Text

  type byte = char
  type bytes = string

  predicate IsBytes(s: bytes) {
    forall i :: 0 <= i < |s| ==> s[i] as int < 256
  }

  const QUOTE: byte := '\"'
  const BACKSLASH: byte := '\\'
  const TAB: byte := '\t'

  // ------------------------------------------------------------- printing

  /** Bytes the quoting leaves alone. */
  predicate Plain(b: byte) {
    0x20 <= b as int < 0x80 && b != QUOTE && b != BACKSLASH
  }

  function OctalDigit(d: int): byte
    requires 0 <= d < 8
  {
    ('0' as int + d) as char
  }

  function Escape(b: byte): bytes {
    if b == QUOTE then [BACKSLASH, QUOTE]
    else if b == BACKSLASH then [BACKSLASH, BACKSLASH]
    else if b == NEWLINE then [BACKSLASH, 'n']
    else if b == TAB then [BACKSLASH, 't']
    else if b as int < 0x20 || b as int >= 0x80 then
      var v := b as int;
      [BACKSLASH, OctalDigit(v / 64 % 8), OctalDigit(v / 8 % 8), OctalDigit(v % 8)]
    else [b]
  }

  function EscapeAll(p: bytes): bytes {
    if p == [] then [] else Escape(p[0]) + EscapeAll(p[1..])
  }

  predicate AllPlain(p: bytes) {
    forall i :: 0 <= i < |p| ==> Plain(p[i])
  }

  function Quoted(p: bytes): bytes {
    [QUOTE] + EscapeAll(p) + [QUOTE]
  }

  function CQuoteSpec(p: bytes): bytes {
    if AllPlain(p) then p else Quoted(p)
  }

  /** `cquote`: one pass over the path with a flag and an output buffer. */
  method CQuote(p: bytes) returns (q: bytes)
    ensures q == CQuoteSpec(p)
  {
    var need, out: bytes := false, [];
    for i := 0 to |p|
      invariant out == EscapeAll(p[..i])
      invariant need <==> !AllPlain(p[..i])
    {
      var b := p[i];
      EscapeAllSnoc(p[..i], b);
      assert p[..i] + [b] == p[..i + 1];
      AllPlainSnoc(p[..i], b);
      out := out + Escape(b);
      need := need || !Plain(b);
    }
    assert p[..|p|] == p;
    q := if need then [QUOTE] + out + [QUOTE] else p;
  }

  lemma AllPlainSnoc(p: bytes, b: byte)
    ensures AllPlain(p + [b]) <==> AllPlain(p) && Plain(b)
  {
    assert forall i :: 0 <= i < |p| ==> (p + [b])[i] == p[i];
    assert (p + [b])[|p|] == b;
  }

  lemma {:induction false} EscapeAllSnoc(p: bytes, b: byte)
    ensures EscapeAll(p + [b]) == EscapeAll(p) + Escape(b)
  {
    if p == [] {
      assert p + [b] == [b];
      assert EscapeAll([b]) == Escape(b) + EscapeAll([]);
    } else {
      assert (p + [b])[1..] == p[1..] + [b];
      EscapeAllSnoc(p[1..], b);
    }
  }

  /** `hdr_path`: the prefix goes inside the quotes of a quoted name. */
  function HdrPath(prefix: bytes, p: bytes, quoteNonAscii: bool): bytes {
    var q := if quoteNonAscii then CQuoteSpec(p) else p;
    if StartsWith(q, [QUOTE]) then
      // q[1:-1], which is empty for the one-byte token
      var inner := if |q| >= 2 then q[1..|q| - 1] else [];
      [QUOTE] + prefix + inner + [QUOTE]
    else prefix + q
  }

  // ------------------------------------------------------------- decoding

  predicate IsOctal(b: byte) { '0' <= b <= '7' }

  function OctalValue(b: byte): int
    requires IsOctal(b)
  {
    b as int - '0' as int
  }

  /** The byte a one-letter escape stands for. */
  function LetterEscape(b: byte): Option<byte> {
    if b == QUOTE || b == BACKSLASH then Some(b)
    else if b == 'a' then Some(7 as char)
    else if b == 'b' then Some(8 as char)
    else if b == 't' then Some(TAB)
    else if b == 'n' then Some(NEWLINE)
    else if b == 'v' then Some(11 as char)
    else if b == 'f' then Some(12 as char)
    else if b == 'r' then Some(13 as char)
    else None
  }

  /** Reads a C-quoted string up to its closing quote; the opening quote has
      been consumed. Returns the decoded bytes and what follows the quote. */
  function Unquote(s: bytes): Option<(bytes, bytes)>
    decreases |s|
  {
    if s == [] then None
    else if s[0] == QUOTE then Some(([], s[1..]))
    else if s[0] != BACKSLASH then
      var (d, rest) :- Unquote(s[1..]);
      Some(([s[0]] + d, rest))
    else if |s| < 2 then None
    else if IsOctal(s[1]) then
      if |s| < 4 || !IsOctal(s[2]) || !IsOctal(s[3]) then None
      else
        var v := OctalValue(s[1]) * 64 + OctalValue(s[2]) * 8 + OctalValue(s[3]);
        if v >= 256 then None
        else
          var (d, rest) :- Unquote(s[4..]);
          Some(([v as char] + d, rest))
    else
      var b :- LetterEscape(s[1]);
      var (d, rest) :- Unquote(s[2..]);
      Some(([b] + d, rest))
  }

  /** A whole token: the first character chooses between the two forms. */
  function DecodeName(q: bytes): Option<bytes> {
    if StartsWith(q, [QUOTE]) then
      var (d, rest) :- Unquote(q[1..]);
      if rest == [] then Some(d) else None
    else Some(q)
  }

  // ----------------------------------------------------------- round trip

  lemma UnquoteStep(b: byte, s: bytes, d: bytes, rest: bytes)
    requires b as int < 256
    requires Unquote(s) == Some((d, rest))
    ensures Unquote(Escape(b) + s) == Some(([b] + d, rest))
  {
    var t := Escape(b) + s;
    if Plain(b) {
      assert t[1..] == s;
    } else if b == QUOTE || b == BACKSLASH || b == NEWLINE || b == TAB {
      assert t[2..] == s;
    } else {
      var v := b as int;
      assert t[4..] == s;
      assert t[1] == OctalDigit(v / 64 % 8) && t[2] == OctalDigit(v / 8 % 8) && t[3] == OctalDigit(v % 8);
      assert v / 64 % 8 * 64 + v / 8 % 8 * 8 + v % 8 == v;
    }
  }

  /** Reading back an escaped string, whatever follows its closing quote. */
  lemma {:induction false} UnquoteEscaped(p: bytes, rest: bytes)
    requires IsBytes(p)
    ensures Unquote(EscapeAll(p) + [QUOTE] + rest) == Some((p, rest))
  {
    if p == [] {
      assert EscapeAll(p) + [QUOTE] + rest == [QUOTE] + rest;
      assert ([QUOTE] + rest)[1..] == rest;
    } else {
      UnquoteEscaped(p[1..], rest);
      UnquoteStep(p[0], EscapeAll(p[1..]) + [QUOTE] + rest, p[1..], rest);
      assert EscapeAll(p) + [QUOTE] + rest == Escape(p[0]) + (EscapeAll(p[1..]) + [QUOTE] + rest);
      assert [p[0]] + p[1..] == p;
    }
  }

  lemma {:induction false} EscapeAllAppend(p: bytes, q: bytes)
    ensures EscapeAll(p + q) == EscapeAll(p) + EscapeAll(q)
  {
    if p == [] {
      assert p + q == q;
    } else {
      assert (p + q)[1..] == p[1..] + q;
      EscapeAllAppend(p[1..], q);
    }
  }

  lemma {:induction false} EscapeAllPlain(p: bytes)
    requires AllPlain(p)
    ensures EscapeAll(p) == p
  {
    if p != [] {
      EscapeAllPlain(p[1..]);
    }
  }

  lemma QuotedShape(p: bytes)
    ensures StartsWith(Quoted(p), [QUOTE]) && Quoted(p)[1..] == EscapeAll(p) + [QUOTE] + []
    ensures Quoted(p)[1..|Quoted(p)| - 1] == EscapeAll(p)
  {
    assert Quoted(p)[..1] == [QUOTE];
  }

  lemma QuotedThen(p: bytes, rest: bytes)
    ensures StartsWith(Quoted(p) + rest, [QUOTE])
    ensures (Quoted(p) + rest)[1..] == EscapeAll(p) + [QUOTE] + rest
  {
    assert (Quoted(p) + rest)[..1] == [QUOTE];
  }

  /** A plain name is never mistaken for a quoted one. */
  lemma PlainUnquoted(p: bytes)
    requires AllPlain(p)
    ensures !StartsWith(p, [QUOTE])
  {
    assert |p| > 0 ==> p[..1] == [p[0]] && p[0] != QUOTE;
  }

  /** The decoder undoes the quoting on every byte string. */
  lemma CQuoteRoundTrip(p: bytes)
    requires IsBytes(p)
    ensures DecodeName(CQuoteSpec(p)) == Some(p)
  {
    if AllPlain(p) {
      PlainUnquoted(p);
    } else {
      QuotedShape(p);
      UnquoteEscaped(p, []);
    }
  }

  lemma CQuoteInjective(p: bytes, q: bytes)
    requires IsBytes(p) && IsBytes(q)
    requires CQuoteSpec(p) == CQuoteSpec(q)
    ensures p == q
  {
    CQuoteRoundTrip(p);
    CQuoteRoundTrip(q);
  }

  lemma AllPlainAppend(p: bytes, q: bytes)
    ensures AllPlain(p + q) <==> AllPlain(p) && AllPlain(q)
  {
    assert forall i :: 0 <= i < |p| ==> (p + q)[i] == p[i];
    assert forall i :: 0 <= i < |q| ==> (p + q)[|p| + i] == q[i];
  }

  lemma Assoc(a: bytes, b: bytes, c: bytes)
    ensures a + b + c == a + (b + c)
  {
  }

  lemma QuotedHdrPath(prefix: bytes, p: bytes)
    requires AllPlain(prefix) && !AllPlain(p)
    ensures HdrPath(prefix, p, true) == Quoted(prefix + p)
  {
    var q := CQuoteSpec(p);
    assert q == Quoted(p) && StartsWith(q, [QUOTE]) && |q| >= 2 && q[1..|q| - 1] == EscapeAll(p) by {
      QuotedShape(p);
    }
    calc {
      HdrPath(prefix, p, true);
      [QUOTE] + prefix + EscapeAll(p) + [QUOTE];
      { Assoc([QUOTE], prefix, EscapeAll(p)); }
      [QUOTE] + (prefix + EscapeAll(p)) + [QUOTE];
      { EscapeAllPlain(prefix); EscapeAllAppend(prefix, p); }
      Quoted(prefix + p);
    }
  }

  lemma HdrPathShape(prefix: bytes, p: bytes)
    requires AllPlain(prefix)
    ensures HdrPath(prefix, p, true) == if AllPlain(p) then prefix + p else Quoted(prefix + p)
    ensures AllPlain(p) <==> AllPlain(prefix + p)
  {
    AllPlainAppend(prefix, p);
    if AllPlain(p) {
      PlainUnquoted(p);
    } else {
      QuotedHdrPath(prefix, p);
    }
  }

  /** A header token decodes to prefix plus path. */
  lemma HdrPathRoundTrip(prefix: bytes, p: bytes)
    requires IsBytes(p) && AllPlain(prefix)
    ensures DecodeName(HdrPath(prefix, p, true)) == Some(prefix + p)
  {
    HdrPathShape(prefix, p);
    CQuoteRoundTrip(prefix + p);
  }

  lemma {:induction false} UnquoteShrinks(s: bytes)
    ensures Unquote(s).Some? ==> |Unquote(s).value.0| + |Unquote(s).value.1| < |s|
    decreases |s|
  {
    if s == [] || s[0] == QUOTE {
    } else if s[0] != BACKSLASH {
      UnquoteShrinks(s[1..]);
    } else if |s| >= 2 {
      UnquoteShrinks(s[2..]);
      if |s| >= 4 { UnquoteShrinks(s[4..]); }
    }
  }

  lemma UnquotePlainByte(b: byte, s: bytes)
    requires b != QUOTE && b != BACKSLASH
    ensures Unquote([b] + s) == if Unquote(s).None? then None else Some(([b] + Unquote(s).value.0, Unquote(s).value.1))
  {
    assert ([b] + s)[1..] == s;
  }

  lemma {:induction false} UnquotePlainPrefix(prefix: bytes, s: bytes)
    requires AllPlain(prefix)
    ensures Unquote(prefix + s)
            == if Unquote(s).None? then None else Some((prefix + Unquote(s).value.0, Unquote(s).value.1))
  {
    if prefix == [] {
      assert prefix + s == s;
      assert Unquote(s).Some? ==> [] + Unquote(s).value.0 == Unquote(s).value.0;
    } else {
      var p, tail := [prefix[0]], prefix[1..];
      assert prefix == p + tail;
      UnquotePlainPrefix(tail, s);
      UnquotePlainByte(prefix[0], tail + s);
      Assoc(p, tail, s);
      if Unquote(s).Some? {
        Assoc(p, tail, Unquote(s).value.0);
      }
    }
  }

  /** With quoting switched off the token still decodes to prefix plus path
      unless the path starts with a quote character: then the path is taken for
      an already quoted token and loses its first and last byte. */
  lemma RawHdrPathRoundTripIff(prefix: bytes, p: bytes)
    requires AllPlain(prefix) && prefix != []
    ensures DecodeName(HdrPath(prefix, p, false)) == Some(prefix + p) <==> !StartsWith(p, [QUOTE])
  {
    if StartsWith(p, [QUOTE]) {
      var inner := if |p| >= 2 then p[1..|p| - 1] else [];
      var h := HdrPath(prefix, p, false);
      assert h == [QUOTE] + (prefix + (inner + [QUOTE]));
      assert h[..1] == [QUOTE] && h[1..] == prefix + (inner + [QUOTE]);
      UnquotePlainPrefix(prefix, inner + [QUOTE]);
      UnquoteShrinks(inner + [QUOTE]);
    } else {
      PlainUnquoted(prefix);
      assert (prefix + p)[..1] == prefix[..1] == [prefix[0]];
    }
  }

  /** Printable ASCII only: no newline, no tab, no control byte, no byte from 0x80 up. */
  predicate Clean(s: bytes) {
    forall i :: 0 <= i < |s| ==> 0x20 <= s[i] as int < 0x80
  }

  lemma {:induction false} EscapeAllClean(p: bytes)
    ensures Clean(EscapeAll(p))
  {
    if p != [] {
      EscapeAllClean(p[1..]);
      assert Clean(Escape(p[0]));
    }
  }

  lemma CQuoteClean(p: bytes)
    ensures Clean(CQuoteSpec(p))
  {
    EscapeAllClean(p);
  }

  lemma HdrPathClean(prefix: bytes, p: bytes)
    requires AllPlain(prefix)
    ensures Clean(HdrPath(prefix, p, true))
  {
    HdrPathShape(prefix, p);
    var q := prefix + p;
    EscapeAllClean(q);
    assert AllPlain(q) ==> Clean(q);
    assert Clean(Quoted(q));
  }
}
