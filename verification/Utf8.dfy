/** UTF-8 as Python's codec implements it (section 3 of RFC 3629). Text is a
    sequence of code points, lone surrogates included; bytes are characters with
    codes below 256. */
module Utf8 {

  type Text = seq<nat>

  predicate IsScalar(c: nat) {
    c < 0xD800 || 0xE000 <= c < 0x11_0000
  }

  predicate Scalars(t: Text) {
    forall i :: 0 <= i < |t| ==> IsScalar(t[i])
  }

  predicate CodePoints(t: Text) {
    forall i :: 0 <= i < |t| ==> t[i] < 0x11_0000
  }

  // ------------------------------------------------------------- encoding

  function Tail(n: nat): char { (0x80 + n % 64) as char }

  function Encode1(c: nat): (b: string)
    requires IsScalar(c)
    ensures 1 <= |b| <= 4
  {
    if c < 0x80 then [c as char]
    else if c < 0x800 then [(0xC0 + c / 64) as char, Tail(c)]
    else if c < 0x1_0000 then [(0xE0 + c / 4096) as char, Tail(c / 64), Tail(c)]
    else [(0xF0 + c / 262144) as char, Tail(c / 4096), Tail(c / 64), Tail(c)]
  }

  function Encode(t: Text): string
    requires Scalars(t)
  {
    if t == [] then [] else Encode1(t[0]) + Encode(t[1..])
  }

  /** `errors="replace"` writes a question mark for a lone surrogate. */
  function ReplaceSurrogates(t: Text): (r: Text)
    requires CodePoints(t)
    ensures |r| == |t| && Scalars(r)
    ensures forall i :: 0 <= i < |t| ==> r[i] == if IsScalar(t[i]) then t[i] else 0x3F
  {
    seq(|t|, i requires 0 <= i < |t| => if IsScalar(t[i]) then t[i] else 0x3F)
  }

  // ------------------------------------------------------------- decoding

  /** The bytes allowed in second place after a lead byte. */
  predicate SecondOk(lead: int, b: int) {
    if lead == 0xE0 then 0xA0 <= b <= 0xBF
    else if lead == 0xED then 0x80 <= b <= 0x9F
    else if lead == 0xF0 then 0x90 <= b <= 0xBF
    else if lead == 0xF4 then 0x80 <= b <= 0x8F
    else 0x80 <= b <= 0xBF
  }

  predicate TailOk(b: int) { 0x80 <= b <= 0xBF }

  /** How many bytes a lead byte announces; 0 for a byte that cannot lead. */
  function Announced(lead: int): (n: nat)
    ensures n <= 4
  {
    if lead < 0x80 then 1
    else if 0xC2 <= lead <= 0xDF then 2
    else if 0xE0 <= lead <= 0xEF then 3
    else if 0xF0 <= lead <= 0xF4 then 4
    else 0
  }

  /** The longest prefix that starts a well-formed sequence, at most n bytes. */
  function GoodBytes(s: string, n: nat): (k: nat)
    requires s != [] && 1 <= n
    ensures 1 <= k <= n && k <= |s|
  {
    if n == 1 || |s| < 2 || !SecondOk(s[0] as int, s[1] as int) then 1
    else if n == 2 || |s| < 3 || !TailOk(s[2] as int) then 2
    else if n == 3 || |s| < 4 || !TailOk(s[3] as int) then 3
    else 4
  }

  function Combine(s: string, n: nat): nat
    requires 1 <= n <= 4 && n <= |s| && GoodBytes(s, n) == n
    requires Announced(s[0] as int) == n
  {
    var b := s[0] as int;
    if n == 1 then b
    else if n == 2 then (b - 0xC0) * 64 + (s[1] as int - 0x80)
    else if n == 3 then (b - 0xE0) * 4096 + (s[1] as int - 0x80) * 64 + (s[2] as int - 0x80)
    else (b - 0xF0) * 262144 + (s[1] as int - 0x80) * 4096 + (s[2] as int - 0x80) * 64 + (s[3] as int - 0x80)
  }

  /** One step of a decoder: a code point, or an ill-formed stretch to skip. */
  datatype Step = Char(c: nat, n: nat) | Bad(n: nat)

  function DecodeStep(s: string): (r: Step)
    requires s != []
    ensures 1 <= r.n <= |s|
  {
    var n := Announced(s[0] as int);
    if n == 0 then Bad(1)
    else if GoodBytes(s, n) == n then Char(Combine(s, n), n)
    else Bad(GoodBytes(s, n))
  }

  /** `decode("utf-8", errors="ignore")` */
  function DecodeIgnore(s: string): Text {
    if s == [] then []
    else
      match DecodeStep(s)
      case Char(c, n) => [c] + DecodeIgnore(s[n..])
      case Bad(n) => DecodeIgnore(s[n..])
  }

  /** Whether the strict `decode("utf-8")` succeeds. */
  predicate Decodable(s: string)
    decreases |s|
  {
    s == [] || (DecodeStep(s).Char? && Decodable(s[DecodeStep(s).n..]))
  }

  // ----------------------------------------------------------- round trip

  lemma DecodeTwo(c: nat, r: string)
    requires 0x80 <= c < 0x800
    ensures DecodeStep(Encode1(c) + r) == Char(c, 2)
  {
    var s := Encode1(c) + r;
    assert s[0] == (0xC0 + c / 64) as char && s[1] == Tail(c);
    assert GoodBytes(s, 2) == 2;
    assert c / 64 * 64 + c % 64 == c;
  }

  lemma DecodeThree(c: nat, r: string)
    requires 0x800 <= c < 0x1_0000 && IsScalar(c)
    ensures DecodeStep(Encode1(c) + r) == Char(c, 3)
  {
    var s := Encode1(c) + r;
    assert s[0] == (0xE0 + c / 4096) as char && s[1] == Tail(c / 64) && s[2] == Tail(c);
    assert c / 64 / 64 == c / 4096;
    assert SecondOk(s[0] as int, s[1] as int);
    assert GoodBytes(s, 3) == 3;
    assert c / 4096 * 4096 + c / 64 % 64 * 64 + c % 64 == c;
  }

  /** The base-64 digits of a four-byte code point. */
  lemma FourDigits(c: nat)
    requires 0x1_0000 <= c < 0x11_0000
    ensures c / 262144 * 262144 + c / 4096 % 64 * 4096 + c / 64 % 64 * 64 + c % 64 == c
    ensures c / 262144 <= 4
    ensures c / 262144 == 0 ==> c / 4096 % 64 >= 16
    ensures c / 262144 == 4 ==> c / 4096 % 64 < 16
  {
    var q, p := c / 64, c / 4096;
    assert q / 64 == p && p / 64 == c / 262144;
    assert c == q * 64 + c % 64 && q == p * 64 + q % 64 && p == p / 64 * 64 + p % 64;
  }

  lemma DecodeFour(c: nat, r: string)
    requires 0x1_0000 <= c < 0x11_0000
    ensures DecodeStep(Encode1(c) + r) == Char(c, 4)
  {
    FourDigits(c);
    FourBytes(c / 262144, c / 4096 % 64, c / 64 % 64, c % 64, r);
    var s := Encode1(c) + r;
    assert s == [(0xF0 + c / 262144) as char, Tail(c / 4096), Tail(c / 64), Tail(c)] + r;
  }

  lemma FourBytes(a: nat, b: nat, d: nat, e: nat, r: string)
    requires a <= 4 && b < 64 && d < 64 && e < 64 && (a == 0 ==> b >= 16) && (a == 4 ==> b < 16)
    ensures
      var s := [(0xF0 + a) as char, (0x80 + b) as char, (0x80 + d) as char, (0x80 + e) as char] + r;
      DecodeStep(s) == Char(a * 262144 + b * 4096 + d * 64 + e, 4)
  {
    var s := [(0xF0 + a) as char, (0x80 + b) as char, (0x80 + d) as char, (0x80 + e) as char] + r;
    assert s[0] as int == 0xF0 + a && s[1] as int == 0x80 + b && s[2] as int == 0x80 + d && s[3] as int == 0x80 + e;
    assert SecondOk(s[0] as int, s[1] as int) && TailOk(s[2] as int) && TailOk(s[3] as int);
    assert Announced(s[0] as int) == 4 && GoodBytes(s, 4) == 4;
  }

  lemma DecodeEncode1(c: nat, r: string)
    requires IsScalar(c)
    ensures DecodeStep(Encode1(c) + r) == Char(c, |Encode1(c)|)
  {
    if c < 0x80 {
      assert (Encode1(c) + r)[0] == c as char;
    } else {
      hide DecodeStep;
      if c < 0x800 {
        DecodeTwo(c, r);
      } else if c < 0x1_0000 {
        DecodeThree(c, r);
      } else {
        DecodeFour(c, r);
      }
    }
  }

  /** A cut inside the encoding of one code point leaves one ill-formed stretch. */
  lemma DecodeCut(c: nat, n: nat)
    requires IsScalar(c) && 0 < n < |Encode1(c)|
    ensures DecodeStep(Encode1(c)[..n]) == Bad(n)
  {
    DecodeEncode1(c, []);
    var e := Encode1(c);
    assert e + [] == e;
    var s := e[..n];
    assert s[0] == e[0];
    if n > 1 { assert s[1] == e[1]; }
    if n > 2 { assert s[2] == e[2]; }
  }

  lemma {:induction false} EncodeAppend(a: Text, b: Text)
    requires Scalars(a) && Scalars(b)
    ensures Scalars(a + b) && Encode(a + b) == Encode(a) + Encode(b)
  {
    hide Encode1;
    if a == [] {
      assert a + b == b;
    } else {
      assert (a + b)[1..] == a[1..] + b;
      EncodeAppend(a[1..], b);
    }
  }

  /** Encoding is undone by both decoders. */
  lemma {:induction false} DecodeEncode(t: Text)
    requires Scalars(t)
    ensures DecodeIgnore(Encode(t)) == t && Decodable(Encode(t))
  {
    hide Encode1, DecodeStep;
    if t != [] {
      var e, r := Encode1(t[0]), Encode(t[1..]);
      DecodeEncode(t[1..]);
      DecodeEncode1(t[0], r);
      assert (e + r)[|e|..] == r;
      assert [t[0]] + t[1..] == t;
    }
  }

  lemma ScalarIs(c: nat)
    ensures IsScalar(c) <==> c <= 0x10_FFFF && !(0xD800 <= c <= 0xDFFF)
  {
  }

  lemma TwoBytes(a: nat, b: nat)
    requires 2 <= a < 32 && b < 64
    ensures IsScalar(a * 64 + b) && Encode1(a * 64 + b) == [(0xC0 + a) as char, (0x80 + b) as char]
  {
    assert (a * 64 + b) / 64 == a && (a * 64 + b) % 64 == b;
  }

  lemma ThreeBytes(a: nat, b: nat, d: nat)
    requires a < 16 && b < 64 && d < 64 && (a == 0 ==> b >= 32) && (a == 13 ==> b < 32)
    ensures
      var c := a * 4096 + b * 64 + d;
      IsScalar(c) && Encode1(c) == [(0xE0 + a) as char, (0x80 + b) as char, (0x80 + d) as char]
  {
    var c := a * 4096 + b * 64 + d;
    assert c / 64 == a * 64 + b && c % 64 == d;
    assert (a * 64 + b) / 64 == a && (a * 64 + b) % 64 == b;
    assert c / 4096 == c / 64 / 64;
  }

  lemma FourBytesBack(a: nat, b: nat, d: nat, e: nat)
    requires a <= 4 && b < 64 && d < 64 && e < 64 && (a == 0 ==> b >= 16) && (a == 4 ==> b < 16)
    ensures
      var c := a * 262144 + b * 4096 + d * 64 + e;
      && IsScalar(c)
      && Encode1(c) == [(0xF0 + a) as char, (0x80 + b) as char, (0x80 + d) as char, (0x80 + e) as char]
  {
    var c := a * 262144 + b * 4096 + d * 64 + e;
    var q, p := a * 4096 + b * 64 + d, a * 64 + b;
    assert c / 64 == q && c % 64 == e;
    assert q / 64 == p && q % 64 == d;
    assert p / 64 == a && p % 64 == b;
    assert c / 4096 == c / 64 / 64 && c / 262144 == c / 4096 / 64;
  }

  /** What a decoder takes for a code point is the encoding of that code point. */
  lemma CharIsEncoding(s: string)
    requires s != [] && DecodeStep(s).Char?
    ensures IsScalar(DecodeStep(s).c) && Encode1(DecodeStep(s).c) == s[..DecodeStep(s).n]
  {
    hide Encode1;
    var b, n := s[0] as int, DecodeStep(s).n;
    if n == 1 {
      OneByte(b);
      assert s[..1] == [s[0]];
    } else if n == 2 {
      TwoBytes(b - 0xC0, s[1] as int - 0x80);
      assert s[..2] == [s[0], s[1]];
    } else if n == 3 {
      ThreeBytes(b - 0xE0, s[1] as int - 0x80, s[2] as int - 0x80);
      assert s[..3] == [s[0], s[1], s[2]];
    } else {
      FourBytesBack(b - 0xF0, s[1] as int - 0x80, s[2] as int - 0x80, s[3] as int - 0x80);
      assert s[..4] == [s[0], s[1], s[2], s[3]];
    }
  }

  lemma OneByte(b: nat)
    requires b < 0x80
    ensures IsScalar(b) && Encode1(b) == [b as char]
  {
  }

  lemma {:induction false} DecodedEncodes(s: string)
    requires Decodable(s)
    ensures Scalars(DecodeIgnore(s)) && Encode(DecodeIgnore(s)) == s
    decreases |s|
  {
    hide Encode1, DecodeStep;
    if s != [] {
      var step := DecodeStep(s);
      CharIsEncoding(s);
      DecodedEncodes(s[step.n..]);
      var t := DecodeIgnore(s[step.n..]);
      assert DecodeIgnore(s) == [step.c] + t && ([step.c] + t)[1..] == t;
      assert s == s[..step.n] + s[step.n..];
    }
  }

  /** The strict decoder accepts exactly the encodings of texts without surrogates. */
  lemma DecodableIff(s: string)
    ensures Decodable(s) <==> exists t :: Scalars(t) && Encode(t) == s
  {
    if Decodable(s) {
      DecodedEncodes(s);
    }
    if t :| Scalars(t) && Encode(t) == s {
      DecodeEncode(t);
    }
  }

  // ----------------------------------------------------------- truncation

  /** How many code points of `t` fit in n bytes. */
  function FitCount(t: Text, n: nat): (k: nat)
    requires Scalars(t)
    ensures k <= |t|
  {
    if t == [] || |Encode1(t[0])| > n then 0 else 1 + FitCount(t[1..], n - |Encode1(t[0])|)
  }

  /** It is the length of the longest prefix that fits, at most 3 bytes short. */
  lemma {:induction false} FitIsLongest(t: Text, n: nat)
    requires Scalars(t)
    ensures |Encode(t[..FitCount(t, n)])| <= n
    ensures FitCount(t, n) < |t| ==> n - |Encode(t[..FitCount(t, n)])| <= 3
    ensures forall k :: 0 <= k <= |t| ==> (|Encode(t[..k])| <= n <==> k <= FitCount(t, n))
  {
    if t != [] {
      var e := |Encode1(t[0])|;
      forall k | 0 < k <= |t| ensures |Encode(t[..k])| == e + |Encode(t[1..][..k - 1])| {
        assert t[..k][1..] == t[1..][..k - 1];
      }
      if e <= n {
        FitIsLongest(t[1..], n - e);
      }
    }
  }

  /** Decoding a truncated encoding yields the longest prefix that fits. */
  lemma {:induction false} DecodeTruncated(t: Text, n: nat)
    requires Scalars(t) && n <= |Encode(t)|
    ensures DecodeIgnore(Encode(t)[..n]) == t[..FitCount(t, n)]
  {
    hide Encode1, DecodeStep;
    if t != [] {
      var e, r := Encode1(t[0]), Encode(t[1..]);
      var s := (e + r)[..n];
      if |e| <= n {
        DecodeTruncated(t[1..], n - |e|);
        assert s == e + r[..n - |e|];
        DecodeEncode1(t[0], r[..n - |e|]);
        assert s[|e|..] == r[..n - |e|];
        var k := FitCount(t[1..], n - |e|);
        assert [t[0]] + t[1..][..k] == t[..k + 1];
      } else if n > 0 {
        DecodeCut(t[0], n);
        assert s == e[..n];
        assert s[n..] == [];
      }
    }
  }
}
