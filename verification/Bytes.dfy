/** Octets, fixed-width integers and their byte orders, and well-formed UTF-8. */
module Bytes {

  type byte = x: int | 0 <= x < 0x100
  type U16 = x: int | 0 <= x < 0x1_0000
  type U32 = x: int | 0 <= x < 0x1_0000_0000
  type U64 = x: int | 0 <= x < 0x1_0000_0000_0000_0000
  type I32 = x: int | -0x8000_0000 <= x < 0x8000_0000

  type Octets4 = s: seq<byte> | |s| == 4 witness [0, 0, 0, 0]
  type Octets16 = s: seq<byte> | |s| == 16 witness [0, 0, 0, 0, 0, 0, 0, 0, 0, 0, 0, 0, 0, 0, 0, 0]

  function Pow256(n: nat): (p: nat)
    ensures p > 0
  {
    if n == 0 then 1 else 256 * Pow256(n - 1)
  }

  lemma Pow256Values()
    ensures Pow256(2) == 0x1_0000
    ensures Pow256(4) == 0x1_0000_0000
    ensures Pow256(8) == 0x1_0000_0000_0000_0000
  {
    assert Pow256(2) == 256 * Pow256(1);
    assert Pow256(4) == 256 * (256 * Pow256(2));
    assert Pow256(8) == 256 * (256 * (256 * (256 * Pow256(4))));
  }

  /** The n low-order octets of v, least significant first. */
  function LeBytes(v: nat, n: nat): (s: seq<byte>)
    ensures |s| == n
  {
    if n == 0 then [] else [v % 256] + LeBytes(v / 256, n - 1)
  }

  /** Octet i holds the digit of weight 256 to the i. */
  lemma {:induction false} LeBytesAt(v: nat, n: nat, i: nat)
    requires i < n
    ensures LeBytes(v, n)[i] == v / Pow256(i) % 256
  {
    if i > 0 {
      LeBytesAt(v / 256, n - 1, i - 1);
      DivDiv(v, Pow256(i - 1));
    }
  }

  lemma DivDiv(v: nat, b: nat)
    requires b > 0
    ensures v / 256 / b == v / (256 * b)
  {
    var q, r := v / 256, v % 256;
    var p, t := q / b, q % b;
    assert q == b * p + t;
    QuotientIs(v, 256 * b, p, 256 * t + r) by {
      assert (256 * b) * p == 256 * (b * p);
      assert t <= b - 1;
    }
  }

  lemma QuotientIs(v: nat, d: nat, q: nat, r: nat)
    requires d > 0 && r < d && v == d * q + r
    ensures v / d == q
  {
    var k := v / d - q;
    assert d * (v / d) + v % d == d * q + r;
    assert d * k == d * (v / d) - d * q;
    MultipleOf(d, k);
  }

  lemma MultipleOf(d: int, k: int)
    requires d >= 0
    ensures k >= 1 ==> d * k >= d
    ensures k <= -1 ==> d * k <= -d
  {
    if k >= 1 {
      assert d * k == d + d * (k - 1);
    } else if k <= -1 {
      assert d * k == -d + d * (k + 1);
    }
  }

  function LeValue(s: seq<byte>): nat {
    if s == [] then 0 else s[0] + 256 * LeValue(s[1..])
  }

  lemma {:induction false} LeValueOfBytes(v: nat, n: nat)
    requires v < Pow256(n)
    ensures LeValue(LeBytes(v, n)) == v
  {
    if n == 0 {
    } else {
      assert v / 256 < Pow256(n - 1);
      LeValueOfBytes(v / 256, n - 1);
      assert LeBytes(v, n)[1..] == LeBytes(v / 256, n - 1);
    }
  }

  lemma {:induction false} LeBytesOfValue(s: seq<byte>)
    ensures LeValue(s) < Pow256(|s|)
    ensures LeBytes(LeValue(s), |s|) == s
  {
    if s == [] {
    } else {
      LeBytesOfValue(s[1..]);
      var v := LeValue(s);
      assert v % 256 == s[0] && v / 256 == LeValue(s[1..]);
      assert s == [s[0]] + s[1..];
    }
  }

  /** Two octets, most significant first (network order of a port). */
  function Be16Bytes(v: U16): (s: seq<byte>)
    ensures |s| == 2
  {
    [v / 256, v % 256]
  }

  function Be16Value(s: seq<byte>): U16
    requires |s| == 2
  {
    var high: int := s[0];
    256 * high + s[1]
  }

  /** Two's complement, least significant octet first. */
  function I32Bytes(v: I32): (s: seq<byte>)
    ensures |s| == 4
  {
    LeBytes(if v < 0 then v + 0x1_0000_0000 else v, 4)
  }

  function U32OfBytes(s: seq<byte>): U32
    requires |s| == 4
  {
    LeBytesOfValue(s); Pow256Values();
    LeValue(s)
  }

  function U64OfBytes(s: seq<byte>): U64
    requires |s| == 8
  {
    LeBytesOfValue(s); Pow256Values();
    LeValue(s)
  }

  function I32OfBytes(s: seq<byte>): I32
    requires |s| == 4
  {
    var u := U32OfBytes(s);
    if u >= 0x8000_0000 then u - 0x1_0000_0000 else u
  }

  lemma U32RoundTrip(v: U32)
    ensures U32OfBytes(LeBytes(v, 4)) == v
  {
    Pow256Values();
    LeValueOfBytes(v, 4);
  }

  lemma U64RoundTrip(v: U64)
    ensures U64OfBytes(LeBytes(v, 8)) == v
  {
    Pow256Values();
    LeValueOfBytes(v, 8);
  }

  lemma I32RoundTrip(v: I32)
    ensures I32OfBytes(I32Bytes(v)) == v
  {
    U32RoundTrip(if v < 0 then v + 0x1_0000_0000 else v);
  }

  lemma I32Canonical(s: seq<byte>)
    requires |s| == 4
    ensures I32Bytes(I32OfBytes(s)) == s
  {
    LeBytesOfValue(s);
  }

  // ---- UTF-8 (section 4 of RFC 3629) ----

  predicate Tail(s: seq<byte>, i: nat) {
    i < |s| && 0x80 <= s[i] <= 0xBF
  }

  /** Width of the well-formed UTF-8 sequence that s starts with; 0 when there is none. */
  function Utf8Width(s: seq<byte>): (n: nat)
    ensures n <= |s|
  {
    if |s| == 0 then 0
    else if s[0] <= 0x7F then 1
    else if 0xC2 <= s[0] <= 0xDF && Tail(s, 1) then 2
    else if 0xE0 <= s[0] <= 0xEF && Tail(s, 1) && Tail(s, 2)
            && (s[0] == 0xE0 ==> s[1] >= 0xA0) && (s[0] == 0xED ==> s[1] <= 0x9F) then 3
    else if 0xF0 <= s[0] <= 0xF4 && Tail(s, 1) && Tail(s, 2) && Tail(s, 3)
            && (s[0] == 0xF0 ==> s[1] >= 0x90) && (s[0] == 0xF4 ==> s[1] <= 0x8F) then 4
    else 0
  }

  predicate ValidUtf8(s: seq<byte>) {
    s == [] || (Utf8Width(s) > 0 && ValidUtf8(s[Utf8Width(s)..]))
  }

  lemma {:induction false} AsciiIsUtf8(s: seq<byte>)
    requires forall i :: 0 <= i < |s| ==> s[i] <= 0x7F
    ensures ValidUtf8(s)
  {
    if s == [] {
    } else {
      AsciiIsUtf8(s[1..]);
    }
  }

  /** A Unicode scalar value. */
  predicate Scalar(c: nat) {
    c < 0xD800 || 0xE000 <= c < 0x11_0000
  }

  /** The UTF-8 sequence of a scalar value. */
  function ScalarBytes(c: nat): (s: seq<byte>)
    requires Scalar(c)
    ensures |s| > 0
  {
    if c < 0x80 then [c]
    else if c < 0x800 then [0xC0 + c / 0x40, 0x80 + c % 0x40]
    else if c < 0x1_0000 then [0xE0 + c / 0x1000, 0x80 + c / 0x40 % 0x40, 0x80 + c % 0x40]
    else [0xF0 + c / 0x4_0000, 0x80 + c / 0x1000 % 0x40, 0x80 + c / 0x40 % 0x40, 0x80 + c % 0x40]
  }

  function ScalarsBytes(cs: seq<nat>): seq<byte>
    requires forall i :: 0 <= i < |cs| ==> Scalar(cs[i])
  {
    if cs == [] then [] else ScalarBytes(cs[0]) + ScalarsBytes(cs[1..])
  }

  lemma ScalarAlone(c: nat)
    requires Scalar(c)
    ensures Utf8Width(ScalarBytes(c)) == |ScalarBytes(c)|
  {
    hide Utf8Width;
    if c >= 0x1_0000 {
      HighDigit(c);
      FourWide(c / 0x4_0000, c / 0x1000 % 0x40, c / 0x40 % 0x40, c % 0x40);
    } else if c >= 0x800 {
      MiddleDigit(c);
      ThreeWide(c / 0x1000, c / 0x40 % 0x40, c % 0x40);
    } else {
      Narrow(c);
    }
  }

  lemma Narrow(c: nat)
    requires c < 0x800
    ensures Utf8Width(ScalarBytes(c)) == |ScalarBytes(c)|
  {
  }

  lemma HighDigit(c: nat)
    requires 0x1_0000 <= c < 0x11_0000
    ensures c / 0x4_0000 == 0 ==> c / 0x1000 % 0x40 >= 0x10
    ensures c / 0x4_0000 == 4 ==> c / 0x1000 % 0x40 < 0x10
  {
    assert c / 0x4_0000 == c / 0x1000 / 0x40;
  }

  lemma MiddleDigit(c: nat)
    requires 0x800 <= c < 0x1_0000 && Scalar(c)
    ensures c / 0x1000 == 0 ==> c / 0x40 % 0x40 >= 0x20
    ensures c / 0x1000 == 0xD ==> c / 0x40 % 0x40 < 0x20
  {
    assert c / 0x1000 == c / 0x40 / 0x40;
  }

  lemma FourWide(a: nat, d1: nat, d2: nat, d3: nat)
    requires a <= 4 && d1 < 0x40 && d2 < 0x40 && d3 < 0x40
    requires (a == 0 ==> d1 >= 0x10) && (a == 4 ==> d1 < 0x10)
    ensures Utf8Width([0xF0 + a, 0x80 + d1, 0x80 + d2, 0x80 + d3]) == 4
  {
  }

  lemma ThreeWide(a: nat, d1: nat, d2: nat)
    requires a < 0x10 && d1 < 0x40 && d2 < 0x40
    requires (a == 0 ==> d1 >= 0x20) && (a == 0xD ==> d1 < 0x20)
    ensures Utf8Width([0xE0 + a, 0x80 + d1, 0x80 + d2]) == 3
  {
  }

  /** A scalar value's sequence is recognised, whatever follows. */
  lemma ScalarWidth(c: nat, tail: seq<byte>)
    requires Scalar(c)
    ensures Utf8Width(ScalarBytes(c) + tail) == |ScalarBytes(c)|
  {
    var s := ScalarBytes(c);
    hide Utf8Width;
    ScalarAlone(c);
    WidthOfStart(s, tail);
  }

  /** Whether and how wide a sequence is depends on no more than its own octets. */
  lemma WidthOfStart(s: seq<byte>, tail: seq<byte>)
    requires Utf8Width(s) > 0
    ensures Utf8Width(s + tail) == Utf8Width(s)
  {
    var t := s + tail;
    assert forall i :: 0 <= i < |s| ==> t[i] == s[i];
  }

  lemma Digits(a: nat, d1: nat, d2: nat, d3: nat)
    requires d1 < 0x40 && d2 < 0x40 && d3 < 0x40
    ensures (a * 0x40 + d1) / 0x40 == a && (a * 0x40 + d1) % 0x40 == d1
    ensures var c := (a * 0x40 + d1) * 0x40 + d2;
            c / 0x1000 == a && c / 0x40 % 0x40 == d1 && c % 0x40 == d2
    ensures var c := ((a * 0x40 + d1) * 0x40 + d2) * 0x40 + d3;
            c / 0x4_0000 == a && c / 0x1000 % 0x40 == d1 && c / 0x40 % 0x40 == d2 && c % 0x40 == d3
  {
    var two := a * 0x40 + d1;
    var three := two * 0x40 + d2;
    var four := three * 0x40 + d3;
    assert three / 0x40 == two && four / 0x40 == three && four / 0x1000 == two;
  }

  /** What is recognised is the sequence of a scalar value. */
  lemma WidthScalar(s: seq<byte>) returns (c: nat)
    requires Utf8Width(s) > 0
    ensures Scalar(c) && ScalarBytes(c) == s[..Utf8Width(s)]
  {
    var n := Utf8Width(s);
    var b0: int := s[0];
    if n == 1 {
      c := b0;
    } else if n == 2 {
      c := TwoOctets(s);
    } else if n == 3 {
      c := ThreeOctets(s);
    } else {
      c := FourOctets(s);
    }
  }

  lemma TwoOctets(s: seq<byte>) returns (c: nat)
    requires Utf8Width(s) == 2
    ensures Scalar(c) && ScalarBytes(c) == s[..2]
  {
    var b0: int, b1: int := s[0], s[1];
    Digits(b0 - 0xC0, b1 - 0x80, 0, 0);
    c := (b0 - 0xC0) * 0x40 + (b1 - 0x80);
    assert ScalarBytes(c) == [b0, b1];
  }

  lemma ThreeOctets(s: seq<byte>) returns (c: nat)
    requires Utf8Width(s) == 3
    ensures Scalar(c) && ScalarBytes(c) == s[..3]
  {
    var b0: int, b1: int, b2: int := s[0], s[1], s[2];
    Digits(b0 - 0xE0, b1 - 0x80, b2 - 0x80, 0);
    c := ((b0 - 0xE0) * 0x40 + (b1 - 0x80)) * 0x40 + (b2 - 0x80);
    assert ScalarBytes(c) == [b0, b1, b2];
  }

  lemma FourOctets(s: seq<byte>) returns (c: nat)
    requires Utf8Width(s) == 4
    ensures Scalar(c) && ScalarBytes(c) == s[..4]
  {
    var b0: int, b1: int, b2: int, b3: int := s[0], s[1], s[2], s[3];
    Digits(b0 - 0xF0, b1 - 0x80, b2 - 0x80, b3 - 0x80);
    c := (((b0 - 0xF0) * 0x40 + (b1 - 0x80)) * 0x40 + (b2 - 0x80)) * 0x40 + (b3 - 0x80);
    assert ScalarBytes(c) == [b0, b1, b2, b3];
  }

  lemma {:induction false} ScalarsAreUtf8(cs: seq<nat>)
    requires forall i :: 0 <= i < |cs| ==> Scalar(cs[i])
    ensures ValidUtf8(ScalarsBytes(cs))
  {
    if cs != [] {
      var head, rest := ScalarBytes(cs[0]), ScalarsBytes(cs[1..]);
      ScalarWidth(cs[0], rest);
      ScalarsAreUtf8(cs[1..]);
      assert (head + rest)[|head|..] == rest;
    }
  }

  lemma {:induction false} Utf8IsScalars(s: seq<byte>) returns (cs: seq<nat>)
    requires ValidUtf8(s)
    ensures (forall i :: 0 <= i < |cs| ==> Scalar(cs[i])) && ScalarsBytes(cs) == s
  {
    if s == [] {
      cs := [];
    } else {
      var n := Utf8Width(s);
      var c := WidthScalar(s);
      var rest := Utf8IsScalars(s[n..]);
      cs := [c] + rest;
      assert cs[1..] == rest && s == s[..n] + s[n..];
    }
  }

  /** Octets are accepted as UTF-8 exactly when they encode some sequence of scalar values. */
  lemma Utf8Exactly(s: seq<byte>)
    ensures ValidUtf8(s)
            <==> exists cs: seq<nat> :: (forall i :: 0 <= i < |cs| ==> Scalar(cs[i])) && ScalarsBytes(cs) == s
  {
    if ValidUtf8(s) {
      var cs := Utf8IsScalars(s);
    }
    if cs: seq<nat> :| (forall i :: 0 <= i < |cs| ==> Scalar(cs[i])) && ScalarsBytes(cs) == s {
      ScalarsAreUtf8(cs);
    }
  }

  /** A Rust String: well-formed UTF-8 whose length fits the 64-bit length field. */
  type Utf8String = s: seq<byte> | ValidUtf8(s) && |s| < 0x1_0000_0000_0000_0000 witness []
}
