/**
  The encoding of sensitive fields: a repeated-key XOR of UTF-16 code units, then UTF-8
  (section 3 of RFC 3629), then base64 (section 4 of RFC 4648), and the way back.
 */
module Codec {

  /** A UTF-16 code unit, as a JavaScript string has it: surrogates need not come in pairs. */
  type Unit = u: int | 0 <= u < 0x1_0000
  type Text = seq<Unit>
  type Byte = b: int | 0 <= b < 256

  const REPLACEMENT: Unit := 0xFFFD

  // ---------------------------------------------------------------- exclusive or

  function Pow2(n: nat): nat {
    if n == 0 then 1 else 2 * Pow2(n - 1)
  }

  function Xor(a: nat, b: nat): nat
    decreases a + b
  {
    if a == 0 && b == 0 then 0 else 2 * Xor(a / 2, b / 2) + (if a % 2 == b % 2 then 0 else 1)
  }

  lemma {:induction false} XorBound(a: nat, b: nat, n: nat)
    requires a < Pow2(n) && b < Pow2(n)
    ensures Xor(a, b) < Pow2(n)
  {
    if n > 0 {
      XorBound(a / 2, b / 2, n - 1);
    }
  }

  lemma {:induction false} XorTwice(a: nat, b: nat)
    ensures Xor(Xor(a, b), b) == a
    decreases a + b
  {
    if a != 0 || b != 0 {
      XorTwice(a / 2, b / 2);
      assert Xor(a, b) / 2 == Xor(a / 2, b / 2);
    }
  }

  /** The number without its lowest n bits. */
  function Shift(a: nat, n: nat): nat
    decreases n
  {
    if n == 0 then a else Shift(a / 2, n - 1)
  }

  /** Bits above the second operand stay as they are. */
  lemma {:induction false} XorKeepsHighBits(a: nat, b: nat, n: nat)
    requires b < Pow2(n)
    ensures Shift(Xor(a, b), n) == Shift(a, n)
    decreases n
  {
    if n == 0 {
      XorZero(a);
    } else {
      XorKeepsHighBits(a / 2, b / 2, n - 1);
      assert Xor(a, b) / 2 == Xor(a / 2, b / 2);
    }
  }

  lemma {:induction false} XorZero(a: nat)
    ensures Xor(a, 0) == a
  {
    if a != 0 {
      XorZero(a / 2);
    }
  }

  lemma ShiftTen(a: nat)
    ensures Shift(a, 10) == a / 1024
  {
    ShiftTwo(a, 8);
    ShiftTwo(a / 4, 6);
    ShiftTwo(a / 16, 4);
    ShiftTwo(a / 64, 2);
    ShiftTwo(a / 256, 0);
    assert a / 4 / 4 == a / 16 && a / 16 / 4 == a / 64 && a / 64 / 4 == a / 256 && a / 256 / 4 == a / 1024;
  }

  lemma ShiftTwo(a: nat, n: nat)
    ensures Shift(a, n + 2) == Shift(a / 4, n)
  {
    assert Shift(a, n + 2) == Shift(a / 2, n + 1) == Shift(a / 2 / 2, n);
    assert a / 2 / 2 == a / 4;
  }

  lemma Powers()
    ensures Pow2(10) == 0x400 && Pow2(15) == 0x8000 && Pow2(16) == 0x1_0000
  {
    assert Pow2(5) == 32;
    assert Pow2(10) == 32 * Pow2(5);
    assert Pow2(15) == 32 * Pow2(10);
  }

  function XorUnit(a: Unit, b: Unit): Unit {
    Powers();
    XorBound(a, b, 16);
    Xor(a, b)
  }

  /** The key's unit for position i; past an empty key there is no number, which XOR reads as 0. */
  function KeyUnit(key: Text, i: nat): Unit {
    if key == [] then 0 else key[i % |key|]
  }

  function Mask(text: Text, key: Text): (masked: Text)
    ensures |masked| == |text|
    ensures forall i | 0 <= i < |text| :: masked[i] == XorUnit(text[i], KeyUnit(key, i))
  {
    seq(|text|, i requires 0 <= i < |text| => XorUnit(text[i], KeyUnit(key, i)))
  }

  /** Bit i of a number. */
  predicate Bit(a: nat, i: nat) {
    Shift(a, i) % 2 == 1
  }

  /** Bit by bit the exclusive or is set where the two numbers differ. */
  lemma {:induction false} XorBits(a: nat, b: nat, i: nat)
    ensures Bit(Xor(a, b), i) <==> Bit(a, i) != Bit(b, i)
    decreases i
  {
    assert Xor(a, b) / 2 == Xor(a / 2, b / 2);
    if i > 0 {
      XorBits(a / 2, b / 2, i - 1);
    }
  }

  lemma DivisionUnique(x: int, n: int, q: int, r: int)
    requires n > 0 && x == q * n + r && 0 <= r < n
    ensures x % n == r
  {
    var p, t := x / n, x % n;
    assert (p - q) * n == r - t;
    assert p - q >= 1 ==> (p - q) * n >= n;
    assert p - q <= -1 ==> (p - q) * n <= -n;
  }

  /** The key is used unit by unit, and then again from its beginning. */
  lemma KeyRepeats(key: Text, i: nat)
    requires key != []
    ensures i < |key| ==> KeyUnit(key, i) == key[i]
    ensures KeyUnit(key, |key| + i) == KeyUnit(key, i)
  {
    if i < |key| {
      DivisionUnique(i, |key|, 0, i);
    }
    DivisionUnique(|key| + i, |key|, i / |key| + 1, i % |key|);
  }

  lemma MaskAt(text: Text, key: Text, i: nat, k: Unit)
    requires i < |text| && KeyUnit(key, i) == k
    ensures Mask(text, key)[i] == XorUnit(text[i], k)
  {
  }

  /** As far as the key reaches, a text is masked unit by unit with the key. */
  lemma MaskWithinKey(text: Text, key: Text, i: nat)
    requires i < |text| && i < |key|
    ensures Mask(text, key)[i] == XorUnit(text[i], key[i])
  {
    KeyRepeats(key, i);
    MaskAt(text, key, i, key[i]);
  }

  /** After a block as long as the key the rest is masked as if the block had not been there. */
  lemma MaskNextBlock(block: Text, rest: Text, key: Text, i: nat)
    requires |block| == |key| > 0 && i < |rest|
    ensures Mask(block + rest, key)[|key| + i] == Mask(rest, key)[i]
  {
    KeyRepeats(key, i);
    MaskAt(rest, key, i, KeyUnit(key, i));
    MaskAt(block + rest, key, |key| + i, KeyUnit(key, i));
  }

  // ---------------------------------------------------------------- UTF-8

  predicate High(u: Unit) { 0xD800 <= u < 0xDC00 }
  predicate Low(u: Unit) { 0xDC00 <= u < 0xE000 }

  function Utf8Three(u: Unit): seq<Byte> {
    [0xE0 + u / 4096, 0x80 + u / 64 % 64, 0x80 + u % 64]
  }

  function Utf8Pair(high: Unit, low: Unit): seq<Byte>
    requires High(high) && Low(low)
  {
    var p := 0x1_0000 + (high - 0xD800) * 1024 + (low - 0xDC00);
    [0xF0 + p / 0x4_0000, 0x80 + p / 4096 % 64, 0x80 + p / 64 % 64, 0x80 + p % 64]
  }

  /** Buffer.from(text): a surrogate without its partner becomes the replacement character. */
  function Utf8(text: Text): seq<Byte> {
    if text == [] then []
    else if text[0] < 0x80 then [text[0]] + Utf8(text[1..])
    else if text[0] < 0x800 then [0xC0 + text[0] / 64, 0x80 + text[0] % 64] + Utf8(text[1..])
    else if High(text[0]) && |text| > 1 && Low(text[1]) then Utf8Pair(text[0], text[1]) + Utf8(text[2..])
    else if High(text[0]) || Low(text[0]) then Utf8Three(REPLACEMENT) + Utf8(text[1..])
    else Utf8Three(text[0]) + Utf8(text[1..])
  }

  function Units(point: nat): Text
    requires point < 0x11_0000
  {
    if point < 0x1_0000 then [point] else [0xD800 + (point - 0x1_0000) / 1024, 0xDC00 + (point - 0x1_0000) % 1024]
  }

  /** The continuation bytes still to come cannot take the code point out of range. */
  predicate Fits(point: nat, needed: nat, upper: int) {
    var next := point * 64 + (upper - 0x80);
    || (needed == 1 && next < 0x11_0000)
    || (needed == 2 && next * 64 + 63 < 0x11_0000)
    || (needed == 3 && (next * 64 + 63) * 64 + 63 < 0x11_0000)
  }

  /** buffer.toString(): each maximal ill-formed part becomes one replacement character. */
  function Utf8Decode(b: seq<Byte>): Text
    decreases |b|, 0
  {
    if b == [] then []
    else if b[0] < 0x80 then [b[0]] + Utf8Decode(b[1..])
    else if 0xC2 <= b[0] < 0xE0 then Continue(b[0] - 0xC0, 1, 0x80, 0xBF, b[1..])
    else if 0xE0 <= b[0] < 0xF0 then
      Continue(b[0] - 0xE0, 2, if b[0] == 0xE0 then 0xA0 else 0x80, if b[0] == 0xED then 0x9F else 0xBF, b[1..])
    else if 0xF0 <= b[0] < 0xF5 then
      Continue(b[0] - 0xF0, 3, if b[0] == 0xF0 then 0x90 else 0x80, if b[0] == 0xF4 then 0x8F else 0xBF, b[1..])
    else [REPLACEMENT] + Utf8Decode(b[1..])
  }

  function Continue(point: nat, needed: nat, lower: int, upper: int, b: seq<Byte>): Text
    requires 0x80 <= lower <= upper <= 0xBF && Fits(point, needed, upper)
    decreases |b|, 1
  {
    if b == [] then [REPLACEMENT]
    else if !(lower <= b[0] <= upper) then [REPLACEMENT] + Utf8Decode(b)
    else
      var next := point * 64 + (b[0] - 0x80);
      if needed == 1 then Units(next) + Utf8Decode(b[1..]) else Continue(next, needed - 1, 0x80, 0xBF, b[1..])
  }

  /** The text with every lone surrogate replaced. */
  function Scrub(text: Text): Text {
    if text == [] then []
    else if High(text[0]) && |text| > 1 && Low(text[1]) then text[..2] + Scrub(text[2..])
    else [if High(text[0]) || Low(text[0]) then REPLACEMENT else text[0]] + Scrub(text[1..])
  }

  lemma DecodeTwo(a: Byte, b: Byte, rest: seq<Byte>)
    requires 0xC2 <= a < 0xE0 && 0x80 <= b < 0xC0
    ensures Utf8Decode([a, b] + rest) == [(a - 0xC0) * 64 + (b - 0x80)] + Utf8Decode(rest)
  {
    var s := [a, b] + rest;
    assert s[1..] == [b] + rest && s[1..][1..] == rest;
  }

  lemma DecodeThree(u: Unit, rest: seq<Byte>)
    requires u >= 0x800 && !High(u) && !Low(u)
    ensures Utf8Decode(Utf8Three(u) + rest) == [u] + Utf8Decode(rest)
  {
    var e := Utf8Three(u);
    var s := e + rest;
    assert s[1..] == [e[1], e[2]] + rest;
    assert s[1..][1..] == [e[2]] + rest;
    assert s[1..][1..][1..] == rest;
    assert u == (u / 4096 * 64 + u / 64 % 64) * 64 + u % 64;
    var lower, upper := if e[0] == 0xE0 then 0xA0 else 0x80, if e[0] == 0xED then 0x9F else 0xBF;
    assert lower <= e[1] <= upper;
    assert Utf8Decode(s) == Continue(u / 4096, 2, lower, upper, s[1..]);
    assert Utf8Decode(s) == Continue(u / 4096 * 64 + u / 64 % 64, 1, 0x80, 0xBF, s[1..][1..]);
  }

  lemma DecodeFour(a: Byte, b: Byte, c: Byte, d: Byte, rest: seq<Byte>)
    requires 0xF0 <= a < 0xF5 && (if a == 0xF0 then 0x90 else 0x80) <= b <= (if a == 0xF4 then 0x8F else 0xBF)
    requires 0x80 <= c < 0xC0 && 0x80 <= d < 0xC0
    ensures Utf8Decode([a, b, c, d] + rest) ==
            Units((((a - 0xF0) * 64 + (b - 0x80)) * 64 + (c - 0x80)) * 64 + (d - 0x80)) + Utf8Decode(rest)
  {
    var s := [a, b, c, d] + rest;
    var s1, s2, s3 := [b, c, d] + rest, [c, d] + rest, [d] + rest;
    assert s[1..] == s1 && s1[1..] == s2 && s2[1..] == s3 && s3[1..] == rest;
    var lower, upper := if a == 0xF0 then 0x90 else 0x80, if a == 0xF4 then 0x8F else 0xBF;
    assert Utf8Decode(s) == Continue(a - 0xF0, 3, lower, upper, s1);
    var p := (a - 0xF0) * 64 + (b - 0x80);
    assert Continue(a - 0xF0, 3, lower, upper, s1) == Continue(p, 2, 0x80, 0xBF, s2);
    assert Continue(p, 2, 0x80, 0xBF, s2) == Continue(p * 64 + (c - 0x80), 1, 0x80, 0xBF, s3);
  }

  /** A number in steps of 64, 4096 and 262144. */
  lemma SixBitGroups(p: int)
    requires 0x1_0000 <= p < 0x11_0000
    ensures ((p / 0x4_0000 * 64 + p / 4096 % 64) * 64 + p / 64 % 64) * 64 + p % 64 == p
    ensures 0 <= p / 0x4_0000 <= 4
    ensures p / 0x4_0000 == 0 ==> p / 4096 % 64 >= 0x10
    ensures p / 0x4_0000 == 4 ==> p / 4096 % 64 < 0x10
  {
    var q, r, s := p / 64, p / 4096, p / 0x4_0000;
    assert q / 64 == r && r / 64 == s;
    assert r == s * 64 + r % 64 && q == r * 64 + q % 64 && p == q * 64 + p % 64;
  }

  lemma PairBytes(high: Unit, low: Unit)
    requires High(high) && Low(low)
    ensures var e: seq<int> := Utf8Pair(high, low);
            var p := 0x1_0000 + (high - 0xD800) * 1024 + (low - 0xDC00);
            && 0xF0 <= e[0] < 0xF5 && (if e[0] == 0xF0 then 0x90 else 0x80) <= e[1] <= (if e[0] == 0xF4 then 0x8F else 0xBF)
            && 0x80 <= e[2] < 0xC0 && 0x80 <= e[3] < 0xC0
            && (((e[0] - 0xF0) * 64 + (e[1] - 0x80)) * 64 + (e[2] - 0x80)) * 64 + (e[3] - 0x80) == p
  {
    SixBitGroups(0x1_0000 + (high - 0xD800) * 1024 + (low - 0xDC00));
  }

  lemma DecodePair(high: Unit, low: Unit, rest: seq<Byte>)
    requires High(high) && Low(low)
    ensures Utf8Decode(Utf8Pair(high, low) + rest) == [high, low] + Utf8Decode(rest)
  {
    var e := Utf8Pair(high, low);
    PairBytes(high, low);
    DecodeFour(e[0], e[1], e[2], e[3], rest);
    assert e == [e[0], e[1], e[2], e[3]];
    UnitsOfPair(high, low);
  }

  lemma UnitsOfPair(high: Unit, low: Unit)
    requires High(high) && Low(low)
    ensures Units(0x1_0000 + (high - 0xD800) * 1024 + (low - 0xDC00)) == [high, low]
  {
    var rest: nat := low - 0xDC00;
    assert ((high - 0xD800) * 1024 + rest) / 1024 == high - 0xD800;
  }

  /** Decoding what was encoded gives the text with its lone surrogates replaced. */
  lemma {:induction false} Utf8RoundTrip(text: Text)
    ensures Utf8Decode(Utf8(text)) == Scrub(text)
    decreases |text|
  {
    if text != [] {
      var u := text[0];
      if u < 0x80 {
        Utf8RoundTrip(text[1..]);
        assert Utf8(text)[1..] == Utf8(text[1..]);
      } else if u < 0x800 {
        Utf8RoundTrip(text[1..]);
        DecodeTwo(0xC0 + u / 64, 0x80 + u % 64, Utf8(text[1..]));
      } else if High(u) && |text| > 1 && Low(text[1]) {
        Utf8RoundTrip(text[2..]);
        DecodePair(u, text[1], Utf8(text[2..]));
        assert text[..2] == [u, text[1]];
      } else {
        Utf8RoundTrip(text[1..]);
        DecodeThree(if High(u) || Low(u) then REPLACEMENT else u, Utf8(text[1..]));
      }
    }
  }

  lemma EncodeUnit(u: Unit, rest: Text)
    requires !High(u) && !Low(u)
    ensures Utf8([u] + rest) == (if u < 0x80 then [u]
                                 else if u < 0x800 then [0xC0 + u / 64, 0x80 + u % 64]
                                 else Utf8Three(u)) + Utf8(rest)
  {
    assert ([u] + rest)[1..] == rest;
  }

  lemma EncodePair(high: Unit, low: Unit, rest: Text)
    requires High(high) && Low(low)
    ensures Utf8([high, low] + rest) == Utf8Pair(high, low) + Utf8(rest)
  {
    assert ([high, low] + rest)[2..] == rest;
  }

  /** A continuation byte that is missing or not in its range makes a replacement character. */
  lemma ContinueRejects(point: nat, needed: nat, lower: int, upper: int, b: seq<Byte>)
    requires 0x80 <= lower <= upper <= 0xBF && Fits(point, needed, upper)
    ensures b == [] || !(lower <= b[0] <= upper) ==> 0xFFFD in Continue(point, needed, lower, upper, b)
  {
    if b == [] || !(lower <= b[0] <= upper) {
      assert Continue(point, needed, lower, upper, b)[0] == 0xFFFD;
    }
  }

  /** So does a byte that begins nothing. */
  lemma LeadRejects(b: seq<Byte>)
    requires b != []
    ensures 0x80 <= b[0] < 0xC2 || b[0] >= 0xF5 ==> 0xFFFD in Utf8Decode(b)
  {
    if 0x80 <= b[0] < 0xC2 || b[0] >= 0xF5 {
      assert Utf8Decode(b)[0] == 0xFFFD;
    }
  }

  /** A code point with the six bits of one more continuation byte. */
  function Group(point: int, byte: int): int {
    point * 64 + (byte - 0x80)
  }

  lemma ContinueAccepts(point: nat, needed: nat, lower: int, upper: int, b: seq<Byte>, t: Text)
    requires 0x80 <= lower <= upper <= 0xBF && Fits(point, needed, upper)
    requires t == Continue(point, needed, lower, upper, b) && 0xFFFD !in t
    ensures b != [] && lower <= b[0] <= upper
    ensures needed == 1 ==> Group(point, b[0]) < 0x11_0000 && t == Units(Group(point, b[0])) + Utf8Decode(b[1..])
    ensures needed > 1 ==> Fits(Group(point, b[0]), needed - 1, 0xBF)
                           && t == Continue(Group(point, b[0]), needed - 1, 0x80, 0xBF, b[1..])
  {
    ContinueRejects(point, needed, lower, upper, b);
  }

  lemma RestClean(a: Text, rest: Text)
    requires 0xFFFD !in a + rest
    ensures 0xFFFD !in rest
  {
    assert forall u | u in rest :: u in a + rest;
  }

  lemma Ungroup(point: int, byte: int)
    requires 0x80 <= byte < 0xC0
    ensures Group(point, byte) / 64 == point && Group(point, byte) % 64 == byte - 0x80
  {
  }

  lemma UngroupTwice(point: int, b: int, c: int, q: int, r: int)
    requires 0x80 <= b < 0xC0 && 0x80 <= c < 0xC0 && q == Group(point, b) && r == Group(q, c)
    ensures r / 64 == q && r % 64 == c - 0x80 && q / 64 == point && q % 64 == b - 0x80
  {
    Ungroup(point, b);
    Ungroup(q, c);
  }

  lemma DivideTwice(p: int)
    ensures p / 4096 == p / 64 / 64 && p / 0x4_0000 == p / 64 / 64 / 64
  {
  }

  /** A code point from U+10000 on is written with the bytes that it was grouped from. */
  lemma FourBytes(a: Byte, b: Byte, c: Byte, d: Byte, q: int, r: int, p: int)
    requires 0xF0 <= a < 0xF5 && 0x80 <= b < 0xC0 && 0x80 <= c < 0xC0 && 0x80 <= d < 0xC0
    requires q == Group(a as int - 0xF0, b) && r == Group(q, c) && p == Group(r, d) && 0x1_0000 <= p < 0x11_0000
    ensures var t := Units(p); |t| == 2 && High(t[0]) && Low(t[1]) && Utf8Pair(t[0], t[1]) == [a, b, c, d]
  {
    UngroupTwice(a as int - 0xF0, b, c, q, r);
    Ungroup(r, d);
    DivideTwice(p);
    HighAndLow(p);
  }

  lemma HighAndLow(p: int)
    requires 0x1_0000 <= p < 0x11_0000
    ensures var t := Units(p);
            && |t| == 2 && High(t[0]) && Low(t[1])
            && Utf8Pair(t[0], t[1]) == [0xF0 + p / 0x4_0000, 0x80 + p / 4096 % 64, 0x80 + p / 64 % 64, 0x80 + p % 64]
  {
    var x: int := p - 0x1_0000;
    assert x == x / 1024 * 1024 + x % 1024;
  }

  lemma ThreeBytes(a: Byte, b: Byte, c: Byte, q: int, u: int)
    requires 0xE0 <= a < 0xF0 && (if a == 0xE0 then 0xA0 else 0x80) <= b <= (if a == 0xED then 0x9F else 0xBF) && 0x80 <= c < 0xC0
    requires q == Group(a as int - 0xE0, b) && u == Group(q, c)
    ensures 0x800 <= u < 0x1_0000 && !High(u) && !Low(u) && Utf8Three(u) == [a, b, c]
  {
    Ungroup(a as int - 0xE0, b);
    Ungroup(q, c);
    assert u / 4096 == u / 64 / 64;
  }

  lemma DecodesOne(b: seq<Byte>, n: nat, u: Unit, e: seq<Byte>)
    requires n <= |b| && b[..n] == e && !High(u) && !Low(u)
    requires 0xFFFD !in Utf8Decode(b) && Utf8Decode(b) == [u] + Utf8Decode(b[n..])
    requires e == if u < 0x80 then [u] else if u < 0x800 then [0xC0 + u / 64, 0x80 + u % 64] else Utf8Three(u)
    ensures 0xFFFD !in Utf8Decode(b[n..])
    ensures Utf8(Utf8Decode(b)) == b[..n] + Utf8(Utf8Decode(b[n..]))
  {
    RestClean([u], Utf8Decode(b[n..]));
    EncodeUnit(u, Utf8Decode(b[n..]));
  }

  lemma ContinueOnce(b: seq<Byte>, p: int)
    requires b != [] && 0xC2 <= b[0] < 0xE0 && 0xFFFD !in Utf8Decode(b) && p == b[0] as int - 0xC0
    ensures |b| >= 2 && 0x80 <= b[1] < 0xC0
    ensures 0 <= Group(p, b[1]) < 0x11_0000 && Utf8Decode(b) == Units(Group(p, b[1])) + Utf8Decode(b[2..])
  {
    ContinueAccepts(p, 1, 0x80, 0xBF, b[1..], Utf8Decode(b));
    assert b[1..][1..] == b[2..];
  }

  lemma TwoBytes(a: Byte, b: Byte, u: int)
    requires 0xC2 <= a < 0xE0 && 0x80 <= b < 0xC0 && u == Group(a as int - 0xC0, b)
    ensures 0x80 <= u < 0x800 && [0xC0 + u / 64, 0x80 + u % 64] == [a, b]
  {
    Ungroup(a as int - 0xC0, b);
  }

  lemma FirstTwo(b: seq<Byte>)
    requires |b| >= 2
    ensures b[..2] == [b[0], b[1]]
  {
  }

  lemma FirstThree(b: seq<Byte>)
    requires |b| >= 3
    ensures b[..3] == [b[0], b[1], b[2]]
  {
  }

  lemma FirstFour(b: seq<Byte>)
    requires |b| >= 4
    ensures b[..4] == [b[0], b[1], b[2], b[3]]
  {
  }

  lemma ExactTwo(b: seq<Byte>)
    requires b != [] && 0xC2 <= b[0] < 0xE0 && 0xFFFD !in Utf8Decode(b)
    ensures |b| >= 2 && 0xFFFD !in Utf8Decode(b[2..])
    ensures Utf8(Utf8Decode(b)) == b[..2] + Utf8(Utf8Decode(b[2..]))
  {
    var p: int := b[0] as int - 0xC0;
    ContinueOnce(b, p);
    var u: int := Group(p, b[1]);
    TwoBytes(b[0], b[1], u);
    FirstTwo(b);
    DecodesOne(b, 2, u, b[..2]);
  }

  lemma ContinueTwice(b: seq<Byte>, p: int, lower: int, upper: int)
    requires b != [] && 0xE0 <= b[0] < 0xF0 && 0xFFFD !in Utf8Decode(b) && p == b[0] as int - 0xE0
    requires lower == (if b[0] == 0xE0 then 0xA0 else 0x80) && upper == (if b[0] == 0xED then 0x9F else 0xBF)
    ensures |b| >= 3 && lower <= b[1] <= upper && 0x80 <= b[2] < 0xC0
    ensures var u := Group(Group(p, b[1]), b[2]);
            0 <= u < 0x11_0000 && Utf8Decode(b) == Units(u) + Utf8Decode(b[3..])
  {
    var t := Utf8Decode(b);
    ContinueAccepts(p, 2, lower, upper, b[1..], t);
    assert b[1..][1..] == b[2..];
    ContinueAccepts(Group(p, b[1]), 1, 0x80, 0xBF, b[2..], t);
    assert b[2..][1..] == b[3..];
  }

  lemma ExactThree(b: seq<Byte>)
    requires b != [] && 0xE0 <= b[0] < 0xF0 && 0xFFFD !in Utf8Decode(b)
    ensures |b| >= 3 && 0xFFFD !in Utf8Decode(b[3..])
    ensures Utf8(Utf8Decode(b)) == b[..3] + Utf8(Utf8Decode(b[3..]))
  {
    var p: int := b[0] as int - 0xE0;
    ContinueTwice(b, p, if b[0] == 0xE0 then 0xA0 else 0x80, if b[0] == 0xED then 0x9F else 0xBF);
    var q: int := Group(p, b[1]);
    var u: int := Group(q, b[2]);
    ThreeBytes(b[0], b[1], b[2], q, u);
    FirstThree(b);
    DecodesOne(b, 3, u, b[..3]);
  }

  lemma ContinueThrice(b: seq<Byte>, p: int, lower: int, upper: int)
    requires b != [] && 0xF0 <= b[0] < 0xF5 && 0xFFFD !in Utf8Decode(b) && p == b[0] as int - 0xF0
    requires lower == (if b[0] == 0xF0 then 0x90 else 0x80) && upper == (if b[0] == 0xF4 then 0x8F else 0xBF)
    ensures |b| >= 4 && lower <= b[1] <= upper && 0x80 <= b[2] < 0xC0 && 0x80 <= b[3] < 0xC0
    ensures var u := Group(Group(Group(p, b[1]), b[2]), b[3]);
            0x1_0000 <= u < 0x11_0000 && Utf8Decode(b) == Units(u) + Utf8Decode(b[4..])
  {
    var t := Utf8Decode(b);
    ContinueAccepts(p, 3, lower, upper, b[1..], t);
    var q: int := Group(p, b[1]);
    assert b[1..][1..] == b[2..];
    ContinueAccepts(q, 2, 0x80, 0xBF, b[2..], t);
    assert b[2..][1..] == b[3..];
    ContinueAccepts(Group(q, b[2]), 1, 0x80, 0xBF, b[3..], t);
    assert b[3..][1..] == b[4..];
  }

  lemma DecodesPair(b: seq<Byte>, t: Text)
    requires |b| >= 4 && |t| == 2 && High(t[0]) && Low(t[1]) && Utf8Pair(t[0], t[1]) == b[..4]
    requires 0xFFFD !in Utf8Decode(b) && Utf8Decode(b) == t + Utf8Decode(b[4..])
    ensures 0xFFFD !in Utf8Decode(b[4..])
    ensures Utf8(Utf8Decode(b)) == b[..4] + Utf8(Utf8Decode(b[4..]))
  {
    RestClean(t, Utf8Decode(b[4..]));
    EncodePair(t[0], t[1], Utf8Decode(b[4..]));
    assert t == [t[0], t[1]];
  }

  lemma ExactFour(b: seq<Byte>)
    requires b != [] && 0xF0 <= b[0] < 0xF5 && 0xFFFD !in Utf8Decode(b)
    ensures |b| >= 4 && 0xFFFD !in Utf8Decode(b[4..])
    ensures Utf8(Utf8Decode(b)) == b[..4] + Utf8(Utf8Decode(b[4..]))
  {
    var p: int := b[0] as int - 0xF0;
    ContinueThrice(b, p, if b[0] == 0xF0 then 0x90 else 0x80, if b[0] == 0xF4 then 0x8F else 0xBF);
    var q: int := Group(p, b[1]);
    var r: int := Group(q, b[2]);
    FourBytes(b[0], b[1], b[2], b[3], q, r, Group(r, b[3]));
    FirstFour(b);
    DecodesPair(b, Units(Group(r, b[3])));
  }

  /**
    The decoder takes nothing for text that the encoder does not write: whatever bytes come, if
    no replacement character comes out, encoding what came out gives the same bytes.
   */
  lemma {:induction false} DecodedExactly(b: seq<Byte>)
    requires 0xFFFD !in Utf8Decode(b)
    ensures Utf8(Utf8Decode(b)) == b
    decreases |b|
  {
    if b != [] {
      LeadRejects(b);
      if b[0] < 0x80 {
        RestClean([b[0]], Utf8Decode(b[1..]));
        EncodeUnit(b[0], Utf8Decode(b[1..]));
        DecodedExactly(b[1..]);
      } else if 0xC2 <= b[0] < 0xE0 {
        ExactTwo(b);
        DecodedExactly(b[2..]);
      } else if 0xE0 <= b[0] < 0xF0 {
        ExactThree(b);
        DecodedExactly(b[3..]);
      } else if 0xF0 <= b[0] < 0xF5 {
        ExactFour(b);
        DecodedExactly(b[4..]);
      }
    }
  }

  /** Behind an ASCII byte decoding begins anew, whatever came before: an ill-formed part never swallows one. */
  lemma {:induction false} DecodeAtAscii(a: seq<Byte>, c: Byte, rest: seq<Byte>)
    requires c < 0x80
    ensures Utf8Decode(a + ([c] + rest)) == Utf8Decode(a) + ([c] + Utf8Decode(rest))
    decreases |a|, 0
  {
    var s, tail := a + ([c] + rest), [c] + Utf8Decode(rest);
    if a == [] {
      assert s == [c] + rest && s[1..] == rest;
    } else {
      assert s[0] == a[0] && s[1..] == a[1..] + ([c] + rest);
      var b := a[0] as int;
      if b < 0x80 || b < 0xC2 || b >= 0xF5 {
        DecodeAtAscii(a[1..], c, rest);
        ConcatOne(if b < 0x80 then a[0] else REPLACEMENT, Utf8Decode(a[1..]), tail);
      } else if b < 0xE0 {
        ContinueToAscii(b - 0xC0, 1, 0x80, 0xBF, a[1..], c, rest);
      } else if b < 0xF0 {
        ContinueToAscii(b - 0xE0, 2, if b == 0xE0 then 0xA0 else 0x80, if b == 0xED then 0x9F else 0xBF, a[1..], c, rest);
      } else {
        ContinueToAscii(b - 0xF0, 3, if b == 0xF0 then 0x90 else 0x80, if b == 0xF4 then 0x8F else 0xBF, a[1..], c, rest);
      }
    }
  }

  lemma ConcatOne(u: Unit, a: Text, b: Text)
    ensures [u] + (a + b) == [u] + a + b
  {
  }

  lemma {:induction false} ContinueToAscii(point: nat, needed: nat, lower: int, upper: int, a: seq<Byte>, c: Byte, rest: seq<Byte>)
    requires c < 0x80 && 0x80 <= lower <= upper <= 0xBF && Fits(point, needed, upper)
    ensures Continue(point, needed, lower, upper, a + ([c] + rest)) ==
            Continue(point, needed, lower, upper, a) + ([c] + Utf8Decode(rest))
    decreases |a|, 1
  {
    var s, tail := a + ([c] + rest), [c] + Utf8Decode(rest);
    if a == [] {
      assert s == [c] + rest;
      DecodeAtAscii([], c, rest);
      assert [] + ([c] + rest) == s && [] + tail == tail;
    } else if !(lower <= a[0] <= upper) {
      DecodeAtAscii(a, c, rest);
      ConcatOne(REPLACEMENT, Utf8Decode(a), tail);
    } else {
      assert s[0] == a[0] && s[1..] == a[1..] + ([c] + rest);
      var next: int := Group(point, a[0]);
      if needed == 1 {
        DecodeAtAscii(a[1..], c, rest);
        assert Units(next) + (Utf8Decode(a[1..]) + tail) == Units(next) + Utf8Decode(a[1..]) + tail;
      } else {
        ContinueToAscii(next, needed - 1, 0x80, 0xBF, a[1..], c, rest);
      }
    }
  }

  /** Position i holds a surrogate whose partner is not beside it. */
  predicate Lone(text: Text, i: nat)
    requires i < |text|
  {
    || (High(text[i]) && !(i + 1 < |text| && Low(text[i + 1])))
    || (Low(text[i]) && !(i > 0 && High(text[i - 1])))
  }

  predicate WellFormed(text: Text) {
    forall i | 0 <= i < |text| :: !Lone(text, i)
  }

  lemma {:induction false} ScrubAt(text: Text, i: nat)
    requires i < |text|
    ensures |Scrub(text)| == |text|
    ensures Scrub(text)[i] == if Lone(text, i) then REPLACEMENT else text[i]
    decreases |text|
  {
    if High(text[0]) && |text| > 1 && Low(text[1]) {
      var rest := text[2..];
      if i >= 2 {
        ScrubAt(rest, i - 2);
        assert Lone(rest, i - 2) <==> Lone(text, i);
      } else if rest != [] {
        ScrubAt(rest, 0);
      }
    } else {
      var rest := text[1..];
      if i >= 1 {
        ScrubAt(rest, i - 1);
        assert Lone(rest, i - 1) <==> Lone(text, i);
      } else if rest != [] {
        ScrubAt(rest, 0);
      }
    }
  }

  // ---------------------------------------------------------------- base64

  function Digit(v: int): char
    requires 0 <= v < 64
  {
    if v < 26 then ('A' as int + v) as char
    else if v < 52 then ('a' as int + (v - 26)) as char
    else if v < 62 then ('0' as int + (v - 52)) as char
    else if v == 62 then '+' else '/'
  }

  /** The value of a digit of either base64 alphabet; anything else is passed over. */
  function DigitValue(c: char): (v: int)
    ensures v < 64
  {
    if 'A' <= c <= 'Z' then c as int - 'A' as int
    else if 'a' <= c <= 'z' then c as int - 'a' as int + 26
    else if '0' <= c <= '9' then c as int - '0' as int + 52
    else if c == '+' || c == '-' then 62
    else if c == '/' || c == '_' then 63
    else -1
  }

  function Base64(b: seq<Byte>): string {
    if b == [] then ""
    else if |b| == 1 then [Digit(b[0] / 4), Digit(b[0] % 4 * 16), '=', '=']
    else if |b| == 2 then [Digit(b[0] / 4), Digit(b[0] % 4 * 16 + b[1] / 16), Digit(b[1] % 16 * 4), '=']
    else
      [Digit(b[0] / 4), Digit(b[0] % 4 * 16 + b[1] / 16), Digit(b[1] % 16 * 4 + b[2] / 64), Digit(b[2] % 64)]
      + Base64(b[3..])
  }

  function Digits(s: string): (d: seq<int>)
    ensures forall i | 0 <= i < |d| :: 0 <= d[i] < 64
  {
    if s == "" then [] else (if DigitValue(s[0]) >= 0 then [DigitValue(s[0])] else []) + Digits(s[1..])
  }

  function FromDigits(d: seq<int>): seq<Byte>
    requires forall i | 0 <= i < |d| :: 0 <= d[i] < 64
  {
    if |d| < 2 then []
    else if |d| == 2 then [d[0] * 4 + d[1] / 16]
    else if |d| == 3 then [d[0] * 4 + d[1] / 16, d[1] % 16 * 16 + d[2] / 4]
    else [d[0] * 4 + d[1] / 16, d[1] % 16 * 16 + d[2] / 4, d[2] % 4 * 64 + d[3]] + FromDigits(d[4..])
  }

  function Base64Decode(s: string): seq<Byte> {
    FromDigits(Digits(s))
  }

  lemma DigitHasValue(v: int)
    requires 0 <= v < 64
    ensures DigitValue(Digit(v)) == v
  {
  }

  const LETTERS := "ABCDEFGHIJKLMNOPQRSTUVWXYZ"
  const SMALL_LETTERS := "abcdefghijklmnopqrstuvwxyz"
  const DIGITS_AND_SIGNS := "0123456789+/"

  /** The alphabet of RFC 4648, section 4. */
  lemma DigitIsInAlphabet(v: int)
    requires 0 <= v < 64
    ensures Digit(v) == if v < 26 then LETTERS[v] else if v < 52 then SMALL_LETTERS[v - 26] else DIGITS_AND_SIGNS[v - 52]
  {
  }

  function One(c: char): seq<int> {
    if DigitValue(c) >= 0 then [DigitValue(c)] else []
  }

  lemma DigitsFour(a: char, b: char, c: char, d: char, rest: string)
    ensures Digits([a, b, c, d] + rest) == One(a) + (One(b) + (One(c) + (One(d) + Digits(rest))))
  {
    var s, s1, s2, s3 := [a, b, c, d] + rest, [b, c, d] + rest, [c, d] + rest, [d] + rest;
    assert s[1..] == s1 && s1[1..] == s2 && s2[1..] == s3 && s3[1..] == rest;
    assert Digits(s3) == One(d) + Digits(rest);
    assert Digits(s2) == One(c) + Digits(s3);
    assert Digits(s1) == One(b) + Digits(s2);
  }

  lemma DecodeGroup(p: int, q: int, r: int, s: int, rest: string)
    requires 0 <= p < 64 && 0 <= q < 64 && 0 <= r < 64 && 0 <= s < 64
    ensures Base64Decode([Digit(p), Digit(q), Digit(r), Digit(s)] + rest) ==
            [p * 4 + q / 16, q % 16 * 16 + r / 4, r % 4 * 64 + s] + Base64Decode(rest)
  {
    DigitsFour(Digit(p), Digit(q), Digit(r), Digit(s), rest);
    DigitHasValue(p);
    DigitHasValue(q);
    DigitHasValue(r);
    DigitHasValue(s);
    var d := [p, q, r, s] + Digits(rest);
    assert [p] + ([q] + ([r] + ([s] + Digits(rest)))) == d;
    assert d[4..] == Digits(rest);
  }

  lemma DecodeLastTwo(p: int, q: int, r: int)
    requires 0 <= p < 64 && 0 <= q < 64 && 0 <= r < 64
    ensures Base64Decode([Digit(p), Digit(q), Digit(r), '=']) == [p * 4 + q / 16, q % 16 * 16 + r / 4]
  {
    DigitsFour(Digit(p), Digit(q), Digit(r), '=', "");
    DigitHasValue(p);
    DigitHasValue(q);
    DigitHasValue(r);
    assert [Digit(p), Digit(q), Digit(r), '='] + "" == [Digit(p), Digit(q), Digit(r), '='];
    assert [p] + ([q] + ([r] + ([] + Digits("")))) == [p, q, r];
  }

  lemma DecodeLastOne(p: int, q: int)
    requires 0 <= p < 64 && 0 <= q < 64
    ensures Base64Decode([Digit(p), Digit(q), '=', '=']) == [p * 4 + q / 16]
  {
    DigitsFour(Digit(p), Digit(q), '=', '=', "");
    DigitHasValue(p);
    DigitHasValue(q);
    assert [Digit(p), Digit(q), '=', '='] + "" == [Digit(p), Digit(q), '=', '='];
    assert [p] + ([q] + ([] + ([] + Digits("")))) == [p, q];
  }

  /** Four groups of six bits hold the three bytes. */
  lemma Regroup(a: Byte, b: Byte, c: Byte)
    ensures a / 4 * 4 + (a % 4 * 16 + b / 16) / 16 == a
    ensures (a % 4 * 16 + b / 16) % 16 * 16 + (b % 16 * 4 + c / 64) / 4 == b
    ensures (b % 16 * 4 + c / 64) % 4 * 64 + c % 64 == c
  {
    var x, y: int := b / 16, c / 64;
    assert 0 <= x < 16 && 0 <= y < 4;
    assert (a % 4 * 16 + x) / 16 == a % 4 && (a % 4 * 16 + x) % 16 == x;
    assert (b % 16 * 4 + y) / 4 == b % 16 && (b % 16 * 4 + y) % 4 == y;
  }

  lemma DecodeThreeBytes(a: Byte, b: Byte, c: Byte, rest: string, s: string)
    requires s == [Digit(a / 4), Digit(a % 4 * 16 + b / 16), Digit(b % 16 * 4 + c / 64), Digit(c % 64)] + rest
    ensures Base64Decode(s) == [a, b, c] + Base64Decode(rest)
  {
    DecodeGroup(a / 4, a % 4 * 16 + b / 16, b % 16 * 4 + c / 64, c % 64, rest);
    Regroup(a, b, c);
  }

  lemma DecodeTwoBytes(a: Byte, b: Byte, s: string)
    requires s == [Digit(a / 4), Digit(a % 4 * 16 + b / 16), Digit(b % 16 * 4), '=']
    ensures Base64Decode(s) == [a, b]
  {
    DecodeLastTwo(a / 4, a % 4 * 16 + b / 16, b % 16 * 4);
    Regroup(a, b, 0);
  }

  lemma DecodeOneByte(a: Byte, s: string)
    requires s == [Digit(a / 4), Digit(a % 4 * 16), '=', '=']
    ensures Base64Decode(s) == [a]
  {
    DecodeLastOne(a / 4, a % 4 * 16);
    Regroup(a, 0, 0);
  }

  lemma Base64Unfolds(b: seq<Byte>)
    ensures b == [] ==> Base64(b) == ""
    ensures |b| == 1 ==> Base64(b) == [Digit(b[0] / 4), Digit(b[0] % 4 * 16), '=', '=']
    ensures |b| == 2 ==>
              Base64(b) == [Digit(b[0] / 4), Digit(b[0] % 4 * 16 + b[1] / 16), Digit(b[1] % 16 * 4), '=']
    ensures |b| > 2 ==>
              Base64(b) == [Digit(b[0] / 4), Digit(b[0] % 4 * 16 + b[1] / 16), Digit(b[1] % 16 * 4 + b[2] / 64), Digit(b[2] % 64)]
                           + Base64(b[3..])
  {
  }

  /** Three bytes are a number of 24 bits, the first byte on top, and its four digits of 6 bits. */
  lemma Base64Bits(a: Byte, b: Byte, c: Byte, rest: seq<Byte>)
    ensures var n := a * 0x1_0000 + b * 0x100 + c;
            Base64([a, b, c] + rest) ==
            [Digit(n / 0x4_0000), Digit(n / 0x1000 % 64), Digit(n / 64 % 64), Digit(n % 64)] + Base64(rest)
  {
    var s := [a, b, c] + rest;
    assert s[3..] == rest;
    Base64Unfolds(s);
    SixBits(a, b, c);
  }

  lemma SixBits(a: Byte, b: Byte, c: Byte)
    ensures var n := a * 0x1_0000 + b * 0x100 + c;
            && n / 0x4_0000 == a / 4 && n / 0x1000 % 64 == a % 4 * 16 + b / 16
            && n / 64 % 64 == b % 16 * 4 + c / 64 && n % 64 == c % 64
  {
    var n: int := a * 0x1_0000 + b * 0x100 + c;
    var p: int, q: int, r: int := a / 4, b / 16, c / 64;
    assert n == p * 0x4_0000 + (a % 4 * 0x1_0000 + b * 0x100 + c);
    assert n / 0x1000 == a * 16 + q;
    assert n / 64 == a * 1024 + b * 4 + r;
  }

  lemma {:induction false} DecodesTo(b: seq<Byte>, s: string)
    requires s == Base64(b)
    ensures Base64Decode(s) == b
    decreases |b|
  {
    Base64Unfolds(b);
    if |b| == 1 {
      DecodeOneByte(b[0], s);
      assert b == [b[0]];
    } else if |b| == 2 {
      DecodeTwoBytes(b[0], b[1], s);
      assert b == [b[0], b[1]];
    } else if |b| > 2 {
      DecodeThreeBytes(b[0], b[1], b[2], Base64(b[3..]), s);
      DecodesTo(b[3..], Base64(b[3..]));
      assert b == [b[0], b[1], b[2]] + b[3..];
    }
  }

  /** Decoding what was encoded gives the bytes back. */
  lemma Base64RoundTrip(b: seq<Byte>)
    ensures Base64Decode(Base64(b)) == b
  {
    DecodesTo(b, Base64(b));
  }

  // ---------------------------------------------------------------- encrypt and decrypt

  method Encrypt(text: Text, key: Text) returns (encrypted: string)
    ensures encrypted == Base64(Utf8(Mask(text, key)))
  {
    var result: Text := [];
    for i := 0 to |text|
      invariant result == Mask(text, key)[..i]
    {
      result := result + [XorUnit(text[i], KeyUnit(key, i))];
    }
    assert result == Mask(text, key);
    encrypted := Base64(Utf8(result));
  }

  method Decrypt(encrypted: string, key: Text) returns (result: Text)
    ensures result == Mask(Utf8Decode(Base64Decode(encrypted)), key)
  {
    var text := Utf8Decode(Base64Decode(encrypted));
    result := [];
    for i := 0 to |text|
      invariant result == Mask(text, key)[..i]
    {
      result := result + [XorUnit(text[i], KeyUnit(key, i))];
    }
  }

  /** What comes back for a text. */
  function Recovered(text: Text, key: Text): Text {
    Mask(Utf8Decode(Base64Decode(Base64(Utf8(Mask(text, key))))), key)
  }

  method EncryptThenDecrypt(text: Text, key: Text) returns (back: Text)
    ensures back == text <==> WellFormed(Mask(text, key))
  {
    var encrypted := Encrypt(text, key);
    back := Decrypt(encrypted, key);
    RecoveredIff(text, key);
  }

  /** A unit comes back unchanged exactly when its masked unit is not a lone surrogate, and else as U+FFFD unmasked. */
  lemma RecoveredAt(text: Text, key: Text, i: nat)
    requires i < |text|
    ensures |Recovered(text, key)| == |text|
    ensures Recovered(text, key)[i] == text[i] <==> !Lone(Mask(text, key), i)
    ensures Lone(Mask(text, key), i) ==> Recovered(text, key)[i] == XorUnit(0xFFFD, KeyUnit(key, i))
  {
    var x := Mask(text, key);
    Base64RoundTrip(Utf8(x));
    Utf8RoundTrip(x);
    ScrubAt(x, i);
    XorTwice(text[i], KeyUnit(key, i));
    if Lone(x, i) {
      XorTwice(REPLACEMENT, KeyUnit(key, i));
      assert x[i] != REPLACEMENT;
    }
  }

  /** Decrypting an encrypted text gives it back if and only if the masked text is well-formed UTF-16. */
  lemma RecoveredIff(text: Text, key: Text)
    ensures Recovered(text, key) == text <==> WellFormed(Mask(text, key))
  {
    forall i | 0 <= i < |text|
      ensures |Recovered(text, key)| == |text|
      ensures Recovered(text, key)[i] == text[i] <==> !Lone(Mask(text, key), i)
    {
      RecoveredAt(text, key, i);
    }
    if text == [] {
      assert Recovered(text, key) == [];
    }
  }

  /** The other way round: a stored text that decodes without a replacement character is stored again as the same bytes. */
  lemma StoredAgain(encrypted: string, key: Text)
    requires 0xFFFD !in Utf8Decode(Base64Decode(encrypted))
    ensures var text := Mask(Utf8Decode(Base64Decode(encrypted)), key);
            Base64Decode(Base64(Utf8(Mask(text, key)))) == Base64Decode(encrypted)
  {
    var x := Utf8Decode(Base64Decode(encrypted));
    var text := Mask(x, key);
    forall i | 0 <= i < |x| ensures Mask(text, key)[i] == x[i] {
      XorTwice(x[i], KeyUnit(key, i));
    }
    assert Mask(text, key) == x;
    DecodedExactly(Base64Decode(encrypted));
    Base64RoundTrip(Base64Decode(encrypted));
  }

  /** With every unit of text and key below 0x8000, ASCII included, nothing is ever lost. */
  lemma LowHalfRecovered(text: Text, key: Text)
    requires forall i | 0 <= i < |text| :: text[i] < 0x8000
    requires forall i | 0 <= i < |key| :: key[i] < 0x8000
    ensures Recovered(text, key) == text
  {
    Powers();
    forall i | 0 <= i < |text| ensures Mask(text, key)[i] < 0x8000 {
      XorBound(text[i], KeyUnit(key, i), 15);
    }
    RecoveredIff(text, key);
  }

  lemma XorKeepsBlock(a: nat, b: nat)
    requires b < 0x400
    ensures Xor(a, b) / 1024 == a / 1024
  {
    Powers();
    XorKeepsHighBits(a, b, 10);
    ShiftTen(a);
    ShiftTen(Xor(a, b));
  }

  lemma BlockOfSurrogates(u: Unit)
    ensures High(u) <==> u / 1024 == 54
    ensures Low(u) <==> u / 1024 == 55
  {
  }

  /** A key of units below 0x400, such as an ASCII key, leaves every unit in its block of 1024. */
  lemma SmallKeyKeepsBlock(text: Text, key: Text, i: nat)
    requires i < |text| && forall k | 0 <= k < |key| :: key[k] < 0x400
    ensures High(Mask(text, key)[i]) <==> High(text[i])
    ensures Low(Mask(text, key)[i]) <==> Low(text[i])
  {
    XorKeepsBlock(text[i], KeyUnit(key, i));
    BlockOfSurrogates(text[i]);
    BlockOfSurrogates(Mask(text, key)[i]);
  }

  /** With such a key a text comes back exactly when it is itself well-formed UTF-16. */
  lemma SmallKeyRecoveredIff(text: Text, key: Text)
    requires forall k | 0 <= k < |key| :: key[k] < 0x400
    ensures Recovered(text, key) == text <==> WellFormed(text)
  {
    forall i | 0 <= i < |text|
      ensures High(Mask(text, key)[i]) <==> High(text[i])
      ensures Low(Mask(text, key)[i]) <==> Low(text[i])
    {
      SmallKeyKeepsBlock(text, key, i);
    }
    assert forall i | 0 <= i < |text| :: Lone(Mask(text, key), i) <==> Lone(text, i);
    RecoveredIff(text, key);
  }

  /** A larger key unit makes a surrogate of a plain letter, which is then lost: any letter, any such key. */
  lemma LargeKeyLosesPlainText(letter: Unit, k: Unit)
    requires letter < 0x400 && High(k)
    ensures WellFormed([letter]) && Recovered([letter], [k]) != [letter]
  {
    XorKeepsBlock(k, letter);
    XorCommutes(letter, k);
    BlockOfSurrogates(k);
    BlockOfSurrogates(XorUnit(letter, k));
    assert Lone(Mask([letter], [k]), 0);
    RecoveredIff([letter], [k]);
  }

  lemma {:induction false} XorCommutes(a: nat, b: nat)
    ensures Xor(a, b) == Xor(b, a)
    decreases a + b
  {
    if a != 0 || b != 0 {
      XorCommutes(a / 2, b / 2);
    }
  }
}
