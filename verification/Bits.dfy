/** Numbers as fixed-width bit strings, most significant bit first, and streams of them. */
module Bits {
  function Pow2(w: nat): nat {
    if w == 0 then 1 else 2 * Pow2(w - 1)
  }

  function BitsOf(a: int, w: nat): (r: seq<bool>)
    ensures |r| == w
    decreases w
  {
    if w == 0 then [] else BitsOf(a / 2, w - 1) + [a % 2 == 1]
  }

  function Value(bits: seq<bool>): nat {
    if bits == [] then 0
    else 2 * Value(bits[..|bits| - 1]) + if bits[|bits| - 1] then 1 else 0
  }

  lemma {:induction false} ValueBound(bits: seq<bool>)
    ensures Value(bits) < Pow2(|bits|)
  {
    if bits != [] {
      ValueBound(bits[..|bits| - 1]);
    }
  }

  lemma {:induction false} BitsOfValue(bits: seq<bool>)
    ensures BitsOf(Value(bits), |bits|) == bits
  {
    if bits != [] {
      BitsOfValue(bits[..|bits| - 1]);
    }
  }

  lemma {:induction false} ValueOfBits(a: int, w: nat)
    requires 0 <= a < Pow2(w)
    ensures Value(BitsOf(a, w)) == a
  {
    if w > 0 {
      ValueOfBits(a / 2, w - 1);
      assert BitsOf(a, w)[..w - 1] == BitsOf(a / 2, w - 1);
    }
  }

  function Bit(b: bool): nat {
    if b then 1 else 0
  }

  /** The number with these bits below those of `high`. */
  function Below(high: int, a: bool, b: bool, c: bool): int {
    8 * high + 4 * Bit(a) + 2 * Bit(b) + Bit(c)
  }

  lemma ValueLast(s: seq<bool>, a: bool, t: seq<bool>)
    requires t == s + [a]
    ensures Value(t) == 2 * Value(s) + Bit(a)
  {
    assert t[..|s|] == s;
  }

  lemma ValueLastThree(s: seq<bool>, a: bool, b: bool, c: bool, t: seq<bool>)
    requires t == s + [a, b, c]
    ensures Value(t) == Below(Value(s), a, b, c)
  {
    ValueLast(s, a, s + [a]);
    ValueLast(s + [a], b, s + [a, b]);
    ValueLast(s + [a, b], c, t);
  }

  /** Six bits in a row. */
  predicate SixAt(s: seq<bool>, n: nat, a: bool, b: bool, c: bool, d: bool, e: bool, f: bool) {
    n + 6 <= |s| && s[n] == a && s[n + 1] == b && s[n + 2] == c && s[n + 3] == d && s[n + 4] == e && s[n + 5] == f
  }

  /** The value of six bits in a row. */
  lemma SixBits(s: seq<bool>, n: nat, v: int, a: bool, b: bool, c: bool, d: bool, e: bool, f: bool)
    requires n + 6 <= |s| && v == Below(Below(0, a, b, c), d, e, f)
    ensures s[n..n + 6] == BitsOf(v, 6) <==> SixAt(s, n, a, b, c, d, e, f)
  {
    SixLiteral(v, a, b, c, d, e, f);
    assert s[n..n + 6] == [s[n], s[n + 1], s[n + 2], s[n + 3], s[n + 4], s[n + 5]];
  }

  lemma SixLiteral(v: int, a: bool, b: bool, c: bool, d: bool, e: bool, f: bool)
    requires v == Below(Below(0, a, b, c), d, e, f)
    ensures BitsOf(v, 6) == [a, b, c, d, e, f]
  {
    var bits := [a, b, c, d, e, f];
    ValueLastThree([], a, b, c, bits[..3]);
    ValueLastThree(bits[..3], d, e, f, bits);
    BitsOfValue(bits);
  }

  predicate EightAt(s: seq<bool>, n: nat, x: bool, y: bool, a: bool, b: bool, c: bool, d: bool, e: bool, f: bool) {
    n + 8 <= |s| && s[n] == x && s[n + 1] == y && SixAt(s, n + 2, a, b, c, d, e, f)
  }

  /** Eight bits in a row that spell a number. */
  lemma EightBits(
      s: seq<bool>, n: nat, v: int, x: bool, y: bool, a: bool, b: bool, c: bool, d: bool, e: bool, f: bool)
    requires n + 8 <= |s| && s[n..n + 8] == BitsOf(v, 8)
    requires v == Below(Below(2 * Bit(x) + Bit(y), a, b, c), d, e, f)
    ensures EightAt(s, n, x, y, a, b, c, d, e, f)
  {
    EightLiteral(v, x, y, a, b, c, d, e, f);
    assert s[n..n + 8] == [s[n], s[n + 1], s[n + 2], s[n + 3], s[n + 4], s[n + 5], s[n + 6], s[n + 7]];
  }

  lemma EightLiteral(v: int, x: bool, y: bool, a: bool, b: bool, c: bool, d: bool, e: bool, f: bool)
    requires v == Below(Below(2 * Bit(x) + Bit(y), a, b, c), d, e, f)
    ensures BitsOf(v, 8) == [x, y, a, b, c, d, e, f]
  {
    FiveLiteral(x, y, a, b, c);
    ThreeMore([x, y, a, b, c], Below(2 * Bit(x) + Bit(y), a, b, c), d, e, f);
  }

  lemma FiveLiteral(x: bool, y: bool, a: bool, b: bool, c: bool)
    ensures Value([x, y, a, b, c]) == Below(2 * Bit(x) + Bit(y), a, b, c)
  {
    ValueLast([], x, [x]);
    ValueLast([x], y, [x, y]);
    ValueLastThree([x, y], a, b, c, [x, y, a, b, c]);
  }

  lemma ThreeMore(s: seq<bool>, high: int, d: bool, e: bool, f: bool)
    requires Value(s) == high
    ensures BitsOf(Below(high, d, e, f), |s| + 3) == s + [d, e, f]
  {
    ValueLastThree(s, d, e, f, s + [d, e, f]);
    BitsOfValue(s + [d, e, f]);
  }

  lemma Powers()
    ensures Pow2(6) == 64 && Pow2(8) == 256
  {
    assert Pow2(4) == 16;
  }

  /** The number that eight bits spell. */
  function ByteOf(s: seq<bool>): nat
    requires |s| == 8
  {
    Below(Below(2 * Bit(s[0]) + Bit(s[1]), s[2], s[3], s[4]), s[5], s[6], s[7])
  }

  lemma EightValue(five: seq<bool>, high: int, d: bool, e: bool, f: bool, s: seq<bool>)
    requires Value(five) == high && s == five + [d, e, f]
    ensures Value(s) == Below(high, d, e, f)
  {
    ValueLastThree(five, d, e, f, s);
  }

  lemma SplitEight(s: seq<bool>)
    requires |s| == 8
    ensures s == [s[0], s[1], s[2], s[3], s[4]] + [s[5], s[6], s[7]]
  {
  }

  lemma ValueOfEight(s: seq<bool>)
    requires |s| == 8
    ensures Value(s) == ByteOf(s)
  {
    var high := Below(2 * Bit(s[0]) + Bit(s[1]), s[2], s[3], s[4]);
    FiveLiteral(s[0], s[1], s[2], s[3], s[4]);
    SplitEight(s);
    EightValue([s[0], s[1], s[2], s[3], s[4]], high, s[5], s[6], s[7], s);
  }

  lemma ByteOfBits(v: int, w: nat, s: seq<bool>)
    requires 0 <= v < Pow2(w) && BitsOf(v, w) == s && |s| == 8
    ensures v == ByteOf(s)
  {
    ValueOfBits(v, w);
    ValueOfEight(s);
  }

  /** The five upper bits of a byte. */
  lemma TopFive(v: int, s: seq<bool>)
    requires |s| == 8 && v == ByteOf(s)
    ensures (s[0] <==> v >= 128) && (s[0] && s[1] <==> v >= 192) && (s[0] && s[1] && s[2] <==> v >= 224)
    ensures s[0] || s[1] || s[2] <==> v >= 32
    ensures (s[2] <==> v / 32 % 2 == 1) && (s[3] <==> v / 16 % 2 == 1) && (s[4] <==> v / 8 % 2 == 1)
    ensures s[0] && s[1] && s[2] && s[3] && s[4] ==> v >= 248
  {
    var low := 4 * Bit(s[5]) + 2 * Bit(s[6]) + Bit(s[7]);
    var high := Below(2 * Bit(s[0]) + Bit(s[1]), s[2], s[3], s[4]);
    assert v == 8 * high + low;
    assert v / 8 == high && v / 16 == high / 2 && v / 32 == high / 4;
  }

  lemma SameBits(a: int, b: int, w: nat)
    requires 0 <= a < Pow2(w) && 0 <= b < Pow2(w)
    requires BitsOf(a, w) == BitsOf(b, w)
    ensures a == b
  {
    ValueOfBits(a, w);
    ValueOfBits(b, w);
  }

  lemma {:induction false} TopBit(a: int, w: nat)
    requires w > 0 && 0 <= a < Pow2(w)
    ensures BitsOf(a, w)[0] <==> a >= Pow2(w - 1)
  {
    if w > 1 {
      TopBit(a / 2, w - 1);
    }
  }

  /** The digits of `x`, each of `w` bits, one after the other. */
  function Stream(x: seq<int>, w: nat): seq<bool> {
    if x == [] then [] else BitsOf(x[0], w) + Stream(x[1..], w)
  }

  /** Cuts a stream into digits of `w` bits; up to `w - 1` bits are left over. */
  function Digits(bits: seq<bool>, w: nat): seq<int>
    requires w > 0
  {
    if |bits| < w then [] else [Value(bits[..w])] + Digits(bits[w..], w)
  }

  function LeftOver(bits: seq<bool>, w: nat): seq<bool>
    requires w > 0
  {
    if |bits| < w then bits else LeftOver(bits[w..], w)
  }

  lemma {:induction false} DigitsOfStream(x: seq<int>, w: nat, tail: seq<bool>)
    requires w > 0 && |tail| < w
    requires forall i :: 0 <= i < |x| ==> 0 <= x[i] < Pow2(w)
    ensures Digits(Stream(x, w) + tail, w) == x
    ensures LeftOver(Stream(x, w) + tail, w) == tail
  {
    if x == [] {
      assert Stream(x, w) + tail == tail;
    } else {
      DigitsOfStream(x[1..], w, tail);
      ValueOfBits(x[0], w);
      FirstDigit(BitsOf(x[0], w), Stream(x[1..], w) + tail, w);
      Regroup(BitsOf(x[0], w), Stream(x[1..], w), tail);
    }
  }

  lemma FirstDigit(first: seq<bool>, rest: seq<bool>, w: nat)
    requires |first| == w > 0
    ensures Digits(first + rest, w) == [Value(first)] + Digits(rest, w)
    ensures LeftOver(first + rest, w) == LeftOver(rest, w)
  {
    assert (first + rest)[..w] == first && (first + rest)[w..] == rest;
  }

  lemma StreamCons(a: int, x: seq<int>, w: nat)
    ensures Stream([a] + x, w) == BitsOf(a, w) + Stream(x, w)
  {
    assert ([a] + x)[1..] == x;
  }

  lemma {:induction false} StreamOfDigits(bits: seq<bool>, w: nat)
    requires w > 0
    ensures Stream(Digits(bits, w), w) + LeftOver(bits, w) == bits
  {
    if |bits| >= w {
      StreamOfDigits(bits[w..], w);
      StreamOfFirst(bits, w, Digits(bits[w..], w), LeftOver(bits[w..], w));
    }
  }

  lemma StreamOfFirst(bits: seq<bool>, w: nat, x: seq<int>, rest: seq<bool>)
    requires |bits| >= w && Stream(x, w) + rest == bits[w..]
    ensures Stream([Value(bits[..w])] + x, w) + rest == bits
  {
    BitsOfValue(bits[..w]);
    StreamCons(Value(bits[..w]), x, w);
    Regroup(bits[..w], Stream(x, w), rest);
    assert bits == bits[..w] + bits[w..];
  }

  lemma Regroup(a: seq<bool>, b: seq<bool>, c: seq<bool>)
    ensures a + b + c == a + (b + c)
  {
  }

  lemma {:induction false} DigitAt(bits: seq<bool>, w: nat, i: nat)
    requires w > 0 && i < |Digits(bits, w)|
    ensures 0 <= w * i && w * i + w <= |bits|
    ensures Digits(bits, w)[i] == Value(bits[w * i..w * i + w])
  {
    if i > 0 {
      DigitAt(bits[w..], w, i - 1);
      assert w * i == w * (i - 1) + w;
      assert bits[w..][w * (i - 1)..w * (i - 1) + w] == bits[w * i..w * i + w];
    }
  }

  lemma DigitBits(bits: seq<bool>, w: nat, i: nat)
    requires w > 0 && i < |Digits(bits, w)|
    ensures 0 <= w * i && w * i + w <= |bits|
    ensures BitsOf(Digits(bits, w)[i], w) == bits[w * i..w * i + w]
  {
    DigitAt(bits, w, i);
    BitsOfValue(bits[w * i..w * i + w]);
  }

  lemma {:induction false} BitAt(x: seq<int>, w: nat, i: nat, j: nat)
    requires j < w && i < |x|
    ensures 0 <= w * i + j < |Stream(x, w)|
    ensures Stream(x, w)[w * i + j] == BitsOf(x[i], w)[j]
  {
    if i > 0 {
      var k := w * (i - 1) + j;
      BitAt(x[1..], w, i - 1, j);
      assert w * i + j == k + w;
      assert Stream(x, w)[k + w] == Stream(x[1..], w)[k];
    }
  }

  lemma SliceOf(s: seq<bool>, n: nat, v: seq<bool>)
    requires n + |v| <= |s|
    requires forall j: nat :: j < |v| ==> s[n + j] == v[j]
    ensures s[n..n + |v|] == v
  {
  }

  lemma StreamSlice(x: seq<int>, w: nat, i: nat, n: nat)
    requires w > 0 && i < |x| && n == w * i
    ensures n + w <= |Stream(x, w)|
    ensures Stream(x, w)[n..n + w] == BitsOf(x[i], w)
  {
    BitAt(x, w, i, w - 1);
    forall j: nat | j < w ensures Stream(x, w)[n + j] == BitsOf(x[i], w)[j] {
      BitAt(x, w, i, j);
    }
    SliceOf(Stream(x, w), n, BitsOf(x[i], w));
  }

  lemma {:induction false} StreamLast(x: seq<int>, w: nat)
    requires x != []
    ensures |Stream(x, w)| >= w && Stream(x, w)[|Stream(x, w)| - w..] == BitsOf(x[|x| - 1], w)
  {
    if |x| > 1 {
      StreamLast(x[1..], w);
    } else {
      assert Stream(x[1..], w) == [];
    }
  }

  lemma {:induction false} StreamLength(x: seq<int>, w: nat)
    ensures |Stream(x, w)| == w * |x|
  {
    if x != [] {
      StreamLength(x[1..], w);
      assert w * |x| == w * |x[1..]| + w;
    }
  }

  lemma {:induction false} DigitsRange(bits: seq<bool>, w: nat)
    requires w > 0
    ensures forall i :: 0 <= i < |Digits(bits, w)| ==> 0 <= Digits(bits, w)[i] < Pow2(w)
    ensures w * |Digits(bits, w)| + |LeftOver(bits, w)| == |bits| && |LeftOver(bits, w)| < w
  {
    if |bits| >= w {
      ValueBound(bits[..w]);
      DigitsRange(bits[w..], w);
      assert w * |Digits(bits, w)| == w * |Digits(bits[w..], w)| + w;
    }
  }

  lemma {:induction false} StreamConcat(x: seq<int>, y: seq<int>, w: nat)
    ensures Stream(x + y, w) == Stream(x, w) + Stream(y, w)
  {
    if x == [] {
      assert x + y == y;
    } else {
      StreamConcat(x[1..], y, w);
      assert (x + y)[1..] == x[1..] + y;
      Regroup(BitsOf(x[0], w), Stream(x[1..], w), Stream(y, w));
    }
  }

  /** The first bits are those of the second from `n` on. */
  predicate BitsFrom(s: seq<bool>, t: seq<bool>, n: nat) {
    n + |s| <= |t| && s == t[n..n + |s|]
  }

  lemma StreamMiddle(front: seq<int>, part: seq<int>, back: seq<int>, w: nat)
    ensures BitsFrom(Stream(part, w), Stream(front + (part + back), w), |Stream(front, w)|)
  {
    StreamConcat(front, part + back, w);
    StreamConcat(part, back, w);
    PartOf(Stream(front, w), Stream(part, w), Stream(back, w));
  }

  lemma ThreeParts(x: seq<int>, a: nat, part: seq<int>)
    requires a + |part| <= |x| && part == x[a..a + |part|]
    ensures x == x[..a] + (part + x[a + |part|..])
  {
  }

  /** Consecutive digits are consecutive bits. */
  lemma StreamPart(x: seq<int>, w: nat, a: nat, part: seq<int>, n: nat)
    requires a + |part| <= |x| && part == x[a..a + |part|] && n == w * a
    ensures BitsFrom(Stream(part, w), Stream(x, w), n) && |Stream(part, w)| == w * |part|
  {
    StreamLength(x[..a], w);
    StreamLength(part, w);
    ThreeParts(x, a, part);
    StreamMiddle(x[..a], part, x[a + |part|..], w);
  }

  lemma PartOf(x: seq<bool>, y: seq<bool>, z: seq<bool>)
    ensures (x + (y + z))[|x|..|x| + |y|] == y
  {
  }
}
