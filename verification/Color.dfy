/** The colour that stands for a name, computed by the service and, separately, by the interface. */
module Color {
  import opened Prelude
  import opened Utf8

  const TWO15: nat := 0x8000
  const TWO24: nat := 0x100_0000
  const TWO32: nat := 0x1_0000_0000
  const TWO64: nat := 0x1_0000_0000_0000_0000

  /** The codes as digits in base 31, the last the least significant. */
  function Poly(codes: seq<nat>): nat {
    if codes == [] then 0 else Poly(codes[..|codes| - 1]) * 31 + codes[|codes| - 1]
  }

  function Pow31(n: nat): nat {
    if n == 0 then 1 else Pow31(n - 1) * 31
  }

  lemma Distribute(a: nat, p: nat, b: nat, c: nat)
    ensures (a * p + b) * 31 + c == a * (p * 31) + (b * 31 + c)
  {
  }

  lemma {:induction false} PolyConcat(a: seq<nat>, b: seq<nat>)
    ensures Poly(a + b) == Poly(a) * Pow31(|b|) + Poly(b)
  {
    if b == [] {
      assert a + b == a;
    } else {
      var front := b[..|b| - 1];
      assert (a + b)[..|a + b| - 1] == a + front;
      PolyConcat(a, front);
      Distribute(Poly(a), Pow31(|front|), Poly(front), b[|b| - 1]);
    }
  }

  /** One turn of the loop on integers that wrap at `m`: shift left by five, subtract, add. */
  function Turn(hash: nat, code: nat, m: nat): (r: nat)
    requires m > 0
    ensures r < m
  {
    (code + (hash * 32 % m - hash) % m) % m
  }

  lemma AtLeast(m: int, d: int)
    requires m > 0 && d >= 1
    ensures m * d >= m && m * -d <= -m
  {
  }

  lemma OnlyZero(m: int, d: int)
    requires m > 0 && -m < m * d < m
    ensures d == 0
  {
    if d >= 1 {
      AtLeast(m, d);
    } else if d <= -1 {
      AtLeast(m, -d);
    }
  }

  lemma ModUnique(q: int, r: int, x: int, y: int, m: nat)
    requires m * q + r == m * x + y && 0 <= r < m && 0 <= y < m
    ensures r == y
  {
    assert m * (q - x) == m * q - m * x;
    OnlyZero(m, q - x);
  }

  lemma ModShift(a: int, q: int, m: nat)
    requires m > 0
    ensures (a + m * q) % m == a % m
  {
    var b := a + m * q;
    assert m * (a / m + q) == m * (a / m) + m * q;
    ModUnique(a / m + q, a % m, b / m, b % m, m);
  }

  lemma ModMove(a: int, b: int, m: nat)
    requires m > 0
    ensures (a + b % m) % m == (a + b) % m
  {
    var q := b / m;
    assert m * -q == -(m * q);
    ModShift(a + b, -q, m);
  }

  /** However the integers wrap, a turn multiplies by 31 and adds. */
  lemma TurnMeaning(hash: nat, code: nat, m: nat)
    requires m > 0
    ensures Turn(hash, code, m) == (hash * 31 + code) % m
  {
    var less: int := 0 - hash;
    ModMove(less, hash * 32, m);
    ModMove(code, hash * 32 - hash, m);
    assert code + (hash * 32 - hash) == hash * 31 + code;
  }

  lemma ModOfMod(a: int, k: nat, m: nat)
    requires m > 0 && k > 0
    ensures k * m > 0 && a % (k * m) % m == a % m
  {
    assert k * m >= m;
    var q := a / (k * m);
    assert a % (k * m) == a - k * m * q;
    assert k * m * q == m * (k * q);
    ModShift(a, -(k * q), m);
    assert a - m * (k * q) == a + m * -(k * q);
  }

  lemma TurnAgrees(hash: nat, sum: nat, code: nat, m: nat)
    requires m > 0 && hash == sum % m
    ensures Turn(hash, code, m) == (sum * 31 + code) % m
  {
    TurnMeaning(hash, code, m);
    var q := sum / m;
    ModShift(hash * 31 + code, q * 31, m);
    assert sum == hash + m * q;
    assert sum * 31 + code == hash * 31 + code + m * (q * 31);
  }

  /** The loop, on integers that wrap at `m`. */
  method HashCodes(codes: seq<nat>, m: nat) returns (hash: nat)
    requires m > 0
    ensures hash == Poly(codes) % m
  {
    hash := 0;
    var i := 0;
    while i < |codes|
      invariant 0 <= i <= |codes|
      invariant hash == Poly(codes[..i]) % m
    {
      TurnAgrees(hash, Poly(codes[..i]), codes[i], m);
      assert codes[..i + 1][..i] == codes[..i];
      hash := Turn(hash, codes[i], m);
      i := i + 1;
    }
    assert codes[..i] == codes;
  }

  /** Clears bit 15. */
  function ClearBit15(n: nat): (r: nat)
    ensures r / TWO15 % 2 == 0 && r % TWO15 == n % TWO15
    ensures r / TWO15 / 2 == n / TWO15 / 2
  {
    if n / TWO15 % 2 == 1 then n - TWO15 else n
  }

  /** The colour of a name given by its codes: 24 bits of the polynomial without bit 15, below the opacity. */
  function ColorOf(codes: seq<nat>, alpha: Byte): (r: nat)
    ensures r < TWO32 && r / TWO24 == alpha
  {
    alpha * TWO24 + ClearBit15(Poly(codes) % TWO24)
  }

  lemma ColorHasNoBit15(codes: seq<nat>, alpha: Byte)
    ensures ColorOf(codes, alpha) / TWO15 % 2 == 0
  {
    var rgb := ClearBit15(Poly(codes) % TWO24);
    assert ColorOf(codes, alpha) == alpha * 2 * 0x100 * TWO15 + rgb;
    assert ColorOf(codes, alpha) / TWO15 == alpha * 2 * 0x100 + rgb / TWO15;
  }

  /** The service's colour: bytes, and 32-bit integers. */
  method Str2Color(s: string, alpha: Byte) returns (color: nat)
    ensures color == ColorOf(Encode(s), alpha)
  {
    var hash := HashCodes(Encode(s), TWO32);
    ModOfMod(Poly(Encode(s)), 0x100, TWO24);
    hash := hash % TWO24;
    var rgb := ClearBit15(hash);
    return alpha * TWO24 + rgb;
  }

  // ----- The interface's colour -----

  /** The UTF-16 code units of a text. */
  function CodeUnits(s: string): seq<nat> {
    if s == [] then []
    else
      var n := s[0] as int;
      (if n < 0x10000 then [n] else [0xD800 + (n - 0x10000) / 0x400, 0xDC00 + (n - 0x10000) % 0x400]) +
      CodeUnits(s[1..])
  }

  /** One unit is the character, two are a pair of surrogates for it. */
  lemma UnitsOfChar(c: char)
    ensures var u, n := CodeUnits([c]), c as int;
      && (n < 0x10000 ==> u == [n])
      && (n >= 0x10000 ==> |u| == 2 && 0xD800 <= u[0] < 0xDC00 <= u[1] < 0xE000 &&
                           (u[0] - 0xD800) * 0x400 + (u[1] - 0xDC00) + 0x10000 == n)
  {
  }

  /** The interface hashes code units on 64-bit integers. */
  method Str2ColorInDart(s: string, alpha: Byte) returns (color: nat)
    ensures color == ColorOf(CodeUnits(s), alpha)
  {
    var hash := HashCodes(CodeUnits(s), TWO64);
    ModOfMod(Poly(CodeUnits(s)), 0x100_0000_0000, TWO24);
    hash := hash % TWO24;
    return ClearBit15(hash) + alpha * TWO24;
  }

  lemma {:induction false} AsciiUnits(s: string)
    requires Ascii(s)
    ensures Encode(s) == CodeUnits(s)
  {
    if s != [] {
      AsciiUnits(s[1..]);
    }
  }

  /** On ASCII text both compute the same colour. */
  lemma SameColor(s: string, alpha: Byte)
    requires Ascii(s)
    ensures ColorOf(Encode(s), alpha) == ColorOf(CodeUnits(s), alpha)
  {
    AsciiUnits(s);
  }

  lemma PolyShort(a: nat, b: nat, c: nat, d: nat)
    ensures Poly([a]) == a && Poly([a, b]) == a * 31 + b
    ensures Poly([a, b, c]) == a * 961 + b * 31 + c
    ensures Poly([a, b, c, d]) == a * 29791 + b * 961 + c * 31 + d
  {
    assert [a][..0] == [] && [a, b][..1] == [a] && [a, b, c][..2] == [a, b] && [a, b, c, d][..3] == [a, b, c];
  }

  lemma KeptLow(n: nat)
    requires n < TWO15
    ensures ClearBit15(n % TWO24) == n
  {
  }

  lemma FarApart(x: nat, y: nat)
    requires y + TWO15 < x < TWO24
    ensures ClearBit15(x % TWO24) > ClearBit15(y % TWO24)
  {
  }

  lemma TwoBytes(c: char)
    requires 0x80 <= c as int < 0x800
    ensures Poly(Encode([c])) < TWO15 && Poly(CodeUnits([c])) < TWO15
    ensures Poly(Encode([c])) != Poly(CodeUnits([c]))
  {
    var n := c as int;
    PolyShort(0xC0 + n / 64, 0x80 + n % 64, 0, 0);
    PolyShort(n, 0, 0, 0);
    assert Encode([c]) == [0xC0 + n / 64, 0x80 + n % 64];
    assert CodeUnits([c]) == [n];
    assert n == 64 * (n / 64) + n % 64;
  }

  lemma ThreeBytes(c: char)
    requires 0x800 <= c as int < 0x10000
    ensures Poly(CodeUnits([c])) + TWO15 < Poly(Encode([c])) < TWO24
  {
    var n := c as int;
    PolyShort(0xE0 + n / 64 / 64, 0x80 + n / 64 % 64, 0x80 + n % 64, 0);
    PolyShort(n, 0, 0, 0);
    assert Encode([c]) == [0xE0 + n / 64 / 64, 0x80 + n / 64 % 64, 0x80 + n % 64];
    assert CodeUnits([c]) == [n];
  }

  lemma FourDigits(a: nat, b: nat, c: nat, d: nat)
    requires 0xF0 <= a <= 0xF4 && 0x80 <= b < 0xC0 && 0x80 <= c < 0xC0 && 0x80 <= d < 0xC0
    ensures 7_276_944 <= Poly([a, b, c, d]) < TWO24
  {
    PolyShort(a, b, c, d);
  }

  lemma TwoUnits(a: nat, b: nat)
    requires a < 0xDC00 && b < 0xE000
    ensures Poly([a, b]) < 7_000_000
  {
    PolyShort(a, b, 0, 0);
  }

  lemma FourBytes(c: char)
    requires 0x10000 <= c as int
    ensures Poly(CodeUnits([c])) + TWO15 < Poly(Encode([c])) < TWO24
  {
    var n := c as int;
    FourDigits(0xF0 + n / 64 / 64 / 64, 0x80 + n / 64 / 64 % 64, 0x80 + n / 64 % 64, 0x80 + n % 64);
    TwoUnits(0xD800 + (n - 0x10000) / 0x400, 0xDC00 + (n - 0x10000) % 0x400);
    assert Encode([c]) == EncodeChar(c);
    assert CodeUnits([c]) == [0xD800 + (n - 0x10000) / 0x400, 0xDC00 + (n - 0x10000) % 0x400];
  }

  /** On any other single character they differ, although both are meant to be the same. */
  lemma OtherColor(c: char, alpha: Byte)
    ensures ColorOf(Encode([c]), alpha) == ColorOf(CodeUnits([c]), alpha) <==> c < 128 as char
  {
    var n := c as int;
    if n < 0x80 {
      AsciiUnits([c]);
    } else if n < 0x800 {
      TwoBytes(c);
      KeptLow(Poly(Encode([c])));
      KeptLow(Poly(CodeUnits([c])));
    } else {
      if n < 0x10000 {
        ThreeBytes(c);
      } else {
        FourBytes(c);
      }
      FarApart(Poly(Encode([c])), Poly(CodeUnits([c])));
    }
  }
}
