/**
 UTF-8 as Rust's `String::as_bytes` writes it and as `str::from_utf8` reads it:
 the reader refuses overlong forms, surrogates and values above U+10FFFF.
 */
module Utf8 {
  import opened Prelude

  function EncodeChar(c: char): (r: seq<Byte>)
    ensures 1 <= |r| <= 4
  {
    var n := c as int;
    if n < 0x80 then [n]
    else if n < 0x800 then [0xC0 + n / 64, 0x80 + n % 64]
    else if n < 0x10000 then [0xE0 + n / 64 / 64, 0x80 + n / 64 % 64, 0x80 + n % 64]
    else [0xF0 + n / 64 / 64 / 64, 0x80 + n / 64 / 64 % 64, 0x80 + n / 64 % 64, 0x80 + n % 64]
  }

  function Encode(s: string): seq<Byte> {
    if s == [] then [] else EncodeChar(s[0]) + Encode(s[1..])
  }

  predicate IsTail(b: Byte) {
    0x80 <= b < 0xC0
  }

  // The value of sextets, most significant first.
  function Value2(a: int, b: int): int { a * 64 + b }
  function Value3(a: int, b: int, c: int): int { Value2(a, b) * 64 + c }
  function Value4(a: int, b: int, c: int, d: int): int { Value3(a, b, c) * 64 + d }

  predicate IsScalar(n: int) {
    0 <= n < 0xD800 || 0xE000 <= n < 0x11_0000
  }

  /** The first character of `b` and how many bytes it takes. */
  function DecodeChar(b: seq<Byte>): (r: Option<(char, nat)>)
    ensures r.Some? ==> 1 <= r.value.1 <= |b|
  {
    if b == [] then None
    else if b[0] < 0x80 then Some((b[0] as char, 1))
    else if b[0] < 0xC0 then None
    else if b[0] < 0xE0 then
      if |b| < 2 || !IsTail(b[1]) then None
      else
        var n := Value2(b[0] - 0xC0, b[1] - 0x80);
        if n < 0x80 then None else Some((n as char, 2))
    else if b[0] < 0xF0 then
      if |b| < 3 || !IsTail(b[1]) || !IsTail(b[2]) then None
      else
        var n := Value3(b[0] - 0xE0, b[1] - 0x80, b[2] - 0x80);
        if n < 0x800 || !IsScalar(n) then None else Some((n as char, 3))
    else
      if |b| < 4 || !IsTail(b[1]) || !IsTail(b[2]) || !IsTail(b[3]) then None
      else
        var n := Value4(b[0] - 0xF0, b[1] - 0x80, b[2] - 0x80, b[3] - 0x80);
        if n < 0x10000 || !IsScalar(n) then None else Some((n as char, 4))
  }

  function Decode(b: seq<Byte>): Option<string>
    decreases |b|
  {
    if b == [] then Some([])
    else
      match DecodeChar(b)
      case None => None
      case Some((c, k)) =>
        match Decode(b[k..])
        case None => None
        case Some(rest) => Some([c] + rest)
  }

  lemma JoinSextet(n: nat)
    ensures Value2(n / 64, n % 64) == n
  {
  }

  lemma SplitSextet(hi: int, lo: int)
    requires 0 <= hi && 0 <= lo < 64
    ensures Value2(hi, lo) / 64 == hi && Value2(hi, lo) % 64 == lo
  {
  }

  lemma DecodeEncodedChar(c: char, rest: seq<Byte>)
    ensures DecodeChar(EncodeChar(c) + rest) == Some((c, |EncodeChar(c)|))
  {
    var n: nat := c as int;
    JoinSextet(n);
    JoinSextet(n / 64);
    JoinSextet(n / 64 / 64);
  }

  /** Reading back what was written gives the same text, for every Unicode string. */
  lemma {:induction false} DecodeEncode(s: string)
    ensures Decode(Encode(s)) == Some(s)
  {
    if s != [] {
      DecodeEncodedChar(s[0], Encode(s[1..]));
      assert Encode(s)[|EncodeChar(s[0])|..] == Encode(s[1..]);
      DecodeEncode(s[1..]);
      assert [s[0]] + s[1..] == s;
    }
  }

  lemma EncodeDecodedChar(b: seq<Byte>)
    requires DecodeChar(b).Some?
    ensures EncodeChar(DecodeChar(b).value.0) == b[..DecodeChar(b).value.1]
  {
    if b[0] < 0x80 {
    } else if b[0] < 0xE0 {
      SplitSextet(b[0] - 0xC0, b[1] - 0x80);
    } else if b[0] < 0xF0 {
      SplitSextet(Value2(b[0] - 0xE0, b[1] - 0x80), b[2] - 0x80);
      SplitSextet(b[0] - 0xE0, b[1] - 0x80);
    } else {
      SplitSextet(Value3(b[0] - 0xF0, b[1] - 0x80, b[2] - 0x80), b[3] - 0x80);
      SplitSextet(Value2(b[0] - 0xF0, b[1] - 0x80), b[2] - 0x80);
      SplitSextet(b[0] - 0xF0, b[1] - 0x80);
    }
  }

  lemma EncodeCons(c: char, s: string)
    ensures Encode([c] + s) == EncodeChar(c) + Encode(s)
  {
    assert ([c] + s)[1..] == s;
  }

  lemma EncodeStep(b: seq<Byte>, c: char, k: nat, rest: string)
    requires k <= |b| && EncodeChar(c) == b[..k] && Encode(rest) == b[k..]
    ensures Encode([c] + rest) == b
  {
    EncodeCons(c, rest);
    assert b[..k] + b[k..] == b;
  }

  lemma DecodeParts(b: seq<Byte>, c: char, k: nat)
    requires b != [] && DecodeChar(b) == Some((c, k)) && Decode(b).Some?
    ensures Decode(b[k..]).Some? && Decode(b).value == [c] + Decode(b[k..]).value
  {
  }

  /** The reader accepts nothing but what the writer produces. */
  lemma {:induction false} EncodeDecode(b: seq<Byte>)
    requires Decode(b).Some?
    ensures Encode(Decode(b).value) == b
    decreases |b|
  {
    if b != [] {
      assert DecodeChar(b).Some?;
      var (c, k) := DecodeChar(b).value;
      EncodeDecodedChar(b);
      DecodeParts(b, c, k);
      EncodeDecode(b[k..]);
      EncodeStep(b, c, k, Decode(b[k..]).value);
    }
  }

  lemma {:induction false} EncodeConcat(s: string, t: string)
    ensures Encode(s + t) == Encode(s) + Encode(t)
  {
    if s == [] {
      assert s + t == t;
    } else {
      assert (s + t)[1..] == s[1..] + t;
      EncodeConcat(s[1..], t);
    }
  }

  // ----- What bytes may stand next to each other -----

  lemma CharShape(b: seq<Byte>, c: char, k: nat)
    requires DecodeChar(b) == Some((c, k))
    ensures 1 <= k <= 4 && k <= |b| && !IsTail(b[0])
    ensures forall j :: 1 <= j < k ==> IsTail(b[j])
    ensures (b[0] >= 0xC0 ==> k > 1) && (0xC0 <= b[0] < 0xE0 ==> k == 2)
  {
  }

  /** In a text whose bytes are `b`, what follows a character is a text again. */
  lemma DecodeSplit(b: seq<Byte>) returns (c: char, k: nat)
    requires b != [] && Decode(b).Some?
    ensures DecodeChar(b) == Some((c, k)) && 0 < k <= |b| && Decode(b[k..]).Some?
  {
    assert DecodeChar(b).Some?;
    c, k := DecodeChar(b).value.0, DecodeChar(b).value.1;
    DecodeParts(b, c, k);
  }

  lemma StartNotTail(b: seq<Byte>)
    requires b != [] && Decode(b).Some?
    ensures !IsTail(b[0])
  {
    var c, k := DecodeSplit(b);
    CharShape(b, c, k);
  }

  /** A lead byte is followed by a continuation byte. */
  lemma {:induction false} LeadHasTail(b: seq<Byte>, q: nat)
    requires Decode(b).Some? && q < |b| && b[q] >= 0xC0
    ensures q + 1 < |b| && IsTail(b[q + 1])
    decreases |b|
  {
    var c, k := DecodeSplit(b);
    CharShape(b, c, k);
    if q >= k {
      LeadHasTail(b[k..], q - k);
    }
  }

  /** Not more than three continuation bytes stand in a row. */
  lemma {:induction false} NoFourTails(b: seq<Byte>, q: nat)
    requires Decode(b).Some? && q + 4 <= |b|
    ensures !(IsTail(b[q]) && IsTail(b[q + 1]) && IsTail(b[q + 2]) && IsTail(b[q + 3]))
    decreases |b|
  {
    var c, k := DecodeSplit(b);
    CharShape(b, c, k);
    if q >= k {
      NoFourTails(b[k..], q - k);
    } else if q > 0 {
      StartNotTail(b[k..]);
    }
  }

  /** A lead byte for two is not followed by two continuation bytes. */
  lemma {:induction false} NoLongPair(b: seq<Byte>, q: nat)
    requires Decode(b).Some? && q + 3 <= |b| && 0xC0 <= b[q] < 0xE0
    ensures !(IsTail(b[q + 1]) && IsTail(b[q + 2]))
    decreases |b|
  {
    var c, k := DecodeSplit(b);
    CharShape(b, c, k);
    if q >= k {
      NoLongPair(b[k..], q - k);
    } else {
      StartNotTail(b[k..]);
    }
  }

  /** A suffix of the bytes of a text that is a text is the rest of it from some character on. */
  lemma {:induction false} SuffixOfText(s: string, q: nat) returns (i: nat)
    requires q <= |Encode(s)| && Decode(Encode(s)[q..]).Some?
    ensures i <= |s| && Encode(s)[q..] == Encode(s[i..])
    ensures q == 0 ==> i == 0
    ensures q > 0 ==> i > 0 && (Encode(s)[q - 1] >= 0x80 ==> s[i - 1] >= 128 as char)
  {
    if q == 0 {
      return 0;
    }
    var k := |EncodeChar(s[0])|;
    if q < k {
      assert Encode(s)[q..][0] == EncodeChar(s[0])[q];
      StartNotTail(Encode(s)[q..]);
      CharTails(s[0], q);
      assert false;
    }
    assert Encode(s)[q..] == Encode(s[1..])[q - k..];
    i := SuffixOfText(s[1..], q - k);
    i := i + 1;
    assert s[1..][i - 1..] == s[i..];
    if q == k {
      assert Encode(s)[q - 1] == EncodeChar(s[0])[q - 1];
    } else {
      assert Encode(s)[q - 1] == Encode(s[1..])[q - k - 1];
      assert s[1..][i - 2] == s[i - 1];
    }
  }

  lemma CharTails(c: char, q: nat)
    requires 0 < q < |EncodeChar(c)|
    ensures IsTail(EncodeChar(c)[q])
  {
  }

  lemma BytesInRange(s: string, low: Byte)
    requires low <= 0x80 && forall i :: 0 <= i < |s| ==> s[i] as int >= low
    ensures forall q :: 0 <= q < |Encode(s)| ==> low <= Encode(s)[q] < 0xF8
  {
    if s != [] {
      BytesInRange(s[1..], low);
    }
  }

  ghost predicate Ascii(s: string) {
    forall i :: 0 <= i < |s| ==> s[i] < 128 as char
  }

  /** On ASCII text the encoding is one byte per character. */
  lemma {:induction false} EncodeAscii(s: string)
    requires Ascii(s)
    ensures |Encode(s)| == |s|
    ensures forall i :: 0 <= i < |s| ==> Encode(s)[i] == s[i] as int
  {
    if s != [] {
      EncodeAscii(s[1..]);
      forall i | 0 <= i < |s| ensures Encode(s)[i] == s[i] as int {
        if i > 0 {
          assert Encode(s)[i] == Encode(s[1..])[i - 1];
        }
      }
    }
  }
}
