/**
 The URL-safe alphabet of section 5 of RFC 4648 without padding.  The reader is
 strict: a foreign character, a length of 1 modulo 4, or non-zero bits after the
 last byte make it fail.
 */
module Base64Url {
  import opened Prelude
  import opened Bits

  type Sextet = x: int | 0 <= x < 64

  function Letter(i: Sextet): char {
    if i < 26 then (65 + i) as char
    else if i < 52 then (97 + i - 26) as char
    else if i < 62 then (48 + i - 52) as char
    else if i == 62 then '-'
    else '_'
  }

  function Index(c: char): Option<Sextet> {
    var n := c as int;
    if 65 <= n < 91 then Some(n - 65)
    else if 97 <= n < 123 then Some(n - 97 + 26)
    else if 48 <= n < 58 then Some(n - 48 + 52)
    else if c == '-' then Some(62)
    else if c == '_' then Some(63)
    else None
  }

  /** The order of table 2 of RFC 4648: A to Z, a to z, 0 to 9, then the minus sign and the underline. */
  lemma AlphabetInOrder(i: Sextet)
    ensures Letter(0) == 'A' && Letter(25) == 'Z' && Letter(26) == 'a' && Letter(51) == 'z'
    ensures Letter(52) == '0' && Letter(61) == '9' && Letter(62) == '-' && Letter(63) == '_'
    ensures i < 61 && i !in {25, 51} ==> Letter(i + 1) as int == Letter(i) as int + 1
  {
  }

  lemma IndexOfLetter(i: Sextet)
    ensures Index(Letter(i)) == Some(i)
    ensures Letter(i) == '-' <==> i == 62
  {
  }

  lemma LetterOfIndex(c: char)
    requires Index(c).Some?
    ensures Letter(Index(c).value) == c
  {
  }

  predicate Spelled(s: string) {
    forall i :: 0 <= i < |s| ==> Index(s[i]).Some?
  }

  function Spell(x: seq<Sextet>): string {
    seq(|x|, i requires 0 <= i < |x| => Letter(x[i]))
  }

  function Unspell(s: string): seq<Sextet>
    requires Spelled(s)
  {
    seq(|s|, i requires 0 <= i < |s| => Index(s[i]).value)
  }

  lemma UnspellSpell(x: seq<Sextet>)
    ensures Spelled(Spell(x)) && Unspell(Spell(x)) == x
  {
    forall i | 0 <= i < |x| ensures Index(Spell(x)[i]) == Some(x[i]) {
      IndexOfLetter(x[i]);
    }
  }

  lemma SpellUnspell(s: string)
    requires Spelled(s)
    ensures Spell(Unspell(s)) == s
  {
    forall i | 0 <= i < |s| ensures Letter(Index(s[i]).value) == s[i] {
      LetterOfIndex(s[i]);
    }
  }

  /** The zero bits that fill the last sextet of `n` bytes. */
  function Filler(n: nat): (r: seq<bool>)
    ensures |r| < 6 && 8 * n + |r| == 6 * (n + (n + 2) / 3)
    ensures Zero(r)
  {
    if n % 3 == 0 then [] else if n % 3 == 1 then [false, false, false, false] else [false, false]
  }

  lemma FillerIsUnique(n: nat, m: nat, k: nat)
    requires 6 * m == 8 * n + k && k < 6
    ensures k == |Filler(n)|
  {
    var a := n / 3;
    assert 6 * (m - 4 * a) == 8 * (n - 3 * a) + k;
  }

  predicate Zero(bits: seq<bool>) {
    forall i :: 0 <= i < |bits| ==> !bits[i]
  }

  /** The bits of a byte string, filled up to whole sextets. */
  function Padded(b: seq<Byte>): seq<bool> {
    Stream(b, 8) + Filler(|b|)
  }

  function ToSextets(b: seq<Byte>): seq<Sextet> {
    Powers();
    DigitsRange(Padded(b), 6);
    Digits(Padded(b), 6)
  }

  function Encode(b: seq<Byte>): string {
    Spell(ToSextets(b))
  }

  function ToBytes(bits: seq<bool>): seq<Byte> {
    Powers();
    DigitsRange(bits, 8);
    Digits(bits, 8)
  }

  function Decode(s: string): Option<seq<Byte>> {
    if !Spelled(s) then None
    else
      var bits := Stream(Unspell(s), 6);
      var rest := LeftOver(bits, 8);
      if |rest| >= 6 || !Zero(rest) then None else Some(ToBytes(bits))
  }

  lemma PaddedLength(b: seq<Byte>)
    ensures |Padded(b)| == 8 * |b| + |Filler(|b|)|
    ensures LeftOver(Padded(b), 6) == []
    ensures |Encode(b)| * 6 == |Padded(b)|
  {
    StreamLength(b, 8);
    DigitsRange(Padded(b), 6);
    NoneOver(|Digits(Padded(b), 6)|, |b| + (|b| + 2) / 3, |LeftOver(Padded(b), 6)|);
  }

  lemma NoneOver(n: nat, m: nat, k: nat)
    requires 6 * n + k == 6 * m && k < 6
    ensures k == 0 && n == m
  {
    assert 6 * (m - n) == k;
  }

  /** The reader undoes the writer on every byte string. */
  lemma DecodeEncode(b: seq<Byte>)
    ensures Decode(Encode(b)) == Some(b)
  {
    var x := ToSextets(b);
    UnspellSpell(x);
    PaddedLength(b);
    StreamOfDigits(Padded(b), 6);
    assert Stream(x, 6) == Padded(b);
    Powers();
    DigitsOfStream(b, 8, Filler(|b|));
  }

  /** The reader accepts only what the writer produces, so no two texts share a meaning. */
  lemma EncodeDecode(s: string)
    requires Decode(s).Some?
    ensures Encode(Decode(s).value) == s
  {
    var x := Unspell(s);
    var bits := Stream(x, 6);
    var b, rest := ToBytes(bits), LeftOver(bits, 8);
    StreamLength(x, 6);
    DigitsRange(bits, 8);
    StreamOfDigits(bits, 8);
    FillerIsUnique(|b|, |x|, |rest|);
    assert rest == Filler(|b|);
    Powers();
    DigitsOfStream(x, 6, []);
    assert bits + [] == bits;
    SpellUnspell(s);
  }

  /** Any foreign character makes the reader fail. */
  lemma ForeignCharFails(s: string, i: nat)
    requires i < |s| && Index(s[i]).None?
    ensures Decode(s).None?
  {
  }

  /** No encoding has a length of 1 modulo 4, so such a text is refused whatever it says. */
  lemma OneLeftOverFails(s: string)
    requires |s| % 4 == 1
    ensures Decode(s).None?
  {
    if Spelled(s) {
      var bits := Stream(Unspell(s), 6);
      StreamLength(Unspell(s), 6);
      DigitsRange(bits, 8);
      SixBitsOver(|s|, |Digits(bits, 8)|, |LeftOver(bits, 8)|);
    }
  }

  lemma SixBitsOver(m: nat, n: nat, k: nat)
    requires m % 4 == 1 && 6 * m == 8 * n + k && k < 8
    ensures k == 6
  {
    var a := m / 4;
    assert 8 * (n - 3 * a) + k == 6;
  }

  lemma AlphabetOnly(b: seq<Byte>)
    ensures Spelled(Encode(b))
  {
    UnspellSpell(ToSextets(b));
  }

  lemma BitsOfSixtyTwo()
    ensures BitsOf(62, 6) == [true, true, true, true, true, false]
  {
    SixLiteral(62, true, true, true, true, true, false);
  }

  lemma PaddedByte(b: seq<Byte>, q: nat, n: nat)
    requires q < |b| && n == 8 * q
    ensures n + 8 <= |Padded(b)| && Padded(b)[n..n + 8] == BitsOf(b[q], 8)
  {
    StreamSlice(b, 8, q, n);
  }

  lemma SetStartBit(b: seq<Byte>, q: nat)
    requires 8 * q < |Padded(b)| && Padded(b)[8 * q]
    ensures q < |b| && b[q] >= 128
  {
    StreamLength(b, 8);
    if q < |b| {
      var n := 8 * q;
      PaddedByte(b, q, n);
      assert Padded(b)[n..n + 8][0] == Padded(b)[n];
      Powers();
      TopBit(b[q], 8);
    }
  }

  /** Where the encoding has '-', the bits 6i .. 6i+4 of the data are ones: a byte that starts there is not 7-bit. */
  lemma DashAt(b: seq<Byte>, i: nat, q: nat)
    requires i < |Encode(b)| && Encode(b)[i] == '-'
    requires 6 * i <= 8 * q < 6 * i + 5
    ensures q < |b| && b[q] >= 128
  {
    DashBits(b, i, 8 * q - 6 * i);
    SetStartBit(b, q);
  }

  lemma DashBits(b: seq<Byte>, i: nat, j: nat)
    requires i < |Encode(b)| && Encode(b)[i] == '-' && j < 5
    ensures 6 * i + j < |Padded(b)| && Padded(b)[6 * i + j]
  {
    IndexOfLetter(ToSextets(b)[i]);
    DigitBits(Padded(b), 6, i);
    BitsOfSixtyTwo();
    OnesFromBits(Padded(b), i, j);
  }

  lemma OnesFromBits(bits: seq<bool>, i: nat, j: nat)
    requires j < 5 && 6 * i + 6 <= |bits|
    requires bits[6 * i..6 * i + 6] == [true, true, true, true, true, false]
    ensures bits[6 * i + j]
  {
    assert bits[6 * i + j] == bits[6 * i..6 * i + 6][j];
  }

  ghost predicate SevenBit(b: seq<Byte>) {
    forall i :: 0 <= i < |b| ==> b[i] < 128
  }

  /** In the encoding of 7-bit data, '-' stands only at indices 3, 7, 11, ... */
  lemma DashOnlyAtThreeModFour(b: seq<Byte>, i: nat)
    requires SevenBit(b)
    requires i < |Encode(b)| && Encode(b)[i] == '-'
    ensures i % 4 == 3
  {
    if i % 4 != 3 {
      DashAt(b, i, i / 4 * 3 + i % 4);
    }
  }

  /** The encoding of data that starts with a 7-bit byte does not start with '-'. */
  lemma FirstLetterNoDash(b: seq<Byte>)
    requires b != [] && b[0] < 128
    ensures Encode(b) != [] && Encode(b)[0] != '-'
  {
    PaddedLength(b);
    if Encode(b)[0] == '-' {
      DashAt(b, 0, 0);
    }
  }

  /** The last sextet of data that ends in '}' (0111 1101), by the number of bytes modulo 3. */
  function BraceTail(n: nat): seq<bool> {
    if n % 3 == 0 then [true, true, true, true, false, true]
    else if n % 3 == 1 then [false, true, false, false, false, false]
    else [true, true, false, true, false, false]
  }

  function BraceSextet(n: nat): Sextet {
    if n % 3 == 0 then 61 else if n % 3 == 1 then 16 else 52
  }

  lemma BraceSextetBits(n: nat)
    ensures BitsOf(BraceSextet(n), 6) == BraceTail(n)
  {
    SixLiteral(61, true, true, true, true, false, true);
    SixLiteral(16, false, true, false, false, false, false);
    SixLiteral(52, true, true, false, true, false, false);
  }

  lemma BitsOfBrace()
    ensures BitsOf(125, 8) == [false, true, true, true, true, true, false, true]
  {
    EightLiteral(125, false, true, true, true, true, true, false, true);
  }

  lemma LastSixBits(bits: seq<bool>, n: nat)
    requires |bits| >= 8 && bits[|bits| - 8..] == [false, true, true, true, true, true, false, true]
    ensures (bits + Filler(n))[|bits| + |Filler(n)| - 6..] == BraceTail(n)
  {
    var last := bits[|bits| - 8..];
    assert forall k :: 0 <= k < 8 ==> bits[|bits| - 8 + k] == last[k];
  }

  lemma BraceLast(b: seq<Byte>)
    requires b != [] && b[|b| - 1] == '}' as int
    ensures |Padded(b)| >= 6 && Padded(b)[|Padded(b)| - 6..] == BraceTail(|b|)
  {
    StreamLast(b, 8);
    BitsOfBrace();
    LastSixBits(Stream(b, 8), |b|);
  }

  lemma LastSextetAfterBrace(b: seq<Byte>, last: nat)
    requires b != [] && b[|b| - 1] == '}' as int
    requires last == |Encode(b)| - 1
    ensures ToSextets(b)[last] == BraceSextet(|b|)
  {
    BraceLast(b);
    LastDigit(b, last);
    BraceSextetBits(|b|);
    Powers();
    SameBits(ToSextets(b)[last], BraceSextet(|b|), 6);
  }

  /** The encoding of data that ends in '}' ends in one of three characters, none of them '-'. */
  lemma LastLetterAfterBrace(b: seq<Byte>)
    requires b != [] && b[|b| - 1] == '}' as int
    ensures Encode(b) != [] && Encode(b)[|Encode(b)| - 1] in {'9', 'Q', '0'}
  {
    PaddedLength(b);
    LastSextetAfterBrace(b, |Encode(b)| - 1);
  }

  lemma LastDigit(b: seq<Byte>, last: nat)
    requires last == |Encode(b)| - 1
    ensures |Padded(b)| >= 6 && BitsOf(ToSextets(b)[last], 6) == Padded(b)[|Padded(b)| - 6..]
  {
    PaddedLength(b);
    DigitBits(Padded(b), 6, last);
    assert 6 * last + 6 == |Padded(b)|;
  }

  /** Six bits of the data on a sextet boundary are spelled with the letter of their value. */
  lemma LetterFromBits(b: seq<Byte>, i: nat, n: nat, v: Sextet)
    requires n == 6 * i && n + 6 <= |Padded(b)| && Padded(b)[n..n + 6] == BitsOf(v, 6)
    ensures i < |Encode(b)| && Encode(b)[i] == Letter(v)
  {
    PaddedLength(b);
    DigitBits(Padded(b), 6, i);
    Powers();
    SameBits(ToSextets(b)[i], v, 6);
  }

  /** And the other way round. */
  lemma BitsFromLetter(b: seq<Byte>, i: nat, n: nat, v: Sextet)
    requires i < |Encode(b)| && Encode(b)[i] == Letter(v) && n == 6 * i
    ensures n + 6 <= |Padded(b)| && Padded(b)[n..n + 6] == BitsOf(v, 6)
  {
    IndexOfLetter(ToSextets(b)[i]);
    IndexOfLetter(v);
    DigitBits(Padded(b), 6, i);
  }

  /** The bytes of a '3' and a full-width exclamation mark, where the fourth group of three starts. */
  ghost predicate HoldsMarked(b: seq<Byte>) {
    |b| > 13 && b[9] == 0x33 && b[10] == 0xEF && b[11] == 0xBC && b[12] == 0x81
  }

  lemma MarkedBits(p: seq<bool>, x: int, y: int, z: int, t: int)
    requires x == 0x33 && y == 0xEF && z == 0xBC && t == 0x81 && |p| >= 104
    requires p[72..80] == BitsOf(x, 8) && p[80..88] == BitsOf(y, 8)
    requires p[88..96] == BitsOf(z, 8) && p[96..104] == BitsOf(t, 8)
    ensures p[78..84] == BitsOf(62, 6) && p[84..90] == BitsOf(62, 6)
    ensures p[90..96] == BitsOf(60, 6) && p[96..102] == BitsOf(32, 6)
  {
    EightBits(p, 72, x, false, false, true, true, false, false, true, true);
    EightBits(p, 80, y, true, true, true, false, true, true, true, true);
    EightBits(p, 88, z, true, false, true, true, true, true, false, false);
    EightBits(p, 96, t, true, false, false, false, false, false, false, true);
    SixBits(p, 78, 62, true, true, true, true, true, false);
    SixBits(p, 84, 62, true, true, true, true, true, false);
    SixBits(p, 90, 60, true, true, true, true, false, false);
    SixBits(p, 96, 32, true, false, false, false, false, false);
  }

  /** With these bytes there, two dashes stand in a row, then "8g". */
  lemma TwoDashes(b: seq<Byte>)
    requires HoldsMarked(b)
    ensures |Encode(b)| > 16 && Encode(b)[13] == '-' && Encode(b)[14] == '-'
    ensures Encode(b)[15] == '8' && Encode(b)[16] == 'g'
  {
    PaddedByte(b, 9, 72);
    PaddedByte(b, 10, 80);
    PaddedByte(b, 11, 88);
    PaddedByte(b, 12, 96);
    MarkedBits(Padded(b), b[9], b[10], b[11], b[12]);
    LetterFromBits(b, 13, 78, 62);
    LetterFromBits(b, 14, 84, 62);
    LetterFromBits(b, 15, 90, 60);
    LetterFromBits(b, 16, 96, 32);
  }

  /** Bytes spelled from "8g" on start with a lead byte of UTF-8 that no continuation byte follows. */
  lemma LeadWithoutTail(b: seq<Byte>)
    requires |Encode(b)| >= 2 && Encode(b)[0] == '8' && Encode(b)[1] == 'g'
    ensures b != [] && b[0] >= 0x80 && (|b| > 1 ==> b[1] < 0x80)
  {
    var p := Padded(b);
    BitsFromLetter(b, 0, 0, 60);
    BitsFromLetter(b, 1, 6, 32);
    LeadBits(p);
    SetStartBit(b, 0);
    if |b| > 1 {
      ClearStartBit(b, 1);
    }
  }

  lemma LeadBits(p: seq<bool>)
    requires |p| >= 12 && p[0..6] == BitsOf(60, 6) && p[6..12] == BitsOf(32, 6)
    ensures p[0] && !p[8]
  {
    SixBits(p, 0, 60, true, true, true, true, false, false);
    SixBits(p, 6, 32, true, false, false, false, false, false);
  }

  lemma ClearStartBit(b: seq<Byte>, q: nat)
    requires q < |b| && 8 * q < |Padded(b)| && !Padded(b)[8 * q]
    ensures b[q] < 128
  {
    var n := 8 * q;
    PaddedByte(b, q, n);
    assert Padded(b)[n..n + 8][0] == Padded(b)[n];
    Powers();
    TopBit(b[q], 8);
  }
}
