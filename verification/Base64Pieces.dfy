/**
 What the pieces of an encoded text decode to, when it is cut at pairs of dashes.  The
 bits of a piece are those of the data from its start on, so bytes come out whole, or
 shifted by two bits, or the reader refuses the piece.
 */
module Base64Pieces {
  import opened Prelude
  import opened Bits
  import Base64Url
  import Utf8

  // ----- Letters, bits and bytes -----

  /** What the bits from 8q on say about a byte. */
  predicate ByteAt(p: seq<bool>, q: nat, v: Byte) {
    var n := 8 * q;
    && n + 8 <= |p| && (p[n] <==> v >= 128) && (p[n] && p[n + 1] <==> v >= 192)
    && (p[n] && p[n + 1] && p[n + 2] <==> v >= 224) && (p[n] || p[n + 1] || p[n + 2] <==> v >= 32)
    && (p[n + 2] <==> v / 32 % 2 == 1) && (p[n + 3] <==> v / 16 % 2 == 1) && (p[n + 4] <==> v / 8 % 2 == 1)
    && (p[n] && p[n + 1] && p[n + 2] && p[n + 3] && p[n + 4] ==> v >= 248)
    && v == ByteOf(p[n..n + 8])
  }

  predicate DashAt(p: seq<bool>, i: nat) {
    var n := 6 * i;
    n + 6 <= |p| && p[n] && p[n + 1] && p[n + 2] && p[n + 3] && p[n + 4] && !p[n + 5]
  }

  predicate ZeroAt(p: seq<bool>, j: nat) {
    j < |p| ==> !p[j]
  }

  /** The letters, the bits and the bytes of an encoding. */
  ghost predicate Coded(e: string, p: seq<bool>, b: seq<Byte>) {
    && |p| == 6 * |e| && 8 * |b| <= |p| <= 8 * |b| + 4
    && (forall q: nat {:trigger ByteAt(p, q, b[q])} :: q < |b| ==> ByteAt(p, q, b[q]))
    && (forall i: nat {:trigger DashAt(p, i)} :: i < |e| && e[i] == '-' ==> DashAt(p, i))
    && (forall j: nat {:trigger ZeroAt(p, j)} :: 8 * |b| <= j < |p| ==> ZeroAt(p, j))
  }

  lemma EncodingIsCoded(b: seq<Byte>)
    ensures Coded(Base64Url.Encode(b), Base64Url.Padded(b), b)
  {
    var e, p := Base64Url.Encode(b), Base64Url.Padded(b);
    CodedLengths(b);
    forall q: nat | q < |b| ensures ByteAt(p, q, b[q]) {
      CodedByte(b, q);
    }
    forall i: nat | i < |e| && e[i] == '-' ensures DashAt(p, i) {
      CodedDash(b, i);
    }
  }

  lemma CodedLengths(b: seq<Byte>)
    ensures |Base64Url.Padded(b)| == 6 * |Base64Url.Encode(b)|
    ensures 8 * |b| <= |Base64Url.Padded(b)| <= 8 * |b| + 4
    ensures forall j: nat :: 8 * |b| <= j < |Base64Url.Padded(b)| ==> ZeroAt(Base64Url.Padded(b), j)
  {
    Base64Url.PaddedLength(b);
    StreamLength(b, 8);
  }

  lemma CodedByte(b: seq<Byte>, q: nat)
    requires q < |b|
    ensures ByteAt(Base64Url.Padded(b), q, b[q])
  {
    Base64Url.PaddedByte(b, q, 8 * q);
    ByteBits(Base64Url.Padded(b), q, b[q]);
  }

  lemma CodedDash(b: seq<Byte>, i: nat)
    requires i < |Base64Url.Encode(b)| && Base64Url.Encode(b)[i] == '-'
    ensures DashAt(Base64Url.Padded(b), i)
  {
    Base64Url.BitsFromLetter(b, i, 6 * i, 62);
    SixBits(Base64Url.Padded(b), 6 * i, 62, true, true, true, true, true, false);
  }

  lemma ByteBits(p: seq<bool>, q: nat, v: Byte)
    requires 8 * q + 8 <= |p| && p[8 * q..8 * q + 8] == BitsOf(v, 8)
    ensures ByteAt(p, q, v)
  {
    var n := 8 * q;
    var s := p[n..n + 8];
    Powers();
    ByteOfBits(v, 8, s);
    TopFive(v, s);
    assert s[0] == p[n] && s[1] == p[n + 1] && s[2] == p[n + 2] && s[3] == p[n + 3] && s[4] == p[n + 4];
  }

  // ----- Pieces -----

  /** The letters of `d` are those of `b` from letter `a` on. */
  ghost predicate LettersFrom(d: seq<Byte>, b: seq<Byte>, a: nat) {
    && a + |Base64Url.Encode(d)| <= |Base64Url.Encode(b)|
    && Base64Url.Encode(d) == Base64Url.Encode(b)[a..a + |Base64Url.Encode(d)|]
  }

  lemma PieceSextets(d: seq<Byte>, b: seq<Byte>, a: nat)
    ensures LettersFrom(d, b, a) ==>
      var x, y := Base64Url.ToSextets(d), Base64Url.ToSextets(b); a + |x| <= |y| && x == y[a..a + |x|]
  {
    if LettersFrom(d, b, a) {
      var x, y := Base64Url.ToSextets(d), Base64Url.ToSextets(b);
      forall i | 0 <= i < |x| ensures x[i] == y[a + i] {
        assert Base64Url.Encode(d)[i] == Base64Url.Encode(b)[a + i];
        Base64Url.IndexOfLetter(x[i]);
        Base64Url.IndexOfLetter(y[a + i]);
      }
    }
  }

  lemma EncodingStream(b: seq<Byte>, x: seq<int>, w: nat)
    requires x == Base64Url.ToSextets(b) && w == 6
    ensures Base64Url.Padded(b) == Stream(x, w)
  {
    Base64Url.PaddedLength(b);
    StreamOfDigits(Base64Url.Padded(b), 6);
  }

  /** The bits of a piece that starts at letter `a` are those of the data from there on. */
  lemma PieceBits(d: seq<Byte>, b: seq<Byte>, a: nat)
    ensures LettersFrom(d, b, a) ==> BitsFrom(Base64Url.Padded(d), Base64Url.Padded(b), 6 * a)
  {
    if LettersFrom(d, b, a) {
      PieceSextets(d, b, a);
      SextetsToBits(d, b, Base64Url.ToSextets(d), Base64Url.ToSextets(b), 6, a, 6 * a);
    }
  }

  lemma SextetsToBits(d: seq<Byte>, b: seq<Byte>, x: seq<int>, y: seq<int>, w: nat, a: nat, n: nat)
    requires x == Base64Url.ToSextets(d) && y == Base64Url.ToSextets(b) && w == 6 && n == w * a
    requires a + |x| <= |y| && x == y[a..a + |x|]
    ensures BitsFrom(Base64Url.Padded(d), Base64Url.Padded(b), n)
  {
    EncodingStream(d, x, w);
    EncodingStream(b, y, w);
    StreamPart(y, w, a, x, n);
  }

  /** The letters `f`, bits `s` and bytes `d` of a piece, and those of the whole. */
  ghost predicate PieceOf(f: string, s: seq<bool>, d: seq<Byte>, e: string, p: seq<bool>, b: seq<Byte>, a: nat) {
    Coded(f, s, d) && Coded(e, p, b) && a + |f| <= |e| && BitsFrom(s, p, 6 * a)
  }

  lemma PieceIsCoded(d: seq<Byte>, b: seq<Byte>, a: nat, f: string, e: string) returns (s: seq<bool>, p: seq<bool>)
    ensures f == Base64Url.Encode(d) && e == Base64Url.Encode(b) && a + |f| <= |e| && f == e[a..a + |f|] ==>
      PieceOf(f, s, d, e, p, b, a)
  {
    s, p := Base64Url.Padded(d), Base64Url.Padded(b);
    EncodingIsCoded(d);
    EncodingIsCoded(b);
    PieceBits(d, b, a);
  }

  lemma BitOf(s: seq<bool>, p: seq<bool>, n: nat, j: nat)
    requires BitsFrom(s, p, n) && j < |s|
    ensures s[j] == p[n + j]
  {
  }

  /** A byte whose lower bits start a continuation byte, a lead byte, or a lead byte for two. */
  predicate Tailish(v: Byte) {
    v / 32 % 2 == 1 && v / 16 % 2 == 0
  }

  predicate Leadish(v: Byte) {
    v / 32 % 2 == 1 && v / 16 % 2 == 1
  }

  predicate Pairish(v: Byte) {
    Leadish(v) && v / 8 % 2 == 0
  }

  /** A byte that starts two bits into a byte of the data. */
  lemma ShiftedByte(s: seq<bool>, q: nat, w: Byte, p: seq<bool>, r: nat, v: Byte, n: nat)
    requires BitsFrom(s, p, n) && ByteAt(s, q, w) && ByteAt(p, r, v) && 8 * r + 2 == n + 8 * q
    ensures ShiftedTo(w, v)
  {
    BitOf(s, p, n, 8 * q);
    BitOf(s, p, n, 8 * q + 1);
    BitOf(s, p, n, 8 * q + 2);
  }

  /** A byte that starts with a byte of the data. */
  lemma AlignedByte(s: seq<bool>, q: nat, w: Byte, p: seq<bool>, r: nat, v: Byte, n: nat)
    requires BitsFrom(s, p, n) && ByteAt(s, q, w) && ByteAt(p, r, v) && 8 * r == n + 8 * q
    ensures w == v
  {
    SliceFrom(s, 8 * q, p, 8 * r, n);
  }

  lemma SliceFrom(s: seq<bool>, j: nat, p: seq<bool>, m: nat, n: nat)
    requires BitsFrom(s, p, n) && m == n + j && j + 8 <= |s|
    ensures m + 8 <= |p| && s[j..j + 8] == p[m..m + 8]
  {
    var x, y := s[j..j + 8], p[m..m + 8];
    forall i | 0 <= i < 8 ensures x[i] == y[i] {
      BitOf(s, p, n, j + i);
    }
  }

  /** The bytes of the piece and of the data are where their bits are. */
  ghost predicate ShiftedFrom(d: seq<Byte>, b: seq<Byte>, m: nat) {
    forall q: nat :: q < |d| && m + q < |b| ==> ShiftedTo(d[q], b[m + q])
  }

  predicate ShiftedTo(w: Byte, v: Byte) {
    (Utf8.IsTail(w) <==> Tailish(v)) && (w >= 0xC0 <==> Leadish(v)) && (0xC0 <= w < 0xE0 <==> Pairish(v))
  }

  lemma PieceShifted(f: string, s: seq<bool>, d: seq<Byte>, e: string, p: seq<bool>, b: seq<Byte>, a: nat, m: nat)
    requires PieceOf(f, s, d, e, p, b, a) && 6 * a == 8 * m + 2
    ensures ShiftedFrom(d, b, m)
  {
    forall q: nat | q < |d| && m + q < |b| ensures ShiftedTo(d[q], b[m + q]) {
      ByteThere(f, s, d, q);
      ByteThere(e, p, b, m + q);
      ShiftedByte(s, q, d[q], p, m + q, b[m + q], 6 * a);
    }
  }

  lemma ByteThere(e: string, p: seq<bool>, b: seq<Byte>, q: nat)
    requires Coded(e, p, b) && q < |b|
    ensures ByteAt(p, q, b[q])
  {
  }

  lemma PieceAligned(f: string, s: seq<bool>, d: seq<Byte>, e: string, p: seq<bool>, b: seq<Byte>, a: nat, n: nat)
    requires PieceOf(f, s, d, e, p, b, a) && 6 * a == 8 * n
    ensures forall q: nat :: q < |d| && n + q < |b| ==> d[q] == b[n + q]
  {
    forall q: nat | q < |d| && n + q < |b| ensures d[q] == b[n + q] {
      ByteThere(f, s, d, q);
      ByteThere(e, p, b, n + q);
      AlignedByte(s, q, d[q], p, n + q, b[n + q], 6 * a);
    }
  }

  // ----- Where pieces start and end -----

  ghost predicate BytesFrom(b: seq<Byte>, low: Byte) {
    forall q :: 0 <= q < |b| ==> low <= b[q] < 0xF8
  }

  /** A dash sets five bits, so a byte that starts among them is not 7-bit. */
  lemma DashByte(e: string, p: seq<bool>, b: seq<Byte>, i: nat, q: nat)
    requires Coded(e, p, b) && i < |e| && e[i] == '-' && 6 * i <= 8 * q < 6 * i + 5
    ensures q < |b| && b[q] >= 0x80 && (8 * q == 6 * i ==> b[q] >= 0xF8)
  {
    assert DashAt(p, i);
    assert q >= |b| ==> ZeroAt(p, 8 * q);
    assert ByteAt(p, q, b[q]);
  }

  lemma PairPlace(e: string, p: seq<bool>, b: seq<Byte>, i: nat)
    requires Coded(e, p, b) && BytesFrom(b, 0) && i + 1 < |e| && e[i] == '-' && e[i + 1] == '-'
    ensures i % 4 == 1 || i % 4 == 2
  {
    if i % 4 == 0 {
      DashByte(e, p, b, i, i / 4 * 3);
    }
    if i % 4 == 3 {
      DashByte(e, p, b, i + 1, i / 4 * 3 + 3);
    }
  }

  /** From `a` to `c`, between the pairs of dashes around it or the ends of the encoding. */
  ghost predicate Between(e: string, a: nat, c: nat) {
    && a <= c <= |e|
    && (a == 0 || (a >= 2 && e[a - 2] == '-' && e[a - 1] == '-'))
    && (c == |e| || (c + 1 < |e| && e[c] == '-' && e[c + 1] == '-'))
  }

  /** Pieces start at a group of four or three letters into one, and end one or two letters into one. */
  lemma PiecePlace(e: string, p: seq<bool>, b: seq<Byte>, a: nat, c: nat)
    requires Coded(e, p, b) && BytesFrom(b, 0) && Between(e, a, c)
    ensures a % 4 == 0 || a % 4 == 3
    ensures c < |e| ==> c % 4 == 1 || c % 4 == 2
  {
    if a > 0 {
      PairPlace(e, p, b, a - 2);
    }
    if c < |e| {
      PairPlace(e, p, b, c);
    }
  }

  lemma OneOver(k: nat, j: nat, n: nat, f: nat)
    requires 6 * (4 * j + 1 - 4 * k) == 8 * n + f
    ensures f > 4
  {
    assert 8 * (n - 3 * j + 3 * k) + f == 6;
  }

  lemma TwoOver(k: nat, j: nat, n: nat, f: nat, whole: nat, bytes: nat)
    requires 6 * (4 * j + 2 - 4 * k) == 8 * n + f && f <= 4
    requires 4 * j + 2 < whole && 6 * whole <= 8 * bytes + 4
    ensures f == 4 && 24 * k + 8 * n == 8 * (3 * j + 1) && 3 * j + 1 < bytes
  {
    assert 8 * (n - 3 * j + 3 * k - 1) + f == 4;
  }

  /** A piece from a group on that is not the last leaves bits over, or the upper half of a byte that is not zero. */
  lemma BoundaryPiece(
      f: string, s: seq<bool>, d: seq<Byte>, e: string, p: seq<bool>, b: seq<Byte>, a: nat, k: nat, j: nat)
    requires PieceOf(f, s, d, e, p, b, a) && a + |f| < |e| && BytesFrom(b, 0x20) && a == 4 * k
    ensures a + |f| != 4 * j + 1 && a + |f| != 4 * j + 2
  {
    if a + |f| == 4 * j + 1 {
      OneOver(k, j, |d|, |s| - 8 * |d|);
    }
    if a + |f| == 4 * j + 2 {
      var r := 3 * j + 1;
      TwoOver(k, j, |d|, |s| - 8 * |d|, |e|, |b|);
      assert ByteAt(p, r, b[r]);
      assert ZeroAt(s, 8 * |d|) && ZeroAt(s, 8 * |d| + 1) && ZeroAt(s, 8 * |d| + 2);
      ZeroHalf(s, 8 * |d|, p, r, b[r], 6 * a);
    }
  }

  lemma ZeroHalf(s: seq<bool>, j: nat, p: seq<bool>, r: nat, v: Byte, n: nat)
    requires BitsFrom(s, p, n) && ByteAt(p, r, v) && 8 * r == n + j && j + 3 <= |s|
    requires !s[j] && !s[j + 1] && !s[j + 2]
    ensures v < 0x20
  {
    BitOf(s, p, n, j);
    BitOf(s, p, n, j + 1);
    BitOf(s, p, n, j + 2);
  }

  lemma LastShiftedLengths(k: nat, m: nat, n: nat, f: nat, bytes: nat, filler: nat)
    requires 6 * m == 8 * n + f && f <= 4 && 6 * (4 * k + 3 + m) == 8 * bytes + filler && filler <= 4
    ensures 24 * k + 18 + 8 * n == 8 * bytes + 2
  {
    assert 8 * (bytes - n - 3 * k - 2) == 2 + f - filler;
  }

  lemma LastAlignedLengths(k: nat, m: nat, n: nat, f: nat, bytes: nat, filler: nat)
    requires 6 * m == 8 * n + f && f <= 4 && 6 * (4 * k + m) == 8 * bytes + filler && filler <= 4
    ensures 3 * k + n == bytes
  {
    assert 8 * (bytes - n - 3 * k) == f - filler;
  }

  /** The last piece from three letters into a group on ends in a lead byte, if the data end in a closing brace. */
  lemma LastShiftedPiece(
      f: string, s: seq<bool>, d: seq<Byte>, e: string, p: seq<bool>, b: seq<Byte>, a: nat, k: nat)
    requires PieceOf(f, s, d, e, p, b, a) && a + |f| == |e| && d != []
    requires a == 4 * k + 3 && b != [] && b[|b| - 1] == '}' as int
    ensures Utf8.Decode(d).None?
  {
    var m, q := 3 * k + 2, |d| - 1;
    LastShiftedLengths(k, |f|, |d|, |s| - 8 * |d|, |b|, |p| - 8 * |b|);
    PieceShifted(f, s, d, e, p, b, a, m);
    ShiftedAt(d, b, m, q, |b| - 1);
    EndsInLead(d, b[|b| - 1]);
  }

  lemma ShiftedAt(d: seq<Byte>, b: seq<Byte>, m: nat, q: nat, r: nat)
    requires ShiftedFrom(d, b, m) && q < |d| && r == m + q < |b|
    ensures ShiftedTo(d[q], b[r])
  {
  }

  lemma EndsInLead(d: seq<Byte>, v: Byte)
    requires d != [] && ShiftedTo(d[|d| - 1], v) && Leadish(v)
    ensures Utf8.Decode(d).None?
  {
    if Utf8.Decode(d).Some? {
      Utf8.LeadHasTail(d, |d| - 1);
    }
  }

  /** The last piece from a group on holds the data from a byte on, and the byte before it is not 7-bit. */
  lemma LastAlignedPiece(
      f: string, s: seq<bool>, d: seq<Byte>, e: string, p: seq<bool>, b: seq<Byte>, a: nat, k: nat)
    requires PieceOf(f, s, d, e, p, b, a) && a + |f| == |e| && Between(e, a, |e|)
    requires 0 < a == 4 * k
    ensures 3 * k <= |b| && d == b[3 * k..] && b[3 * k - 1] >= 0x80
  {
    LastAlignedLengths(k, |f|, |d|, |s| - 8 * |d|, |b|, |p| - 8 * |b|);
    DashByte(e, p, b, a - 2, 3 * k - 1);
    PieceAligned(f, s, d, e, p, b, a, 3 * k);
  }

  /** The bytes around a piece in the middle that starts three letters into a group: neither is 7-bit. */
  lemma MiddlePiece(f: string, s: seq<bool>, d: seq<Byte>, e: string, p: seq<bool>, b: seq<Byte>, a: nat)
    returns (m: nat, k: nat)
    requires PieceOf(f, s, d, e, p, b, a) && a + |f| < |e| && Between(e, a, a + |f|)
    requires a % 4 == 3 && (a + |f|) % 4 in {1, 2}
    ensures 6 * a == 8 * m + 2 && m < k < |b| && b[m] >= 0x80 && b[k] >= 0x80 && |d| == k - m - 1
  {
    var c := a + |f|;
    m, k := a / 4 * 3 + 2, c / 4 * 3 + c % 4;
    DashByte(e, p, b, a - 1, m);
    DashByte(e, p, b, c, k);
  }

  // ----- The shifted bytes across a separator -----

  /** Seven bytes that, shifted by two bits, are no part of a text. */
  predicate Barrier(b: seq<Byte>, f: nat) {
    && f + 7 <= |b| && Tailish(b[f]) && Tailish(b[f + 1]) && Tailish(b[f + 2])
    && (Tailish(b[f + 3]) || (Pairish(b[f + 3]) && Tailish(b[f + 4]) && Tailish(b[f + 5])))
  }

  lemma NoTextThere(d: seq<Byte>, i: nat)
    requires i + 6 <= |d| && Utf8.IsTail(d[i]) && Utf8.IsTail(d[i + 1]) && Utf8.IsTail(d[i + 2])
    requires Utf8.IsTail(d[i + 3]) ||
             (0xC0 <= d[i + 3] < 0xE0 && Utf8.IsTail(d[i + 4]) && Utf8.IsTail(d[i + 5]))
    ensures Utf8.Decode(d).None?
  {
    if Utf8.Decode(d).Some? {
      Utf8.NoFourTails(d, i);
      Utf8.NoLongPair(d, i + 3);
    }
  }

  /** A piece that holds such bytes is no text. */
  lemma BarrierPiece(d: seq<Byte>, b: seq<Byte>, m: nat, f: nat)
    requires ShiftedFrom(d, b, m) && Barrier(b, f) && m <= f && f - m + 6 <= |d|
    ensures Utf8.Decode(d).None?
  {
    var i := f - m;
    assert ShiftedTo(d[i], b[m + i]) && ShiftedTo(d[i + 1], b[m + (i + 1)]) && ShiftedTo(d[i + 2], b[m + (i + 2)]);
    assert ShiftedTo(d[i + 3], b[m + (i + 3)]);
    assert ShiftedTo(d[i + 4], b[m + (i + 4)]) && ShiftedTo(d[i + 5], b[m + (i + 5)]);
    NoTextThere(d, i);
  }

  // ----- The marker spelled backwards is in no encoding of a text -----

  /** What three of its letters say about the bits. */
  predicate MarkerBits(c: char, p: seq<bool>, i: nat) {
    var n := 6 * i;
    && n + 6 <= |p| && (c == 'd' ==> !p[n + 4] && p[n + 5])
    && (c == 's' ==> p[n + 2] && p[n + 3]) && (c == 'n' ==> p[n + 4] && p[n + 5])
  }

  lemma LetterBits(b: seq<Byte>, i: nat)
    requires i < |Base64Url.Encode(b)|
    ensures MarkerBits(Base64Url.Encode(b)[i], Base64Url.Padded(b), i)
  {
    var p, n := Base64Url.Padded(b), 6 * i;
    Base64Url.PaddedLength(b);
    if Base64Url.Encode(b)[i] == 'd' {
      Base64Url.BitsFromLetter(b, i, n, 29);
      SixBits(p, n, 29, false, true, true, true, false, true);
    }
    if Base64Url.Encode(b)[i] == 's' {
      Base64Url.BitsFromLetter(b, i, n, 44);
      SixBits(p, n, 44, true, false, true, true, false, false);
    }
    if Base64Url.Encode(b)[i] == 'n' {
      Base64Url.BitsFromLetter(b, i, n, 39);
      SixBits(p, n, 39, true, false, false, true, true, true);
    }
  }

  /** A byte with two upper ones is a lead byte, so a continuation byte follows it. */
  lemma LeadThere(e: string, p: seq<bool>, b: seq<Byte>, q: nat, n: nat)
    requires Coded(e, p, b) && Utf8.Decode(b).Some? && n == 8 * q && n + 1 < |p| && p[n] && p[n + 1]
    ensures n + 16 <= |p| && p[n + 8] && !p[n + 9]
  {
    assert q >= |b| ==> ZeroAt(p, n);
    assert ByteAt(p, q, b[q]);
    Utf8.LeadHasTail(b, q);
    assert ByteAt(p, q + 1, b[q + 1]);
  }

  lemma MarkerFromOne(e: string, p: seq<bool>, b: seq<Byte>, k: nat)
    requires Coded(e, p, b) && Utf8.Decode(b).Some? && 4 * k + 1 < |e| && e[4 * k + 1] == '-'
    ensures 24 * k + 17 < |p| && !p[24 * k + 17] && p[24 * k + 16]
  {
    assert DashAt(p, 4 * k + 1);
    LeadThere(e, p, b, 3 * k + 1, 24 * k + 8);
  }

  lemma MarkerFromTwo(e: string, p: seq<bool>, b: seq<Byte>, k: nat)
    requires Coded(e, p, b) && Utf8.Decode(b).Some? && MarkerBits('s', p, 4 * k + 5)
    ensures 24 * k + 41 < |p| && !p[24 * k + 41] && p[24 * k + 40]
  {
    LeadThere(e, p, b, 3 * k + 4, 24 * k + 32);
  }

  /** The marker's letters, reversed, from letter `i` on. */
  predicate MarkerThere(e: string, i: nat) {
    && i + 9 < |e| && e[i] == '-' && e[i + 1] == 'd' && e[i + 3] == 's' && e[i + 4] == 'n' && e[i + 9] == '-'
  }

  lemma MarkerNowhere(e: string, p: seq<bool>, b: seq<Byte>, i: nat, k: nat, r: nat)
    requires Coded(e, p, b) && Utf8.Decode(b).Some? && BytesFrom(b, 0) && i == 4 * k + r && r < 4 && i + 4 < |e|
    requires MarkerBits(e[i + 1], p, i + 1) && MarkerBits(e[i + 3], p, i + 3) && MarkerBits(e[i + 4], p, i + 4)
    ensures !MarkerThere(e, i)
  {
    if MarkerThere(e, i) {
      if r == 0 {
        DashByte(e, p, b, i, 3 * k);
      } else if r == 1 {
        MarkerFromOne(e, p, b, k);
      } else if r == 2 {
        MarkerFromTwo(e, p, b, k);
      } else {
        DashByte(e, p, b, i + 9, 3 * k + 9);
      }
    }
  }

  /** Nowhere in the encoding of a text stands the marker reversed. */
  lemma NoMarker(b: seq<Byte>, i: nat)
    requires Utf8.Decode(b).Some? && BytesFrom(b, 0)
    ensures !MarkerThere(Base64Url.Encode(b), i)
  {
    var e := Base64Url.Encode(b);
    if i + 4 < |e| {
      EncodingIsCoded(b);
      LetterBits(b, i + 1);
      LetterBits(b, i + 3);
      LetterBits(b, i + 4);
      MarkerNowhere(e, Base64Url.Padded(b), b, i, i / 4, i % 4);
    }
  }
}
