/**
 Names whose payload holds a separator.  Outside ASCII there are such payloads, and the
 parser never gets their configuration back.
 */
module CutNames {
  import opened Prelude
  import opened Text
  import opened Json
  import opened CustomServerName
  import opened FileNames
  import Utf8
  import Base64Url
  import Base64Pieces
  import JsonParts
  import Bits

  lemma ReplaceHead(z: string, pat: string)
    requires z != [] && pat != [] && z[0] != pat[0]
    ensures Replace(z, pat, DASHES) != [] && Replace(z, pat, DASHES)[0] == z[0]
  {
    assert |pat| <= |z| ==> z[0..|pat|][0] == z[0];
  }

  /** The replacements for the longer markers pass over a marker with a payload behind it. */
  lemma LongMarkersPass(p: string, z: string, pat: string)
    requires Calm(p) && z != [] && z[0] !in {'-', 'l'} && pat in {LICENSED2, LICENSED3}
    ensures Replace(p + (LICENSED1 + z), pat, DASHES) == p + (LICENSED1 + Replace(z, pat, DASHES))
    ensures Replace(z, pat, DASHES) != [] && Replace(z, pat, DASHES)[0] == z[0]
  {
    forall k: nat | k < |p| + |LICENSED1| ensures !OccursAt(p + (LICENSED1 + z), pat, k) {
      NoLongerMarker(p, LICENSED1, z, pat, k);
    }
    CopyFront(p, LICENSED1, z, pat);
    ReplaceHead(z, pat);
  }

  lemma ShortMarkerPasses(p: string, z: string)
    requires Calm(p)
    ensures Replace(p + (LICENSED1 + z), LICENSED1, DASHES) == p + (DASHES + Replace(z, LICENSED1, DASHES))
  {
    var s := p + (LICENSED1 + z);
    forall k: nat | k < |p| ensures !OccursAt(s, LICENSED1, k) {
      CalmFront(p, LICENSED1 + z, LICENSED1, k);
    }
    ReplaceAfter(s, LICENSED1, DASHES, |p|);
    assert s[|p|..] == LICENSED1 + z && s[..|p|] == p;
    assert (LICENSED1 + z)[..|LICENSED1|] == LICENSED1 && (LICENSED1 + z)[|LICENSED1|..] == z;
  }

  /** The replacements work on the name's own marker and on the payload apart. */
  lemma UnmarkAny(p: string, z: string)
    requires Calm(p) && z != [] && z[0] !in {'-', 'l'}
    ensures Unmark(p + (LICENSED1 + z)) == p + (DASHES + Unmark(z))
  {
    var z3 := Replace(z, LICENSED3, DASHES);
    LongMarkersPass(p, z, LICENSED3);
    LongMarkersPass(p, z3, LICENSED2);
    ShortMarkerPasses(p, Replace(z3, LICENSED2, DASHES));
  }

  lemma SplitBehind(p: string, w: string)
    requires Calm(p)
    ensures Split(p + (DASHES + w), DASHES) == [p] + Split(w, DASHES)
  {
    var s := p + (DASHES + w);
    forall k: nat | k < |p| ensures !OccursAt(s, DASHES, k) {
      CalmFront(p, DASHES + w, DASHES, k);
    }
    assert s[|p|..|p| + 2] == DASHES;
    SplitAt(s, DASHES, |p|);
    assert s[|p| + 2..] == w && s[..|p|] == p;
  }

  /** Whatever the payload, the parser reads the pieces that the replacements leave of it. */
  lemma AnyPayload(p: string, z: string, ext: string, read: Reader)
    requires ProgramName(p, read) && z != [] && z[0] !in {'-', 'l'}
    requires Extended(p + (LICENSED1 + z), ext) && !Contains(Lower(p + (LICENSED1 + z)), HOST)
    ensures FromString(p + (LICENSED1 + z) + ext, read) == FirstPiece(Split(Unmark(z), DASHES), read)
  {
    ExtensionStripped(p + (LICENSED1 + z), ext);
    UnmarkAny(p, z);
    SplitBehind(p, Unmark(z));
    FirstFails(p, Split(Unmark(z), DASHES), read);
  }

  lemma FirstFails(p: string, pieces: seq<string>, read: Reader)
    requires FromPiece(p, read).None?
    ensures FirstPiece([p] + pieces, read) == FirstPiece(pieces, read)
  {
    assert ([p] + pieces)[1..] == pieces;
  }

  // ----- A piece of a printed configuration does not read as it -----

  ghost predicate Refused(d: seq<Byte>, c: CustomServer) {
    Utf8.Decode(d).Some? ==> Read(Utf8.Decode(d).value) != Some(c)
  }

  /** What the bytes of a printed configuration have to be for none of its pieces to read as it. */
  ghost predicate Solid(b: seq<Byte>, c: CustomServer) {
    && b != [] && b[|b| - 1] == '}' as int && Base64Pieces.BytesFrom(b, 0x20)
    && (forall n: nat :: 0 < n <= |b| && b[n - 1] >= 0x80 ==> Refused(b[n..], c))
    && (forall n: nat :: JsonParts.FieldsFit(c, n) ==> JsonParts.Near(b, n))
  }

  /** What follows a byte that is not 7-bit is the rest of the text from behind a character outside ASCII. */
  lemma RestRefused(c: CustomServer, text: string, n: nat)
    requires text == Print(c) && 0 < n <= |Utf8.Encode(text)| && Utf8.Encode(text)[n - 1] >= 0x80
    ensures Refused(Utf8.Encode(text)[n..], c)
  {
    if Utf8.Decode(Utf8.Encode(text)[n..]).Some? {
      var i := Utf8.SuffixOfText(text, n);
      Utf8.DecodeEncode(text[i..]);
      JsonParts.PrintRestsFail(c);
    }
  }

  lemma PrintIsSolid(c: CustomServer, text: string)
    requires text == Print(c)
    ensures Solid(Utf8.Encode(text), c)
  {
    var b := Utf8.Encode(text);
    PayloadBytes(c);
    JsonParts.PrintPrintable(c);
    Utf8.BytesInRange(text, 0x20);
    forall n: nat | 0 < n <= |b| && b[n - 1] >= 0x80 ensures Refused(b[n..], c) {
      RestRefused(c, text, n);
    }
    forall n: nat | JsonParts.FieldsFit(c, n) ensures JsonParts.Near(b, n) {
      JsonParts.PrintNear(c, n);
    }
  }

  /** A piece in the middle crosses into the next field, and is no text, or is shorter than the field it is in. */
  lemma MiddleRefused(c: CustomServer, d: seq<Byte>, b: seq<Byte>, m: nat, k: nat)
    requires Solid(b, c) && Base64Pieces.ShiftedFrom(d, b, m)
    requires m < k < |b| && b[m] >= 0x80 && b[k] >= 0x80 && |d| == k - m - 1
    ensures Refused(d, c)
  {
    if Utf8.Decode(d).Some? && Read(Utf8.Decode(d).value) == Some(c) {
      JsonParts.ReadSize(Utf8.Decode(d).value);
      Utf8.EncodeDecode(d);
      assert JsonParts.FieldsFit(c, |d|);
      assert JsonParts.Apart(b, m, k);
      var f: nat :| m < f && f + 8 <= k && Base64Pieces.Barrier(b, f);
      Base64Pieces.BarrierPiece(d, b, m, f);
      assert false;
    }
  }

  // The letters, bits and bytes of a piece, and those of the whole.

  lemma AlignedRefused(
      c: CustomServer, f: string, s: seq<bool>, d: seq<Byte>, e: string, p: seq<bool>, b: seq<Byte>, a: nat)
    requires Solid(b, c) && Base64Pieces.PieceOf(f, s, d, e, p, b, a)
    requires Base64Pieces.Between(e, a, a + |f|) && |f| < |e| && a % 4 == 0
    ensures Refused(d, c)
  {
    var k := a / 4;
    if a + |f| < |e| {
      Base64Pieces.PiecePlace(e, p, b, a, a + |f|);
      Base64Pieces.BoundaryPiece(f, s, d, e, p, b, a, k, (a + |f|) / 4);
    } else {
      Base64Pieces.LastAlignedPiece(f, s, d, e, p, b, a, k);
      assert Refused(b[3 * k..], c);
    }
  }

  lemma ShiftedRefused(
      c: CustomServer, f: string, s: seq<bool>, d: seq<Byte>, e: string, p: seq<bool>, b: seq<Byte>, a: nat)
    requires Solid(b, c) && Base64Pieces.PieceOf(f, s, d, e, p, b, a)
    requires Base64Pieces.Between(e, a, a + |f|) && a % 4 == 3 && d != []
    ensures Refused(d, c)
  {
    if a + |f| == |e| {
      Base64Pieces.LastShiftedPiece(f, s, d, e, p, b, a, a / 4);
    } else {
      Base64Pieces.PiecePlace(e, p, b, a, a + |f|);
      var m, n := Base64Pieces.MiddlePiece(f, s, d, e, p, b, a);
      Base64Pieces.PieceShifted(f, s, d, e, p, b, a, m);
      MiddleRefused(c, d, b, m, n);
    }
  }

  lemma PieceRefused(
      c: CustomServer, f: string, s: seq<bool>, d: seq<Byte>, e: string, p: seq<bool>, b: seq<Byte>, a: nat)
    requires Solid(b, c) && Base64Pieces.PieceOf(f, s, d, e, p, b, a)
    requires Base64Pieces.Between(e, a, a + |f|) && |f| < |e|
    ensures Refused(d, c)
  {
    Base64Pieces.PiecePlace(e, p, b, a, a + |f|);
    if a % 4 == 0 {
      AlignedRefused(c, f, s, d, e, p, b, a);
    } else if d != [] {
      ShiftedRefused(c, f, s, d, e, p, b, a);
    } else {
      NothingReads();
    }
  }

  lemma NothingReads()
    ensures Utf8.Decode([]) == Some([]) && Read([]).None?
  {
  }

  /** Letters that decode to a text that reads as `c`. */
  ghost predicate DecodesTo(y: string, c: CustomServer) {
    Base64Url.Decode(y).Some? && !Refused(Base64Url.Decode(y).value, c)
  }

  lemma DataRefused(c: CustomServer, d: seq<Byte>, y: string, b: seq<Byte>, e: string, a: nat)
    requires Solid(b, c) && StandsBetween(e, y, a) && |y| < |e|
    ensures e == Base64Url.Encode(b) && y == Base64Url.Encode(d) ==> Refused(d, c)
  {
    if e == Base64Url.Encode(b) && y == Base64Url.Encode(d) {
      var s, p := Base64Pieces.PieceIsCoded(d, b, a, y, e);
      PieceRefused(c, y, s, d, e, p, b, a);
    }
  }

  lemma LettersRefused(c: CustomServer, y: string, b: seq<Byte>, e: string, a: nat)
    requires Solid(b, c) && e == Base64Url.Encode(b) && StandsBetween(e, y, a) && |y| < |e|
    ensures !DecodesTo(y, c)
  {
    if Base64Url.Decode(y).Some? {
      Base64Url.EncodeDecode(y);
      DataRefused(c, Base64Url.Decode(y).value, y, b, e, a);
    }
  }

  /** No piece of the reversed payload between its pairs of dashes reads as the configuration. */
  ghost predicate NoPieceReads(e: string, c: CustomServer) {
    forall y: string, a: nat :: StandsBetween(e, y, a) && |y| < |e| ==> !DecodesTo(y, c)
  }

  ghost predicate StandsBetween(e: string, y: string, a: nat) {
    Base64Pieces.Between(e, a, a + |y|) && y == e[a..a + |y|]
  }

  lemma PrintedPieces(c: CustomServer, text: string)
    requires text == Print(c)
    ensures NoPieceReads(Base64Url.Encode(Utf8.Encode(text)), c)
  {
    PrintIsSolid(c, text);
    SolidPieces(c, Utf8.Encode(text));
  }

  lemma SolidPieces(c: CustomServer, b: seq<Byte>)
    requires Solid(b, c)
    ensures NoPieceReads(Base64Url.Encode(b), c)
  {
    var e := Base64Url.Encode(b);
    forall y: string, a: nat | StandsBetween(e, y, a) && |y| < |e| ensures !DecodesTo(y, c) {
      LettersRefused(c, y, b, e, a);
    }
  }

  /** A verifier to which nothing that reads as `c` is signed. */
  ghost predicate NothingSigned(verify: Verifier, c: CustomServer) {
    forall data: seq<Byte> :: verify(data).Some? ==> ReadBytes(verify(data).value) != Some(c)
  }

  lemma ReadsMeans(x: string, verify: Verifier, c: CustomServer)
    requires NothingSigned(verify, c) && Reads(verify)(x) == Some(c)
    ensures DecodesTo(Reverse(x), c)
  {
    var d := Base64Url.Decode(Reverse(x)).value;
    assert ReadBytes(d) == Some(c);
  }

  // ----- The payload in the name -----

  ghost predicate Mirror(e: string, z: string) {
    |e| == |z| && forall i :: 0 <= i < |e| ==> e[i] == z[|e| - 1 - i]
  }

  lemma ReverseMirrors(z: string)
    ensures Mirror(Reverse(z), z) && Mirror(z, Reverse(z))
  {
  }

  lemma MirrorPart(e: string, z: string, k: nat, n: nat, x: string, y: string)
    requires Mirror(e, z) && k <= n <= |z| && y == z[k..n] && Mirror(x, y)
    ensures x == e[|e| - n..|e| - k]
  {
    var m := |e| - n;
    var v := e[m..|e| - k];
    forall i | 0 <= i < |x| ensures x[i] == v[i] {
      assert x[i] == y[|y| - 1 - i];
      assert e[m + i] == z[n - 1 - i];
    }
  }

  lemma MirrorPair(e: string, z: string, k: nat)
    requires Mirror(e, z) && OccursAt(z, DASHES, k)
    ensures k + 2 <= |e| && e[|e| - 2 - k] == '-' && e[|e| - 1 - k] == '-'
  {
    assert z[k..k + 2][0] == z[k] && z[k..k + 2][1] == z[k + 1];
  }

  /** A piece of the payload, reversed, is a piece of the encoding. */
  lemma MirrorPiece(e: string, z: string, k: nat, x: string, y: string)
    requires Mirror(e, z) && Mirror(x, y) && Placed(z, DASHES, k, y, k == 0)
    ensures StandsBetween(e, x, |e| - k - |y|)
  {
    MirrorPart(e, z, k, k + |y|, x, y);
    if k > 0 {
      MirrorPair(e, z, k - 2);
    }
    if k + |y| < |z| {
      MirrorPair(e, z, k + |y|);
    }
  }

  lemma CutNotRead(c: CustomServer, verify: Verifier, e: string, z: string, k: nat, y: string)
    requires NothingSigned(verify, c) && NoPieceReads(e, c) && Mirror(e, z) && |y| < |z|
    requires Placed(z, DASHES, k, y, k == 0)
    ensures Reads(verify)(y) != Some(c)
  {
    ReverseMirrors(y);
    MirrorPiece(e, z, k, Reverse(y), y);
    if Reads(verify)(y) == Some(c) {
      ReadsMeans(y, verify, c);
    }
  }

  // ----- Copy suffixes -----

  lemma ClosingRefused(s: string, verify: Verifier)
    requires ')' in s
    ensures Reads(verify)(Trim(s)).None?
  {
    TrimKeeps(s, ')');
    var t := Trim(s);
    var i :| 0 <= i < |t| && t[i] == ')';
    Base64Url.ForeignCharFails(Reverse(t), |t| - 1 - i);
  }

  lemma NoOpening(s: string)
    requires '(' !in s
    ensures AbsentBefore(s, OPEN, |s|)
  {
    forall k: nat | k < |s| ensures !OccursAt(s, OPEN, k) {
      if OccursAt(s, OPEN, k) {
        OccursChar(s, OPEN, k, 0);
      }
    }
  }

  lemma SplitOpening(x: string, y: string)
    requires '(' !in x
    ensures Split(x + ("(" + y), OPEN) == [x] + Split(y, OPEN)
  {
    SplitFirst(x, y, '(');
  }

  /** What a copy suffix has behind its first parenthesis, in parts. */
  lemma {:induction false} CopyPartsRefused(n: nat, ns: seq<nat>, verify: Verifier)
    ensures FirstAccepted(Split(Decimal(n) + ")" + Copies(ns), OPEN), Reads(verify)).None?
    decreases |ns|
  {
    var u := Decimal(n) + ")";
    assert ')' in u && '(' !in u;
    if ns == [] {
      assert u + Copies(ns) == u;
      NoOpening(u);
      SplitAbsent(u, OPEN);
      ClosingRefused(u, verify);
      OneRefused(u, [], Reads(verify));
    } else {
      var v := Decimal(ns[0]) + ")" + Copies(ns[1..]);
      assert u + Copies(ns) == u + " " + ("(" + v);
      SplitOpening(u + " ", v);
      CopyPartsRefused(ns[0], ns[1..], verify);
      ClosingRefused(u + " ", verify);
      OneRefused(u + " ", Split(v, OPEN), Reads(verify));
    }
  }

  lemma OneRefused(x: string, rest: seq<string>, read: Reader)
    requires read(Trim(x)).None? && FirstAccepted(rest, read).None?
    ensures FirstAccepted([x] + rest, read).None?
  {
    assert ([x] + rest)[1..] == rest;
  }

  lemma OneTried(x: string, rest: seq<string>, c: CustomServer, read: Reader)
    requires read(Trim(x)) != Some(c) && FirstAccepted(rest, read).None?
    ensures FirstAccepted([x] + rest, read) != Some(c)
  {
    assert ([x] + rest)[1..] == rest;
  }

  lemma TrimSpelled(y: string)
    requires Base64Url.Spelled(y)
    ensures Trim(y) == y && Trim(y + " ") == y && '(' !in y
  {
    if y == [] {
      assert y + " " == " ";
      assert TrimStart(" ") == TrimStart("");
    } else {
      TrimNothing(y);
      TrimSuffix(y, " ");
    }
  }

  lemma SecondTry(x: string, y: string, rest: seq<string>, c: CustomServer, read: Reader)
    requires read(Trim(x)).None? && Split(x, OPEN) == [y] + rest
    requires read(Trim(y)) != Some(c) && FirstAccepted(rest, read).None?
    ensures FromPiece(x, read) != Some(c)
  {
    OneTried(y, rest, c, read);
  }

  /** A copy suffix does not make a piece read as what it does not read as without. */
  lemma CopyNotRead(y: string, ns: seq<nat>, c: CustomServer, verify: Verifier)
    requires Base64Url.Spelled(y) && Reads(verify)(y) != Some(c)
    ensures FromPiece(y + Copies(ns), Reads(verify)) != Some(c)
  {
    TrimSpelled(y);
    if ns == [] {
      assert y + Copies(ns) == y;
      PlainNotRead(y, c, Reads(verify));
    } else {
      var v := Decimal(ns[0]) + ")" + Copies(ns[1..]);
      CopiedForm(y, ns, v);
      ClosingRefused(y + Copies(ns), verify);
      SplitOpening(y + " ", v);
      CopyPartsRefused(ns[0], ns[1..], verify);
      SecondTry(y + Copies(ns), y + " ", Split(v, OPEN), c, Reads(verify));
    }
  }

  lemma PlainNotRead(y: string, c: CustomServer, read: Reader)
    requires Trim(y) == y && '(' !in y && read(y) != Some(c)
    ensures FromPiece(y, read) != Some(c)
  {
    if read(y).None? {
      NoParenthesisNoParts(y, read);
    }
  }

  lemma CopiedForm(y: string, ns: seq<nat>, v: string)
    requires ns != [] && v == Decimal(ns[0]) + ")" + Copies(ns[1..])
    ensures y + Copies(ns) == y + " " + ("(" + v) && ')' in y + Copies(ns)
  {
    JoinFour(" (", Decimal(ns[0]), ")", Copies(ns[1..]));
    OpenedForm(y, v);
    ClosingInside(Decimal(ns[0]), Copies(ns[1..]));
    assert ')' in y + " " + ("(" + v);
  }

  lemma JoinFour(a: string, b: string, c: string, d: string)
    ensures a + b + c + d == a + (b + c + d)
  {
  }

  lemma OpenedForm(y: string, v: string)
    ensures y + (" (" + v) == y + " " + ("(" + v)
  {
  }

  lemma ClosingInside(x: string, y: string)
    ensures ')' in x + ")" + y
  {
    assert (x + ")" + y)[|x|] == ')';
  }

  // ----- The shipped name -----

  lemma PiecesNotRead(pieces: seq<string>, c: CustomServer, read: Reader)
    requires forall i :: 0 <= i < |pieces| ==> FromPiece(pieces[i], read) != Some(c)
    ensures FirstPiece(pieces, read) != Some(c)
  {
    if pieces != [] {
      PiecesNotRead(pieces[1..], c, read);
    }
  }

  lemma WithinPayload(z: string, t: string, pat: string, k: nat)
    requires '-' !in t && pat in {DASHES, LICENSED1} && OccursAt(z + t, pat, k)
    ensures k + |pat| <= |z| && OccursAt(z, pat, k)
  {
    assert k + |pat| > |z| ==> (z + t)[k + |pat| - 1] in t;
    OccursChar(z + t, pat, k, |pat| - 1);
    if k + |pat| <= |z| {
      OccursInPrefix(z, t, pat, k);
    }
  }

  lemma PrintedWithoutMarker(c: CustomServer, text: string, i: nat)
    requires text == Print(c)
    ensures !Base64Pieces.MarkerThere(Base64Url.Encode(Utf8.Encode(text)), i)
  {
    PrintIsSolid(c, text);
    Utf8.DecodeEncode(text);
    Base64Pieces.NoMarker(Utf8.Encode(text), i);
  }

  lemma MirrorWithoutMarker(e: string, z: string, t: string)
    requires Mirror(z, e) && '-' !in t && forall i: nat :: !Base64Pieces.MarkerThere(e, i)
    ensures !Contains(z + t, LICENSED1)
  {
    forall k: nat | k <= |z + t| ensures !OccursAt(z + t, LICENSED1, k) {
      if OccursAt(z + t, LICENSED1, k) {
        WithinPayload(z, t, LICENSED1, k);
        MarkerMirrored(e, z, k);
      }
    }
  }

  /** The payload has no marker, with or without a copy suffix. */
  lemma NoMarkerInName(c: CustomServer, t: string)
    requires '-' !in t
    ensures !Contains(GenName(c) + t, LICENSED1)
  {
    var text := Print(c);
    var e := Base64Url.Encode(Utf8.Encode(text));
    forall i: nat ensures !Base64Pieces.MarkerThere(e, i) {
      PrintedWithoutMarker(c, text, i);
    }
    ReverseMirrors(e);
    MirrorWithoutMarker(e, Reverse(e), t);
  }

  lemma MarkerMirrored(e: string, z: string, k: nat)
    requires Mirror(z, e) && OccursAt(z, LICENSED1, k)
    ensures k + 10 <= |z| && Base64Pieces.MarkerThere(e, |z| - 10 - k)
  {
    var n := |e| - 10 - k;
    var x := z[k..k + 10];
    assert x[0] == z[k] && x[5] == z[k + 5] && x[6] == z[k + 6] && x[8] == z[k + 8] && x[9] == z[k + 9];
    assert x == LICENSED1;
    assert z[k] == e[|z| - 1 - k] && z[k + 5] == e[|z| - 1 - (k + 5)] && z[k + 6] == e[|z| - 1 - (k + 6)];
    assert z[k + 8] == e[|z| - 1 - (k + 8)] && z[k + 9] == e[|z| - 1 - (k + 9)];
  }

  lemma SameSlice(z: string, t: string, a: nat, b: nat)
    requires a <= b <= |z|
    ensures (z + t)[a..b] == z[a..b]
  {
  }

  lemma InnerPiece(z: string, t: string, k: nat, x: string)
    requires '-' !in t && k + |x| < |z + t| && x == (z + t)[k..k + |x|] && OccursAt(z + t, DASHES, k + |x|)
    requires k == 0 || (k >= 2 && OccursAt(z, DASHES, k - 2))
    ensures Placed(z, DASHES, k, x, k == 0)
  {
    WithinPayload(z, t, DASHES, k + |x|);
    SameSlice(z, t, k, k + |x|);
  }

  lemma LastPiece(z: string, t: string, k: nat, x: string)
    requires k <= |z| && x == (z + t)[k..]
    requires k == 0 || (k >= 2 && OccursAt(z, DASHES, k - 2))
    ensures Placed(z, DASHES, k, z[k..], k == 0) && x == z[k..] + t
  {
  }

  /** A piece of the payload with its suffix is a piece of the payload, perhaps with the suffix. */
  lemma CopiedPiece(z: string, t: string, k: nat, x: string, first: bool) returns (y: string)
    requires '-' !in t && Placed(z + t, DASHES, k, x, first)
    ensures Placed(z, DASHES, k, y, k == 0) && (x == y || x == y + t)
  {
    if !first {
      WithinPayload(z, t, DASHES, k - 2);
    }
    if k + |x| < |z + t| {
      InnerPiece(z, t, k, x);
      y := x;
    } else {
      LastPiece(z, t, k, x);
      y := z[k..];
    }
  }

  lemma ContainsInFront(z: string, t: string, pat: string)
    requires Contains(z, pat)
    ensures Contains(z + t, pat)
  {
    var j: nat :| j <= |z| && OccursAt(z, pat, j);
    OccursInPrefix(z, t, pat, j);
  }

  lemma WholeIsCut(z: string, y: string, x: string, t: string, k: nat)
    requires Contains(z, DASHES) && !Contains(x, DASHES) && (x == y || x == y + t)
    requires k + |y| <= |z| && y == z[k..k + |y|]
    ensures |y| < |z|
  {
    ContainsInFront(z, t, DASHES);
    assert |y| == |z| ==> y == z;
  }

  lemma CutPieceNotRead(
      c: CustomServer, verify: Verifier, e: string, z: string, ns: seq<nat>, k: nat, x: string, first: bool)
    requires NothingSigned(verify, c) && NoPieceReads(e, c) && Mirror(e, z) && Base64Url.Spelled(z)
    requires Contains(z, DASHES) && !Contains(x, DASHES) && Placed(z + Copies(ns), DASHES, k, x, first)
    ensures FromPiece(x, Reads(verify)) != Some(c)
  {
    CopiesChars(ns);
    var y := CopiedPiece(z, Copies(ns), k, x, first);
    WholeIsCut(z, y, x, Copies(ns), k);
    CutNotRead(c, verify, e, z, k, y);
    CopyNotRead(y, ns, c, verify);
    CopyNotRead(y, [], c, verify);
    assert y + Copies([]) == y;
  }

  lemma CutPiecesNotRead(c: CustomServer, verify: Verifier, e: string, z: string, ns: seq<nat>)
    requires NothingSigned(verify, c) && NoPieceReads(e, c) && Mirror(e, z) && Base64Url.Spelled(z)
    requires Contains(z, DASHES)
    ensures FirstPiece(Split(z + Copies(ns), DASHES), Reads(verify)) != Some(c)
  {
    var pieces := Split(z + Copies(ns), DASHES);
    forall i: nat | i < |pieces| ensures FromPiece(pieces[i], Reads(verify)) != Some(c) {
      var k := PiecePlace(z + Copies(ns), DASHES, pieces, i);
      PiecesLackPattern(z + Copies(ns), DASHES, i);
      CutPieceNotRead(c, verify, e, z, ns, k, pieces[i], i == 0);
    }
    PiecesNotRead(pieces, c, Reads(verify));
  }

  /** The name under which the program is shipped, with the suffixes of its duplicates. */
  function ShippedName(z: string, ns: seq<nat>): string {
    APP + LICENSED1 + z + Copies(ns) + ".exe"
  }

  lemma NameRead(z: string, ns: seq<nat>, read: Reader)
    requires ProgramName(APP, read) && Base64Url.Spelled(z) && z != [] && z[0] !in {'-', 'l'}
    requires !Contains(z + Copies(ns), LICENSED1)
    ensures FromString(ShippedName(z, ns), read) == FirstPiece(Split(z + Copies(ns), DASHES), read)
  {
    var w := z + Copies(ns);
    ShippedBody(z, ns);
    assert w + [] == w;
    LicensedName(APP, LICENSED1, z, Copies(ns), ".exe");
    AnyPayload(APP, w, ".exe", read);
    NoMarkerUnmark(w);
  }

  /** What is true of every payload. */
  ghost predicate PayloadShape(z: string) {
    && z != [] && z[0] !in {'-', 'l'} && z[|z| - 1] != '-' && !Contains(z, LICENSED1)
    && (|z| >= 9 ==> z[|z| - 9] != '-')
  }

  lemma ShieldMeaning(z: string)
    requires PayloadShape(z)
    ensures Shielded(z) <==> !Contains(z, DASHES)
  {
    forall k: nat | k < |z| ensures OccursAt(z + "-", DASHES, k) <==> OccursAt(z, DASHES, k) {
      DashesAtEnd(z, k);
    }
    forall k: nat | k < |z| ensures !OccursAt(z + "-", LICENSED1, k) {
      MarkerAtEnd(z, k);
    }
    assert !OccursAt(z, DASHES, |z|);
  }

  lemma DashesAtEnd(z: string, k: nat)
    requires k < |z| && z[|z| - 1] != '-'
    ensures OccursAt(z + "-", DASHES, k) <==> OccursAt(z, DASHES, k)
  {
    if k + 2 <= |z| {
      OccursInPrefix(z, "-", DASHES, k);
    } else if OccursAt(z + "-", DASHES, k) {
      OccursChar(z + "-", DASHES, k, 0);
    }
  }

  lemma MarkerAtEnd(z: string, k: nat)
    requires k < |z| && !Contains(z, LICENSED1) && (|z| >= 9 ==> z[|z| - 9] != '-')
    ensures !OccursAt(z + "-", LICENSED1, k)
  {
    assert k <= |z| && !OccursAt(z, LICENSED1, k);
    if k + 10 <= |z| {
      OccursInPrefix(z, "-", LICENSED1, k);
    } else if OccursAt(z + "-", LICENSED1, k) {
      OccursChar(z + "-", LICENSED1, k, 0);
    }
  }

  lemma PayloadHasShape(c: CustomServer, z: string)
    requires z == GenName(c)
    ensures PayloadShape(z)
  {
    PayloadEnds(c);
    NoMarkerInName(c, "");
    NoMarkerAtEnd(c);
    assert z + "" == z;
  }

  /** A payload that is not cut is shielded. */
  lemma UncutIsShielded(c: CustomServer)
    ensures Shielded(GenName(c)) <==> !Contains(GenName(c), DASHES)
  {
    PayloadHasShape(c, GenName(c));
    ShieldMeaning(GenName(c));
  }

  lemma NinthLetter(e: string, p: seq<bool>, b: seq<Byte>, z: string)
    requires Base64Pieces.Coded(e, p, b) && Base64Pieces.BytesFrom(b, 0) && Mirror(z, e) && |z| >= 9
    ensures z[|z| - 9] != '-'
  {
    assert z[|z| - 9] == e[|z| - 1 - (|z| - 9)];
    if e[8] == '-' {
      Base64Pieces.DashByte(e, p, b, 8, 6);
    }
  }

  /** Nor does it end in what a dash would make a marker: the ninth letter of an encoding starts a group. */
  lemma NoMarkerAtEnd(c: CustomServer)
    ensures |GenName(c)| >= 9 ==> GenName(c)[|GenName(c)| - 9] != '-'
  {
    var text := Print(c);
    PrintIsSolid(c, text);
    SolidNinth(c, Utf8.Encode(text), GenName(c));
  }

  lemma SolidNinth(c: CustomServer, b: seq<Byte>, z: string)
    requires Solid(b, c) && z == Reverse(Base64Url.Encode(b))
    ensures |z| >= 9 ==> z[|z| - 9] != '-'
  {
    if |z| >= 9 {
      ReverseMirrors(Base64Url.Encode(b));
      Base64Pieces.EncodingIsCoded(b);
      NinthLetter(Base64Url.Encode(b), Base64Url.Padded(b), b, z);
    }
  }

  /**
   Exactly which names give their configuration back: for every configuration, ASCII or not,
   and any number of duplicate suffixes, the shipped name parses to it if its payload holds no
   two dashes in a row, whatever the signature check says, and does not otherwise, unless
   something that reads as the configuration is signed.
   */
  lemma ShippedNameExact(c: CustomServer, verify: Verifier, ns: seq<nat>)
    ensures !Contains(GenName(c), DASHES) ==> FromString(ShippedName(GenName(c), ns), Reads(verify)) == Some(c)
    ensures NothingSigned(verify, c) ==>
      (FromString(ShippedName(GenName(c), ns), Reads(verify)) == Some(c) <==> !Contains(GenName(c), DASHES))
  {
    UncutIsShielded(c);
    if Shielded(GenName(c)) {
      ShieldedNameRead(c, verify, ns);
    } else if NothingSigned(verify, c) {
      CutNameNotRead(c, verify, ns);
    }
  }

  lemma ShieldedNameRead(c: CustomServer, verify: Verifier, ns: seq<nat>)
    requires Shielded(GenName(c))
    ensures FromString(ShippedName(GenName(c), ns), Reads(verify)) == Some(c)
  {
    LicensedName(APP, LICENSED1, GenName(c), Copies(ns), ".exe");
    AppIsProgramName(verify);
    CopiesAreSuffix(ns);
    PayloadSpelled(c);
    ShippedBody(GenName(c), ns);
    LowerDotExe();
    NameRoundTrip(c, verify, APP, LICENSED1, Copies(ns), 1, [], ".exe");
  }

  lemma CutNameNotRead(c: CustomServer, verify: Verifier, ns: seq<nat>)
    requires NothingSigned(verify, c) && Contains(GenName(c), DASHES)
    ensures FromString(ShippedName(GenName(c), ns), Reads(verify)) != Some(c)
  {
    var z, e := GenName(c), Base64Url.Encode(Utf8.Encode(Print(c)));
    PayloadEnds(c);
    PayloadSpelled(c);
    AppIsProgramName(verify);
    CopiesChars(ns);
    NoMarkerInName(c, Copies(ns));
    NameRead(z, ns, Reads(verify));
    PrintedPieces(c, Print(c));
    ReverseMirrors(e);
    CutPiecesNotRead(c, verify, e, z, ns);
  }

  lemma NoMarkerUnmark(z: string)
    requires !Contains(z, LICENSED1)
    ensures Unmark(z) == z
  {
    forall k: nat | k <= |z| ensures !OccursAt(z, LICENSED2, k) && !OccursAt(z, LICENSED3, k) {
      LongerLicensed(z, k);
    }
    ReplaceAbsent(z, LICENSED3, DASHES);
    ReplaceAbsent(z, LICENSED2, DASHES);
    ReplaceAbsent(z, LICENSED1, DASHES);
  }
}
