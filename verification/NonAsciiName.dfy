/**
 A configuration outside ASCII whose name the parser refuses: its key ends in a full-width
 exclamation mark, and its payload holds two dashes in a row.
 */
module NonAsciiName {
  import opened Prelude
  import opened Text
  import opened Json
  import opened CustomServerName
  import opened FileNames
  import opened CutNames
  import Utf8
  import Base64Url
  import Base64Pieces

  const WIDE_MARK: char := '\U{FF01}'
  const BAD_KEY: string := ['a', '3', WIDE_MARK]

  lemma EscapedCons(c: char, s: string, rest: string)
    requires c as int >= 32 && c != QUOTE && c != BACKSLASH
    ensures Escaped([c] + s, rest) == [c] + Escaped(s, rest)
  {
    assert ([c] + s)[1..] == s;
  }

  const BAD_FRONT := "{\"key\":\"a3"

  /** What follows the bad key in the printed text. */
  function AfterBadKey(c: CustomServer): string {
    Escaped([], [','] + From2(c))
  }

  lemma KeyName(value: string)
    ensures Escaped("key", value) == ['k', 'e', 'y', QUOTE] + value
  {
    EscapedCons('y', [], value);
    EscapedCons('e', "y", value);
    EscapedCons('k', "ey", value);
    assert ['k'] + "ey" == "key" && ['e'] + "y" == "ey" && ['y'] + [] == "y";
  }

  lemma BadKeyValue(tail: string)
    ensures Escaped(BAD_KEY, tail) == ['a', '3', WIDE_MARK] + Escaped([], tail)
  {
    EscapedCons(WIDE_MARK, [], tail);
    EscapedCons('3', [WIDE_MARK], tail);
    EscapedCons('a', ['3', WIDE_MARK], tail);
    assert ['a'] + ['3', WIDE_MARK] == BAD_KEY && ['3'] + [WIDE_MARK] == ['3', WIDE_MARK];
    assert [WIDE_MARK] + [] == [WIDE_MARK];
  }

  lemma BadKeyText(c: CustomServer)
    requires c.key == BAD_KEY
    ensures Print(c) == BAD_FRONT + ([WIDE_MARK] + AfterBadKey(c))
  {
    var tail := [','] + From2(c);
    BadKeyValue(tail);
    KeyName([':'] + Quoted(BAD_KEY, tail));
    Assemble(AfterBadKey(c));
  }

  lemma Assemble(x: string)
    ensures ['{'] + ([QUOTE] + (['k', 'e', 'y', QUOTE] + ([':'] + ([QUOTE] + (['a', '3', WIDE_MARK] + x)))))
      == BAD_FRONT + ([WIDE_MARK] + x)
  {
  }

  /** The fields beside the key. */
  ghost predicate OthersAscii(c: CustomServer) {
    Utf8.Ascii(c.host) && Utf8.Ascii(c.api) && Utf8.Ascii(c.relay)
  }

  lemma AfterBadKeyAscii(c: CustomServer)
    requires OthersAscii(c)
    ensures Utf8.Ascii(AfterBadKey(c)) && AfterBadKey(c) != []
  {
    MemberAscii("relay", c.relay, "}");
    MemberAscii("api", c.api, [','] + From4(c));
    MemberAscii("host", c.host, [','] + From3(c));
    EscapedAscii([], [','] + From2(c));
  }

  lemma BadFrontBytes()
    ensures |Utf8.Encode(BAD_FRONT)| == 10 && Utf8.Encode(BAD_FRONT)[9] == 0x33
    ensures Base64Url.SevenBit(Utf8.Encode(BAD_FRONT))
  {
    BadFrontAscii();
    AsciiBytes(BAD_FRONT);
  }

  lemma BadFrontAscii()
    ensures Utf8.Ascii(BAD_FRONT) && |BAD_FRONT| == 10 && BAD_FRONT[9] == '3'
  {
  }

  lemma WideMarkBytes()
    ensures Utf8.EncodeChar(WIDE_MARK) == [0xEF, 0xBC, 0x81]
  {
  }

  lemma AsciiBytes(s: string)
    requires Utf8.Ascii(s)
    ensures Base64Url.SevenBit(Utf8.Encode(s)) && |Utf8.Encode(s)| == |s|
    ensures forall i :: 0 <= i < |s| ==> Utf8.Encode(s)[i] == s[i] as int
  {
    Utf8.EncodeAscii(s);
  }

  /** The bytes behind the bad payload: all but three of them of seven bits. */
  lemma BadKeyBytes(c: CustomServer)
    requires c.key == BAD_KEY && OthersAscii(c)
    ensures var data := Utf8.Encode(Print(c));
      Base64Url.HoldsMarked(data) && forall q :: 0 <= q < |data| && !(10 <= q < 13) ==> data[q] < 0x80
  {
    var rest := AfterBadKey(c);
    BadKeyText(c);
    BadFrontBytes();
    WideMarkBytes();
    AfterBadKeyAscii(c);
    AsciiBytes(rest);
    Utf8.EncodeConcat(BAD_FRONT, [WIDE_MARK] + rest);
    Utf8.EncodeCons(WIDE_MARK, rest);
    ThreeParts(Utf8.Encode(BAD_FRONT), Utf8.Encode(rest), Utf8.Encode(Print(c)));
  }

  lemma ThreeParts(front: seq<Byte>, rest: seq<Byte>, data: seq<Byte>)
    requires data == front + ([0xEF, 0xBC, 0x81] + rest)
    requires |front| == 10 && front[9] == 0x33 && Base64Url.SevenBit(front) && Base64Url.SevenBit(rest) && rest != []
    ensures Base64Url.HoldsMarked(data) && forall q :: 0 <= q < |data| && !(10 <= q < 13) ==> data[q] < 0x80
  {
  }

  /** Where the encoding of these bytes has dashes. */
  lemma BadKeyDash(e: string, p: seq<bool>, b: seq<Byte>, i: nat, k: nat, r: nat)
    requires Base64Pieces.Coded(e, p, b) && i < |e| && e[i] == '-' && i == 4 * k + r && r < 3
    requires |b| > 13 && b[12] == 0x81 && forall q :: 0 <= q < |b| && !(10 <= q < 13) ==> b[q] < 0x80
    ensures i == 13 || i == 14
  {
    Base64Pieces.DashByte(e, p, b, i, 3 * k + r);
  }

  /** The encoding of the bad configuration: two dashes in a row, and otherwise dashes only four apart. */
  ghost predicate MarkedDashes(e: string) {
    && |e| > 16 && e[13] == '-' && e[14] == '-' && e[15] == '8' && e[16] == 'g'
    && forall i :: 0 <= i < |e| && e[i] == '-' ==> i % 4 == 3 || i == 13 || i == 14
  }

  lemma BadKeyDashes(c: CustomServer)
    requires c.key == BAD_KEY && OthersAscii(c)
    ensures MarkedDashes(Base64Url.Encode(Utf8.Encode(Print(c))))
  {
    BadKeyBytes(c);
    MarkedEncoding(Utf8.Encode(Print(c)));
  }

  lemma MarkedEncoding(b: seq<Byte>)
    requires Base64Url.HoldsMarked(b) && forall q :: 0 <= q < |b| && !(10 <= q < 13) ==> b[q] < 0x80
    ensures MarkedDashes(Base64Url.Encode(b))
  {
    var e := Base64Url.Encode(b);
    Base64Url.TwoDashes(b);
    Base64Pieces.EncodingIsCoded(b);
    forall i: nat | i < |e| && e[i] == '-' ensures i % 4 == 3 || i == 13 || i == 14 {
      if i % 4 < 3 {
        BadKeyDash(e, Base64Url.Padded(b), b, i, i / 4, i % 4);
      }
    }
  }

  lemma ReversedAt(e: string, z: string, i: nat)
    requires z == Reverse(e) && i < |e|
    ensures |z| == |e| && z[|e| - 1 - i] == e[i]
  {
  }

  lemma NoDashesBefore(e: string, z: string, k: nat)
    requires MarkedDashes(e) && z == Reverse(e) && k + 1 < |e| && k != |e| - 15
    ensures !OccursAt(z, DASHES, k)
  {
    var i := |e| - 1 - k;
    ReversedAt(e, z, i);
    ReversedAt(e, z, i - 1);
    assert z[k..k + 2][0] == z[k] && z[k..k + 2][1] == z[k + 1];
  }

  lemma MarkedBack(e: string, z: string, w: string)
    requires MarkedDashes(e) && z == Reverse(e) && |z| == |e| && w == z[|z| - 13..]
    ensures Split(w, DASHES) == [w]
  {
    forall k: nat | k < |w| ensures !OccursAt(w, DASHES, k) {
      if k + 2 <= |w| {
        NoDashesBefore(e, z, |z| - 13 + k);
        assert w[k..k + 2] == z[|z| - 13 + k..|z| - 13 + k + 2];
      }
    }
    SplitAbsent(w, DASHES);
  }

  /** The two pieces of the bad payload. */
  lemma MarkedSplit(e: string, z: string)
    requires MarkedDashes(e) && z == Reverse(e)
    ensures |z| == |e| && OccursAt(z, DASHES, |z| - 15)
    ensures Split(z, DASHES) == [z[..|z| - 15], z[|z| - 13..]]
  {
    var n := |e|;
    ReversedAt(e, z, 14);
    ReversedAt(e, z, 13);
    forall k: nat | k < n - 15 ensures !OccursAt(z, DASHES, k) {
      NoDashesBefore(e, z, k);
    }
    PairAt(z, n - 15);
    SplitAt(z, DASHES, n - 15);
    MarkedBack(e, z, z[n - 13..]);
  }

  lemma PairAt(z: string, k: nat)
    requires k + 1 < |z| && z[k] == '-' && z[k + 1] == '-'
    ensures OccursAt(z, DASHES, k)
  {
    assert z[k..k + 2] == DASHES;
  }

  lemma SpelledPiece(x: string, read: Reader)
    requires Base64Url.Spelled(x) && x != [] && read(x).None?
    ensures FromPiece(x, read).None?
  {
    TrimNothing(x);
    NoParenthesisNoParts(x, read);
  }

  lemma LeadIsNoText(b: seq<Byte>)
    requires b != [] && b[0] >= 0x80 && (|b| > 1 ==> b[1] < 0x80)
    ensures Utf8.Decode(b).None?
  {
    assert Utf8.DecodeChar(b).None?;
  }

  /** A verifier to which nothing is signed. */
  ghost predicate Refuses(verify: Verifier) {
    forall data: seq<Byte> :: verify(data).None?
  }

  /** The part of the bad payload behind the dashes decodes to bytes that are no text. */
  lemma MarkedPieceRefused(x: string, verify: Verifier)
    requires Refuses(verify) && |x| >= 2 && Reverse(x)[0] == '8' && Reverse(x)[1] == 'g'
    ensures Reads(verify)(x).None?
  {
    var e := Reverse(x);
    if Base64Url.Decode(e).Some? {
      Base64Url.EncodeDecode(e);
      Base64Url.LeadWithoutTail(Base64Url.Decode(e).value);
      LeadIsNoText(Base64Url.Decode(e).value);
    }
  }

  lemma MarkedPieces(e: string, z: string, verify: Verifier)
    requires Refuses(verify) && MarkedDashes(e) && z == Reverse(e) && Base64Url.Spelled(z)
    ensures |z| == |e| && FirstPiece([z[..|z| - 15], z[|z| - 13..]], Reads(verify)) == None
  {
    var x, y := z[..|z| - 15], z[|z| - 13..];
    assert Reverse(x) == e[15..];
    MarkedPieceRefused(x, verify);
    SpelledPiece(x, Reads(verify));
    LengthRefused(y, verify);
    SpelledPiece(y, Reads(verify));
    NoneOfTwo(x, y, Reads(verify));
  }

  lemma NoneOfTwo(x: string, y: string, read: Reader)
    requires FromPiece(x, read).None? && FromPiece(y, read).None?
    ensures FirstPiece([x, y], read) == None
  {
    FirstFails(x, [y], read);
    FirstFails(y, [], read);
    assert [x] + [y] == [x, y] && [y] + [] == [y];
  }

  /**
   The ASCII hypothesis is not idle.  A configuration whose key is "a3" and a full-width
   exclamation mark is shipped under a name that the parser refuses, whatever ASCII the other
   fields hold.
   */
  lemma NonAsciiNameRefused(c: CustomServer, verify: Verifier)
    requires c.key == BAD_KEY && OthersAscii(c) && Refuses(verify)
    ensures Contains(GenName(c), DASHES) && FromString(ShippedName(GenName(c), []), Reads(verify)) == None
  {
    var e, z := Base64Url.Encode(Utf8.Encode(Print(c))), GenName(c);
    PayloadEnds(c);
    PayloadSpelled(c);
    AppIsProgramName(verify);
    BadKeyDashes(c);
    NoMarkerInName(c, Copies([]));
    NameRead(z, [], Reads(verify));
    assert z + Copies([]) == z;
    MarkedSplit(e, z);
    MarkedPieces(e, z, verify);
  }
}
