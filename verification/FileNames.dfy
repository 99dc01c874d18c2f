/**
 The file-name parser undoes the file-name printer: no marker, separator or
 duplicate suffix around a payload can damage it.
 */
module FileNames {
  import opened Prelude
  import opened Text
  import opened Json
  import opened CustomServerName
  import Utf8
  import Base64Url

  const MARKERS: set<string> := {DASHES, LICENSED1, LICENSED2, LICENSED3}

  /** No separator and no marker starts in this text when a dash follows it. */
  ghost predicate Calm(x: string) {
    AbsentBefore(x + "-", DASHES, |x|) && AbsentBefore(x + "-", LICENSED1, |x|)
  }

  /** What the parser's separators and marker replacements leave alone behind a marker. */
  ghost predicate Shielded(z: string) {
    z != [] && z[0] !in {'-', 'l'} && Calm(z)
  }

  /** Nothing, or text set off by two dashes. */
  ghost predicate SetOff(t: string) {
    t == [] || StartsWith(t, DASHES)
  }

  /** What a file manager puts behind a duplicate: optional spaces, then text from "(" on. */
  ghost predicate CopySuffix(t: string, k: nat) {
    Calm(t) && (t == [] || (k < |t| && t[k] == '(' && forall i :: 0 <= i < k ==> IsSpace(t[i])))
  }

  /** A program name in front of the payload in which nothing reads as a payload. */
  ghost predicate ProgramName(p: string, read: Reader) {
    Calm(p) && FromPiece(p, read).None?
  }

  /** A text that reads as `c` and is made of base64 letters, so that trimming cannot change it. */
  ghost predicate Reading(z: string, c: CustomServer, read: Reader) {
    && z != [] && Base64Url.Spelled(z) && read(z) == Some(c)
  }

  /** A reader that accepts nothing with a parenthesis in it, as base64 has none. */
  ghost predicate RefusesParentheses(read: Reader) {
    forall s: string :: '(' in s ==> read(s).None?
  }

  lemma LongerLicensed(s: string, k: nat)
    ensures OccursAt(s, LICENSED2, k) ==> OccursAt(s, LICENSED1, k)
    ensures OccursAt(s, LICENSED3, k) ==> OccursAt(s, LICENSED1, k)
  {
    if OccursAt(s, LICENSED2, k) {
      assert s[k..k + 10] == s[k..k + 11][..10] == LICENSED1;
    }
    if OccursAt(s, LICENSED3, k) {
      assert s[k..k + 10] == s[k..k + 12][..10] == LICENSED1;
    }
  }

  lemma OccursChar(s: string, pat: string, k: nat, j: nat)
    requires OccursAt(s, pat, k) && j < |pat|
    ensures s[k + j] == pat[j]
  {
    assert s[k..k + |pat|][j] == s[k + j];
  }

  lemma OccursInPrefix(s: string, t: string, pat: string, k: nat)
    requires k + |pat| <= |s|
    ensures OccursAt(s + t, pat, k) <==> OccursAt(s, pat, k)
  {
    assert (s + t)[k..k + |pat|] == s[k..k + |pat|];
  }

  /** Nothing starts in a calm text that is followed by a dash or by nothing. */
  lemma CalmFront(x: string, y: string, pat: string, k: nat)
    requires Calm(x) && k < |x| && (y == [] || y[0] == '-')
    requires pat in {DASHES, LICENSED1, LICENSED2, LICENSED3}
    ensures !OccursAt(x + y, pat, k)
  {
    if y == [] {
      assert x + y == x;
      CalmShort(x, k);
    } else {
      assert x + y == x + "-" + y[1..];
      CalmLong(x, y[1..], k);
    }
    LongerLicensed(x + y, k);
  }

  lemma CalmShort(x: string, k: nat)
    requires Calm(x) && k < |x|
    ensures !OccursAt(x, DASHES, k) && !OccursAt(x, LICENSED1, k)
  {
    if k + 2 <= |x| {
      OccursInPrefix(x, "-", DASHES, k);
    }
    if k + 10 <= |x| {
      OccursInPrefix(x, "-", LICENSED1, k);
    }
  }

  lemma CalmLong(x: string, y: string, k: nat)
    requires Calm(x) && k < |x|
    ensures !OccursAt(x + "-" + y, DASHES, k) && !OccursAt(x + "-" + y, LICENSED1, k)
  {
    var s := x + "-" + y;
    OccursInPrefix(x + "-", y, DASHES, k);
    if k + 10 <= |x| + 1 {
      OccursInPrefix(x + "-", y, LICENSED1, k);
    } else if OccursAt(s, LICENSED1, k) {
      assert s[|x|] == '-';
      OccursChar(s, LICENSED1, k, |x| - k);
    }
  }

  lemma SetOffStart(t: string)
    requires SetOff(t)
    ensures t == [] || t[0] == '-'
  {
    if t != [] {
      OccursChar(t, DASHES, 0, 0);
    }
  }

  lemma ReplaceBehindShield(z: string, t: string, pat: string)
    requires Shielded(z) && SetOff(t) && pat in {LICENSED1, LICENSED2, LICENSED3}
    ensures Replace(z + t, pat, DASHES) == z + Replace(t, pat, DASHES)
  {
    SetOffStart(t);
    forall q: nat | q < |z| ensures !OccursAt(z + t, pat, q) {
      CalmFront(z, t, pat, q);
    }
    ReplaceAfter(z + t, pat, DASHES, |z|);
    assert (z + t)[|z|..] == t && (z + t)[..|z|] == z;
  }

  lemma ReplaceKeepsSetOff(t: string, pat: string)
    requires SetOff(t) && pat in {LICENSED1, LICENSED2, LICENSED3}
    ensures SetOff(Replace(t, pat, DASHES))
  {
    if t != [] {
      assert t[0] == '-' && t[1] == '-' by {
        OccursChar(t, DASHES, 0, 0);
        OccursChar(t, DASHES, 0, 1);
      }
      if OccursAt(t, pat, 0) {
        OccursChar(t, pat, 0, 1);
        assert false;
      }
      var rest := Replace(t[1..], pat, DASHES);
      assert Replace(t, pat, DASHES) == ['-'] + rest;
      assert rest[0] == '-';
    }
  }

  /** The replacement that matches the marker turns it into two dashes. */
  lemma MarkerReplaced(p: string, pat: string, z: string, t: string)
    requires Calm(p) && Shielded(z) && SetOff(t) && pat in {LICENSED1, LICENSED2, LICENSED3}
    ensures Replace(p + (pat + (z + t)), pat, DASHES) == p + (DASHES + (z + Replace(t, pat, DASHES)))
  {
    var s := p + (pat + (z + t));
    forall k: nat | k < |p| ensures !OccursAt(s, pat, k) {
      CalmFront(p, pat + (z + t), pat, k);
    }
    ReplaceAfter(s, pat, DASHES, |p|);
    assert s[|p|..] == pat + (z + t) && s[..|p|] == p;
    assert (pat + (z + t))[..|pat|] == pat && (pat + (z + t))[|pat|..] == z + t;
    ReplaceBehindShield(z, t, pat);
  }

  /** A replacement for a longer marker leaves a shorter one alone. */
  lemma MarkerKept(p: string, m: string, z: string, t: string, pat: string)
    requires Calm(p) && Shielded(z) && SetOff(t)
    requires m in MARKERS && pat in {LICENSED1, LICENSED2, LICENSED3} && |m| < |pat|
    ensures Replace(p + (m + (z + t)), pat, DASHES) == p + (m + (z + Replace(t, pat, DASHES)))
  {
    forall k: nat | k < |p| + |m| ensures !OccursAt(p + (m + (z + t)), pat, k) {
      NoLongerMarker(p, m, z + t, pat, k);
    }
    ReplaceBehindShield(z, t, pat);
    CopyFront(p, m, z + t, pat);
  }

  lemma Regroup(a: string, b: string, c: string)
    ensures a + b + c == a + (b + c)
  {
  }

  lemma CopyFront(p: string, m: string, y: string, pat: string)
    requires pat != [] && AbsentBefore(p + (m + y), pat, |p| + |m|)
    ensures Replace(p + (m + y), pat, DASHES) == p + (m + Replace(y, pat, DASHES))
  {
    var front := p + m;
    Regroup(p, m, y);
    ReplaceAfter(front + y, pat, DASHES, |front|);
    assert (front + y)[..|front|] == front && (front + y)[|front|..] == y;
    Regroup(p, m, Replace(y, pat, DASHES));
  }

  lemma NoLongerMarker(p: string, m: string, y: string, pat: string, k: nat)
    requires Calm(p) && y != [] && y[0] !in {'-', 'l'}
    requires m in MARKERS && pat in {LICENSED1, LICENSED2, LICENSED3} && |m| < |pat|
    requires k < |p| + |m|
    ensures !OccursAt(p + (m + y), pat, k)
  {
    var s := p + (m + y);
    var j := k - |p|;
    assert s[|p| + |m|] == y[0];
    if k < |p| {
      CalmFront(p, m + y, pat, k);
    } else if j == 0 {
      assert s[k + 1] == m[1];
      if OccursAt(s, pat, k) {
        OccursChar(s, pat, k, 1);
        OccursChar(s, pat, k, |m|);
      }
    } else {
      assert s[k] == m[j] && s[k + 1] == if j + 1 < |m| then m[j + 1] else y[0];
      if OccursAt(s, pat, k) {
        OccursChar(s, pat, k, 0);
        OccursChar(s, pat, k, 1);
      }
    }
  }

  /** Whatever the marker, the three replacements leave "--" in front of the payload. */
  lemma UnmarkPayload(p: string, m: string, z: string, t: string) returns (t': string)
    requires Calm(p) && Shielded(z) && SetOff(t) && m in MARKERS
    ensures SetOff(t') && Unmark(p + (m + (z + t))) == p + (DASHES + (z + t'))
  {
    var t3 := Replace(t, LICENSED3, DASHES);
    ReplaceKeepsSetOff(t, LICENSED3);
    var m3 := if m == LICENSED3 then DASHES else m;
    if m == LICENSED3 { MarkerReplaced(p, LICENSED3, z, t); } else { MarkerKept(p, m, z, t, LICENSED3); }
    var t2 := Replace(t3, LICENSED2, DASHES);
    ReplaceKeepsSetOff(t3, LICENSED2);
    var m2 := if m3 == LICENSED2 then DASHES else m3;
    if m3 == LICENSED2 { MarkerReplaced(p, LICENSED2, z, t3); } else { MarkerKept(p, m3, z, t3, LICENSED2); }
    t' := Replace(t2, LICENSED1, DASHES);
    ReplaceKeepsSetOff(t2, LICENSED1);
    if m2 == LICENSED1 { MarkerReplaced(p, LICENSED1, z, t2); } else { MarkerKept(p, m2, z, t2, LICENSED1); }
  }

  /** The first two pieces are the program name and the payload with its suffix. */
  lemma SplitPayload(p: string, z: string, t: string)
    requires Calm(p) && Shielded(z) && SetOff(t)
    ensures |Split(p + (DASHES + (z + t)), DASHES)| >= 2
    ensures Split(p + (DASHES + (z + t)), DASHES)[..2] == [p, z]
  {
    var s := p + (DASHES + (z + t));
    forall k: nat | k < |p| ensures !OccursAt(s, DASHES, k) {
      CalmFront(p, DASHES + (z + t), DASHES, k);
    }
    SetOffStart(t);
    assert s[|p|..|p| + 2] == DASHES;
    SplitAt(s, DASHES, |p|);
    assert s[|p| + 2..] == z + t && s[..|p|] == p;
    forall q: nat | q < |z| ensures !OccursAt(z + t, DASHES, q) {
      CalmFront(z, t, DASHES, q);
    }
    if t == [] {
      assert z + t == z;
      SplitAbsent(z, DASHES);
    } else {
      OccursChar(t, DASHES, 0, 0);
      OccursChar(t, DASHES, 0, 1);
      assert (z + t)[|z|..|z| + 2] == DASHES;
      SplitAt(z + t, DASHES, |z|);
      assert (z + t)[..|z|] == z;
    }
  }

  /** The bytes behind a payload start with '{' and end with '}'. */
  lemma PayloadBytes(c: CustomServer)
    ensures Utf8.Encode(Print(c)) != []
    ensures Utf8.Encode(Print(c))[0] == '{' as int
    ensures Utf8.Encode(Print(c))[|Utf8.Encode(Print(c))| - 1] == '}' as int
  {
    var text := Print(c);
    PrintShape(c);
    assert text == text[..|text| - 1] + "}";
    Utf8.EncodeConcat(text[..|text| - 1], "}");
    assert Utf8.Encode("}") == [125];
  }

  lemma PayloadEnds(c: CustomServer)
    ensures GenName(c) != [] && GenName(c)[0] in {'9', 'Q', '0'} && GenName(c)[|GenName(c)| - 1] != '-'
  {
    PayloadBytes(c);
    Base64Url.LastLetterAfterBrace(Utf8.Encode(Print(c)));
    Base64Url.FirstLetterNoDash(Utf8.Encode(Print(c)));
  }

  /** In the payload of an ASCII configuration, '-' stands at indices 3, 7, 11, ... from the end. */
  lemma AsciiDashes(c: CustomServer, j: nat)
    requires AsciiServer(c)
    requires j < |GenName(c)| && GenName(c)[j] == '-'
    ensures (|GenName(c)| - 1 - j) % 4 == 3
  {
    var data := Utf8.Encode(Print(c));
    PrintAscii(c);
    Utf8.EncodeAscii(Print(c));
    Base64Url.DashOnlyAtThreeModFour(data, |GenName(c)| - 1 - j);
  }

  ghost predicate DashesFourApart(z: string) {
    forall j :: 0 <= j < |z| && z[j] == '-' ==> (|z| - 1 - j) % 4 == 3
  }

  lemma FourApartShielded(z: string)
    requires z != [] && z[0] !in {'-', 'l'} && z[|z| - 1] != '-' && DashesFourApart(z)
    ensures Shielded(z)
  {
    forall k: nat | k < |z| ensures !OccursAt(z + "-", DASHES, k) {
      if OccursAt(z + "-", DASHES, k) {
        OccursChar(z + "-", DASHES, k, 0);
        OccursChar(z + "-", DASHES, k, 1);
      }
    }
    forall k: nat | k < |z| ensures !OccursAt(z + "-", LICENSED1, k) {
      if OccursAt(z + "-", LICENSED1, k) {
        OccursChar(z + "-", LICENSED1, k, 0);
        OccursChar(z + "-", LICENSED1, k, 9);
      }
    }
  }

  lemma AsciiFourApart(c: CustomServer)
    requires AsciiServer(c)
    ensures DashesFourApart(GenName(c))
  {
    forall j | 0 <= j < |GenName(c)| && GenName(c)[j] == '-' ensures (|GenName(c)| - 1 - j) % 4 == 3 {
      AsciiDashes(c, j);
    }
  }

  /** No separator and no marker starts in the payload of an ASCII configuration. */
  lemma AsciiPayloadShielded(c: CustomServer)
    requires AsciiServer(c)
    ensures Shielded(GenName(c))
  {
    PayloadEnds(c);
    AsciiFourApart(c);
    FourApartShielded(GenName(c));
  }

  /** A copy suffix does not break the shield. */
  lemma SuffixKeepsShield(z: string, t: string, k: nat)
    requires Shielded(z) && CopySuffix(t, k)
    ensures Shielded(z + t)
  {
    if t == [] {
      assert z + t == z;
    } else {
      assert t[0] != '-' && (IsSpace(t[0]) || t[0] == '(');
      forall q: nat | q < |z + t| ensures !OccursAt(z + t + "-", DASHES, q) && !OccursAt(z + t + "-", LICENSED1, q) {
        assert z + t + "-" == z + (t + "-");
        if q < |z| {
          SuffixStarts(z, t + "-", q);
        } else {
          OccursBehind(z, t + "-", DASHES, q - |z|);
          OccursBehind(z, t + "-", LICENSED1, q - |z|);
        }
      }
    }
  }

  lemma OccursBehind(x: string, y: string, pat: string, k: nat)
    ensures OccursAt(x + y, pat, |x| + k) <==> OccursAt(y, pat, k)
  {
    if k + |pat| <= |y| {
      assert (x + y)[|x| + k..|x| + k + |pat|] == y[k..k + |pat|];
    }
  }

  /** What starts in a calm text does not run into a copy suffix. */
  lemma SuffixStarts(z: string, y: string, q: nat)
    requires Calm(z) && y != [] && y[0] != '-' && (IsSpace(y[0]) || y[0] == '(') && q < |z|
    ensures !OccursAt(z + y, DASHES, q) && !OccursAt(z + y, LICENSED1, q)
  {
    assert (z + y)[|z|] == y[0];
    CalmShort(z, q);
    if q + 2 <= |z| {
      OccursInPrefix(z, y, DASHES, q);
    } else if OccursAt(z + y, DASHES, q) {
      OccursChar(z + y, DASHES, q, |z| - q);
    }
    if q + 10 <= |z| {
      OccursInPrefix(z, y, LICENSED1, q);
    } else if OccursAt(z + y, LICENSED1, q) {
      OccursChar(z + y, LICENSED1, q, |z| - q);
    }
  }

  /** A text that reads as a configuration does so behind its encoding, too. */
  lemma TextAccepted(text: string, c: CustomServer, verify: Verifier)
    requires Read(text) == Some(c)
    ensures Reads(verify)(Reverse(Base64Url.Encode(Utf8.Encode(text)))) == Some(c)
  {
    var data := Utf8.Encode(text);
    ReverseReverse(Base64Url.Encode(data));
    Base64Url.DecodeEncode(data);
    Utf8.DecodeEncode(text);
    assert ReadBytes(data) == Some(c);
  }

  /** A payload on its own is accepted, and gives the configuration it was made from. */
  lemma PayloadAccepted(c: CustomServer, verify: Verifier)
    ensures Reading(GenName(c), c, Reads(verify))
  {
    PayloadEnds(c);
    PayloadSpelled(c);
    ReadPrint(c);
    TextAccepted(Print(c), c, verify);
  }

  lemma ParenthesesRefused(verify: Verifier)
    ensures RefusesParentheses(Reads(verify))
  {
    forall s: string | '(' in s ensures Reads(verify)(s).None? {
      var i :| 0 <= i < |s| && s[i] == '(';
      Base64Url.ForeignCharFails(Reverse(s), |s| - 1 - i);
    }
  }

  lemma TrimNothing(s: string)
    requires s != [] && !IsSpace(s[0]) && !IsSpace(s[|s| - 1])
    ensures Trim(s) == s
  {
  }

  lemma TrimSuffix(z: string, spaces: string)
    requires z != [] && !IsSpace(z[0]) && !IsSpace(z[|z| - 1])
    requires forall i :: 0 <= i < |spaces| ==> IsSpace(spaces[i])
    ensures Trim(z + spaces) == z
  {
    assert (z + spaces)[0] == z[0];
    TrimEndSpaces(z, spaces);
  }

  /** The part in front of the first parenthesis. */
  lemma FirstPart(z: string, t: string, k: nat)
    requires z != [] && Base64Url.Spelled(z) && t != [] && CopySuffix(t, k)
    ensures Contains(z + t, OPEN)
    ensures Split(z + t, OPEN)[0] == z + t[..k]
  {
    var piece, n := z + t, |z| + k;
    assert piece[n..n + 1] == OPEN;
    assert OccursAt(piece, OPEN, n);
    forall q: nat | q < n ensures !OccursAt(piece, OPEN, q) {
      assert piece[q] == if q < |z| then z[q] else t[q - |z|];
      if OccursAt(piece, OPEN, q) {
        OccursChar(piece, OPEN, q, 0);
      }
    }
    SplitAt(piece, OPEN, n);
    assert piece[..n] == z + t[..k];
  }

  /** The payload is found in its piece, with or without a copy suffix. */
  lemma PieceAccepted(z: string, c: CustomServer, t: string, k: nat, read: Reader)
    requires Reading(z, c, read) && RefusesParentheses(read) && CopySuffix(t, k)
    ensures FromPiece(z + t, read) == Some(c)
  {
    if t == [] {
      assert z + t == z;
      TrimNothing(z);
    } else {
      assert (z + t)[|z| + k] == '(';
      TrimKeeps(z + t, '(');
      FirstPart(z, t, k);
      TrimSuffix(z, t[..k]);
    }
  }

  lemma NoDot(s: string, i: nat)
    requires i < |s| && '.' !in s
    ensures Lower(s)[i] != '.'
  {
  }

  lemma NoDotNoExtension(body: string)
    requires '.' !in body
    ensures !EndsWith(Lower(body), ".exe")
  {
    if 4 <= |body| {
      NoDot(body, |body| - 4);
      assert Lower(body)[|body| - 4..][0] == Lower(body)[|body| - 4];
    }
  }

  /** An extension that is all of what the parser takes off. */
  ghost predicate Extended(body: string, ext: string) {
    Lower(ext) == ".exe.exe" || (Lower(ext) in {"", ".exe"} && !EndsWith(Lower(body), ".exe"))
  }

  /** The extension goes, and only the extension. */
  lemma ExtensionStripped(body: string, ext: string)
    requires Extended(body, ext)
    ensures StripExe(body + ext) == body
  {
    var s := body + ext;
    var low := Lower(s);
    assert |ext| == |Lower(ext)|;
    assert low == Lower(body) + Lower(ext);
    assert s[..|body|] == body;
    if ext == [] {
      assert s == body;
      assert |s| >= 8 ==> low[|s| - 8..][4..] == low[|s| - 4..];
    } else if |ext| == 4 && |s| >= 8 {
      assert low[|s| - 8..][..4] == Lower(body)[|body| - 4..];
    } else if |ext| == 8 {
      assert low[|s| - 8..] == ".exe.exe";
    }
  }

  lemma NoHostToken(body: string)
    requires '=' !in body
    ensures !Contains(Lower(body), HOST)
  {
    forall k: nat | k <= |body| ensures !OccursAt(Lower(body), HOST, k) {
      if k + 5 <= |body| {
        assert Lower(body)[k + 4] == LowerChar(body[k + 4]) && body[k + 4] in body;
        if OccursAt(Lower(body), HOST, k) {
          OccursChar(Lower(body), HOST, k, 4);
        }
      }
    }
  }

  /** The first two pieces of a body whose marker stands in front of a shielded text. */
  lemma BodyPieces(p: string, m: string, z: string, tail: string)
    requires Calm(p) && m in MARKERS && Shielded(z) && SetOff(tail)
    ensures |Split(Unmark(p + (m + (z + tail))), DASHES)| >= 2
    ensures Split(Unmark(p + (m + (z + tail))), DASHES)[..2] == [p, z]
  {
    var tail' := UnmarkPayload(p, m, z, tail);
    SplitPayload(p, z, tail');
  }

  lemma FirstOfTwo(pieces: seq<string>, p: string, z: string, c: CustomServer, read: Reader)
    requires |pieces| >= 2 && pieces[..2] == [p, z]
    requires ProgramName(p, read) && FromPiece(z, read) == Some(c)
    ensures FirstPiece(pieces, read) == Some(c)
  {
    assert pieces[0] == pieces[..2][0] && pieces[1..][0] == pieces[..2][1];
  }

  lemma BodyParsed(p: string, m: string, z: string, tail: string, ext: string, c: CustomServer, read: Reader)
    requires ProgramName(p, read) && m in MARKERS && Shielded(z) && SetOff(tail)
    requires Extended(p + (m + (z + tail)), ext) && !Contains(Lower(p + (m + (z + tail))), HOST)
    requires FromPiece(z, read) == Some(c)
    ensures FromString(p + (m + (z + tail)) + ext, read) == Some(c)
  {
    var body := p + (m + (z + tail));
    ExtensionStripped(body, ext);
    BodyPieces(p, m, z, tail);
    FirstOfTwo(Split(Unmark(body), DASHES), p, z, c, read);
  }

  /**
   The round trip.  Between a program name and an extension, after any of the four
   markers, in front of any duplicate suffix and any text set off by two dashes, a
   shielded payload gives back exactly the configuration it was printed from, provided
   that the name does not hold "host=", which selects the readable form.
   */
  lemma NameRoundTrip(
      c: CustomServer, verify: Verifier, p: string, m: string, t: string, k: nat, tail: string, ext: string)
    requires Shielded(GenName(c))
    requires ProgramName(p, Reads(verify)) && m in MARKERS && CopySuffix(t, k) && SetOff(tail)
    requires var body := p + (m + (GenName(c) + t + tail)); Extended(body, ext) && !Contains(Lower(body), HOST)
    ensures FromString(p + (m + (GenName(c) + t + tail)) + ext, Reads(verify)) == Some(c)
  {
    PayloadAccepted(c, verify);
    ParenthesesRefused(verify);
    PayloadRoundTrip(GenName(c), c, Reads(verify), p, m, t, k, tail, ext);
  }

  /**
   The same for a payload that is no configuration itself but signed data: its name gives the
   configuration that was signed.
   */
  lemma SignedNameRoundTrip(
      data: seq<Byte>, c: CustomServer, verify: Verifier, p: string, m: string, t: string, k: nat, tail: string,
      ext: string)
    requires ReadBytes(data).None? && verify(data) == Some(Utf8.Encode(Print(c)))
    requires Shielded(Reverse(Base64Url.Encode(data)))
    requires ProgramName(p, Reads(verify)) && m in MARKERS && CopySuffix(t, k) && SetOff(tail)
    requires var body := p + (m + (Reverse(Base64Url.Encode(data)) + t + tail));
      Extended(body, ext) && !Contains(Lower(body), HOST)
    ensures FromString(p + (m + (Reverse(Base64Url.Encode(data)) + t + tail)) + ext, Reads(verify)) == Some(c)
  {
    var z := Reverse(Base64Url.Encode(data));
    SignedAccepted(data, c, verify);
    Base64Url.AlphabetOnly(data);
    ParenthesesRefused(verify);
    PayloadRoundTrip(z, c, Reads(verify), p, m, t, k, tail, ext);
  }

  lemma SignedAccepted(data: seq<Byte>, c: CustomServer, verify: Verifier)
    requires ReadBytes(data).None? && verify(data) == Some(Utf8.Encode(Print(c)))
    ensures Reads(verify)(Reverse(Base64Url.Encode(data))) == Some(c)
  {
    ReverseReverse(Base64Url.Encode(data));
    Base64Url.DecodeEncode(data);
    Utf8.DecodeEncode(Print(c));
    ReadPrint(c);
  }

  lemma PayloadRoundTrip(
      z: string, c: CustomServer, read: Reader, p: string, m: string, t: string, k: nat, tail: string, ext: string)
    requires Shielded(z) && Reading(z, c, read) && RefusesParentheses(read)
    requires ProgramName(p, read) && m in MARKERS && CopySuffix(t, k) && SetOff(tail)
    requires Extended(p + (m + (z + t + tail)), ext) && !Contains(Lower(p + (m + (z + t + tail))), HOST)
    ensures FromString(p + (m + (z + t + tail)) + ext, read) == Some(c)
  {
    SuffixKeepsShield(z, t, k);
    PieceAccepted(z, c, t, k, read);
    BodyParsed(p, m, z + t, tail, ext, c, read);
  }

  /** The suffixes " (n)" that Windows appends to duplicates. */
  function Copies(ns: seq<nat>): string {
    if ns == [] then [] else " (" + Decimal(ns[0]) + ")" + Copies(ns[1..])
  }

  lemma {:induction false} CopiesChars(ns: seq<nat>)
    ensures '-' !in Copies(ns) && '.' !in Copies(ns) && '=' !in Copies(ns)
  {
    if ns != [] {
      CopiesChars(ns[1..]);
    }
  }

  lemma NoDashCalm(x: string)
    requires '-' !in x
    ensures Calm(x)
  {
    forall k: nat | k < |x| ensures !OccursAt(x + "-", DASHES, k) && !OccursAt(x + "-", LICENSED1, k) {
      assert (x + "-")[k] == x[k];
      if OccursAt(x + "-", DASHES, k) {
        OccursChar(x + "-", DASHES, k, 0);
      }
      if OccursAt(x + "-", LICENSED1, k) {
        OccursChar(x + "-", LICENSED1, k, 0);
      }
    }
  }

  lemma CopiesAreSuffix(ns: seq<nat>)
    ensures CopySuffix(Copies(ns), 1)
  {
    CopiesChars(ns);
    NoDashCalm(Copies(ns));
  }

  const APP := "anuvadini"

  lemma LengthRefused(s: string, verify: Verifier)
    requires |s| % 4 == 1
    ensures Reads(verify)(s).None?
  {
    Base64Url.OneLeftOverFails(Reverse(s));
  }

  lemma AppLetters()
    ensures |APP| == 9 && Trim(APP) == APP && '-' !in APP && '.' !in APP && '=' !in APP && '(' !in APP
  {
    TrimNothing(APP);
  }

  /** The nine letters of the program's name are no payload. */
  lemma AppIsProgramName(verify: Verifier)
    ensures ProgramName(APP, Reads(verify))
  {
    AppLetters();
    LengthRefused(APP, verify);
    NoDashCalm(APP);
    NoParenthesisNoParts(APP, Reads(verify));
  }

  lemma NoParenthesisNoParts(s: string, read: Reader)
    requires '(' !in s && read(Trim(s)).None?
    ensures FromPiece(s, read).None?
  {
    forall k: nat | k <= |s| ensures !OccursAt(s, OPEN, k) {
      if OccursAt(s, OPEN, k) {
        OccursChar(s, OPEN, k, 0);
      }
    }
  }

  /** A name without dots and equals signs has no extension left in it and no "host=". */
  lemma PlainBody(body: string, ext: string)
    requires '.' !in body && '=' !in body && Lower(ext) in {"", ".exe", ".exe.exe"}
    ensures Extended(body, ext) && !Contains(Lower(body), HOST)
  {
    NoDotNoExtension(body);
    NoHostToken(body);
  }

  lemma LowerDotExe()
    ensures Lower(".exe") == ".exe"
  {
  }

  lemma LicensedName(p: string, m: string, z: string, t: string, ext: string)
    ensures p + (m + (z + t + [])) + ext == p + m + z + t + ext
  {
    assert z + t + [] == z + t;
  }

  /**
   For every configuration with ASCII fields, the name the program is shipped under,
   with any number of duplicate suffixes, parses back to that configuration, whatever
   the signature check would say.
   */
  lemma LicensedNameRoundTrip(c: CustomServer, verify: Verifier, ns: seq<nat>)
    requires AsciiServer(c)
    ensures FromString(APP + LICENSED1 + GenName(c) + Copies(ns) + ".exe", Reads(verify)) == Some(c)
  {
    LicensedName(APP, LICENSED1, GenName(c), Copies(ns), ".exe");
    AsciiPayloadShielded(c);
    AppIsProgramName(verify);
    CopiesAreSuffix(ns);
    PayloadSpelled(c);
    ShippedBody(GenName(c), ns);
    NameRoundTrip(c, verify, APP, LICENSED1, Copies(ns), 1, [], ".exe");
  }

  lemma SpelledPlain(z: string)
    requires Base64Url.Spelled(z)
    ensures '.' !in z && '=' !in z
  {
  }

  lemma JoinedPlain(c: char, p: string, m: string, z: string, t: string)
    requires c !in p && c !in m && c !in z && c !in t
    ensures c !in p + (m + (z + t + []))
  {
  }

  lemma PayloadSpelled(c: CustomServer)
    ensures Base64Url.Spelled(GenName(c))
  {
    Base64Url.AlphabetOnly(Utf8.Encode(Print(c)));
  }

  lemma ShippedBody(z: string, ns: seq<nat>)
    requires Base64Url.Spelled(z)
    ensures var body := APP + (LICENSED1 + (z + Copies(ns) + []));
      Extended(body, ".exe") && !Contains(Lower(body), HOST)
  {
    SpelledPlain(z);
    CopiesChars(ns);
    AppLetters();
    LowerDotExe();
    JoinedPlain('.', APP, LICENSED1, z, Copies(ns));
    JoinedPlain('=', APP, LICENSED1, z, Copies(ns));
    PlainBody(APP + (LICENSED1 + (z + Copies(ns) + [])), ".exe");
  }
}
