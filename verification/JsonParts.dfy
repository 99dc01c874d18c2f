/**
 What parts of a printed configuration can be read as: how long a text that reads as it must
 be, what follows a character outside ASCII, and what stands between two such characters.
 */
module JsonParts {
  import opened Prelude
  import opened Json
  import opened Utf8
  import Base64Pieces

  // ----- The printed text, field by field -----

  function EscapeAll(s: string): string {
    if s == [] then [] else Escape(s[0]) + EscapeAll(s[1..])
  }

  lemma {:induction false} EscapedForm(s: string, rest: string)
    ensures Escaped(s, rest) == EscapeAll(s) + ([QUOTE] + rest)
  {
    if s != [] {
      EscapedForm(s[1..], rest);
      Regroup(Escape(s[0]), EscapeAll(s[1..]), [QUOTE] + rest);
    }
  }

  lemma Regroup(x: string, y: string, z: string)
    ensures x + y + z == x + (y + z)
  {
  }

  predicate PlainChar(c: char) {
    32 <= c as int < 128 && c != QUOTE && c != BACKSLASH
  }

  predicate Plain(s: string) {
    forall c :: c in s ==> PlainChar(c)
  }

  lemma {:induction false} EscapeAllPlain(s: string)
    requires Plain(s)
    ensures EscapeAll(s) == s
  {
    if s != [] {
      assert PlainChar(s[0]) && Escape(s[0]) == [s[0]];
      EscapeAllPlain(s[1..]);
    }
  }

  /** From the end of one value to the start of the next. */
  function Header(name: string): string {
    [QUOTE, ',', QUOTE] + (name + [QUOTE, ':', QUOTE])
  }

  lemma MemberForm(name: string, value: string, rest: string)
    requires Plain(name)
    ensures [QUOTE] + ([','] + Member(name, value, rest)) == Header(name) + Escaped(value, rest)
  {
    EscapeAllPlain(name);
    EscapedForm(name, [':'] + Quoted(value, rest));
    HeaderForm(name, Escaped(value, rest));
  }

  lemma HeaderForm(name: string, x: string)
    ensures [QUOTE] + ([','] + ([QUOTE] + (name + ([QUOTE] + ([':'] + ([QUOTE] + x)))))) == Header(name) + x
  {
  }

  const CLOSING: string := [QUOTE, '}']
  const OPENING := "{\"key\":\""

  // The printed text from the start of each value on.
  function Tail4(c: CustomServer): string { EscapeAll(c.relay) + CLOSING }
  function Tail3(c: CustomServer): string { EscapeAll(c.api) + (Header("relay") + Tail4(c)) }
  function Tail2(c: CustomServer): string { EscapeAll(c.host) + (Header("api") + Tail3(c)) }
  function Tail1(c: CustomServer): string { EscapeAll(c.key) + (Header("host") + Tail2(c)) }

  lemma TailForm(name: string, value: string, rest: string, tail: string, before: string)
    requires Plain(name) && Escaped(value, rest) == tail
    ensures Escaped(before, [','] + Member(name, value, rest)) == EscapeAll(before) + (Header(name) + tail)
  {
    EscapedForm(before, [','] + Member(name, value, rest));
    MemberForm(name, value, rest);
  }

  lemma PrintForm(c: CustomServer)
    ensures Print(c) == OPENING + Tail1(c)
  {
    EscapedForm(c.relay, "}");
    assert [QUOTE] + "}" == CLOSING;
    TailForm("relay", c.relay, "}", Tail4(c), c.api);
    TailForm("api", c.api, [','] + From4(c), Tail3(c), c.host);
    TailForm("host", c.host, [','] + From3(c), Tail2(c), c.key);
    EscapeAllPlain("key");
    EscapedForm("key", [':'] + Quoted(c.key, [','] + From2(c)));
    OpeningForm(Tail1(c));
  }

  lemma OpeningForm(x: string)
    ensures ['{'] + ([QUOTE] + ("key" + ([QUOTE] + ([':'] + ([QUOTE] + x))))) == OPENING + x
  {
  }

  lemma {:induction false} EscapeAllPrintable(s: string)
    ensures forall i :: 0 <= i < |EscapeAll(s)| ==> EscapeAll(s)[i] as int >= 32
  {
    if s != [] {
      EscapeAllPrintable(s[1..]);
      assert forall i :: 0 <= i < |Escape(s[0])| ==> Escape(s[0])[i] as int >= 32;
    }
  }

  ghost predicate Printable(s: string) {
    forall i :: 0 <= i < |s| ==> s[i] as int >= 32
  }

  lemma PrintableHeaders()
    ensures Printable(Header("host")) && Printable(Header("api")) && Printable(Header("relay"))
    ensures Printable(OPENING) && Printable(CLOSING)
  {
  }

  /** A printed configuration has no control characters. */
  lemma PrintPrintable(c: CustomServer)
    ensures Printable(Print(c))
  {
    PrintForm(c);
    PrintableHeaders();
    EscapeAllPrintable(c.key);
    EscapeAllPrintable(c.host);
    EscapeAllPrintable(c.api);
    EscapeAllPrintable(c.relay);
    assert Printable(Tail4(c));
    assert Printable(Header("relay") + Tail4(c)) && Printable(Tail3(c));
    assert Printable(Header("api") + Tail3(c)) && Printable(Tail2(c));
    assert Printable(Header("host") + Tail2(c)) && Printable(Tail1(c));
  }

  // ----- A text that reads as a configuration has room for each of its fields -----

  /** The number of bytes of a text. */
  function Size(s: string): nat {
    |Encode(s)|
  }

  /** What a value takes in the printed text, with its closing quote. */
  function EscapedSize(s: string): nat {
    Size(EscapeAll(s)) + 1
  }

  lemma SizeConcat(s: string, t: string)
    ensures Size(s + t) == Size(s) + Size(t)
  {
    EncodeConcat(s, t);
  }

  lemma {:induction false} SizeDrop(s: string, k: nat)
    requires k <= |s|
    ensures Size(s[k..]) + k <= Size(s)
  {
    if k > 0 {
      SizeDrop(s[1..], k - 1);
      assert s[1..][k - 1..] == s[k..];
    } else {
      assert s[0..] == s;
    }
  }

  lemma EscapedMore(c: char, v: string)
    ensures EscapedSize([c] + v) == Size(Escape(c)) + EscapedSize(v)
  {
    assert ([c] + v)[1..] == v;
    SizeConcat(Escape(c), EscapeAll(v));
  }

  lemma EscapeSize(c: char)
    ensures Escape(c)[0] == BACKSLASH ==> Size(Escape(c)) == |Escape(c)| && |Escape(c)| in {2, 6}
    ensures Escape(c)[0] != BACKSLASH ==> Escape(c) == [c] && Size(Escape(c)) == |EncodeChar(c)|
    ensures Size(Escape(c)) <= 6 && (c as int in {8, 9, 10, 12, 13, 34, 47, 92} ==> Size(Escape(c)) <= 2)
  {
    if Escape(c)[0] == BACKSLASH {
      EncodeAscii(Escape(c));
    } else {
      EncodeCons(c, []);
      assert [c] + [] == [c];
    }
  }

  /** An escape takes no fewer bytes than the printer's. */
  lemma EscapeRead(t: string)
    requires ReadEscape(t).Some?
    ensures Size(Escape(ReadEscape(t).value.0)) <= 1 + ReadEscape(t).value.1
  {
    EscapeSize(ReadEscape(t).value.0);
  }

  lemma {:induction false} StringSize(s: string)
    requires ReadString(s).Some?
    ensures EscapedSize(ReadString(s).value.0) + Size(ReadString(s).value.1) <= Size(s)
    decreases |s|
  {
    if s[0] == QUOTE {
      SizeDrop(s, 1);
    } else if s[0] == BACKSLASH {
      var (c, k) := ReadEscape(s[1..]).value;
      StringSize(s[1 + k..]);
      SizeDrop(s, 1 + k);
      EscapeRead(s[1..]);
      EscapedMore(c, ReadString(s[1 + k..]).value.0);
    } else {
      StringSize(s[1..]);
      EscapeSize(s[0]);
      EscapedMore(s[0], ReadString(s[1..]).value.0);
    }
  }

  lemma {:induction false} SkipSize(s: string)
    ensures Size(SkipSpace(s)) <= Size(s)
  {
    if SkipSpace(s) != s {
      SkipSize(s[1..]);
      SizeDrop(s, 1);
    }
  }

  lemma QuotedSize(s: string)
    requires ReadQuoted(s).Some?
    ensures EscapedSize(ReadQuoted(s).value.0) + Size(ReadQuoted(s).value.1) < Size(s)
  {
    StringSize(s[1..]);
    SizeDrop(s, 1);
  }

  lemma MemberSize(s: string)
    requires ReadMember(s).Some?
    ensures EscapedSize(ReadMember(s).value.1) + Size(ReadMember(s).value.2) < Size(s)
  {
    var afterName := ReadQuoted(s).value.1;
    var colon := SkipSpace(afterName);
    QuotedSize(s);
    SkipSize(afterName);
    SizeDrop(colon, 1);
    SkipSize(colon[1..]);
    QuotedSize(SkipSpace(colon[1..]));
  }

  ghost predicate MembersFit(m: map<string, string>, seen: map<string, string>, n: nat) {
    forall name :: name in m ==> (name in seen && m[name] == seen[name]) || EscapedSize(m[name]) <= n
  }

  lemma {:induction false} MembersSize(s: string, seen: map<string, string>, first: bool)
    requires ReadMembers(s, seen, first).Some?
    ensures MembersFit(ReadMembers(s, seen, first).value.0, seen, Size(s))
    decreases |s|
  {
    var t := SkipSpace(s);
    SkipSize(s);
    if t[0] != '}' {
      SizeDrop(t, 1);
      SkipSize(t[1..]);
      var u := if first then t else SkipSpace(t[1..]);
      MemberSize(u);
      var (name, value, rest) := ReadMember(u).value;
      MembersSize(rest, if name in FIELDS then seen[name := value] else seen, false);
    }
  }

  ghost predicate ElementsFit(v: seq<string>, before: seq<string>, n: nat) {
    forall i :: 0 <= i < |v| ==> (i < |before| && v[i] == before[i]) || EscapedSize(v[i]) <= n
  }

  lemma {:induction false} ElementsSize(s: string, values: seq<string>)
    requires ReadElements(s, values).Some?
    ensures ElementsFit(ReadElements(s, values).value.0, values, Size(s))
    decreases |s|
  {
    var t := SkipSpace(s);
    SkipSize(s);
    if t[0] != ']' {
      SizeDrop(t, 1);
      SkipSize(t[1..]);
      var u := if values == [] then t else SkipSpace(t[1..]);
      QuotedSize(u);
      var (v, rest) := ReadQuoted(u).value;
      ElementsSize(rest, values + [v]);
    }
  }

  ghost predicate FieldsFit(c: CustomServer, n: nat) {
    EscapedSize(c.key) <= n && EscapedSize(c.host) <= n && EscapedSize(c.api) <= n && EscapedSize(c.relay) <= n
  }

  /** Whatever reads as a configuration is at least as long as each of its printed fields. */
  lemma ReadSize(s: string)
    requires Read(s).Some?
    ensures FieldsFit(Read(s).value, Size(s))
  {
    var t := SkipSpace(s);
    SkipSize(s);
    SizeDrop(t, 1);
    assert EscapedSize("") == 1;
    if t[0] == '{' {
      MembersSize(t[1..], map[], true);
    } else {
      ElementsSize(t[1..], []);
    }
  }

  // ----- The rest of a value and what follows it is no configuration -----

  /** What may follow a value: the end, or the name of the next member. */
  predicate Closes(y: string) {
    y == CLOSING || (|y| > 3 && y[0] == QUOTE && y[1] == ',' && y[2] == QUOTE && y[3] in {'h', 'a', 'r'})
  }

  lemma EscapedHead(v: string, y: string)
    requires v != []
    ensures var s := EscapeAll(v) + y;
      && (s[0] == BACKSLASH || (s[0] == v[0] && v[0] != QUOTE && s[1..] == EscapeAll(v[1..]) + y))
      && s[0] !in {QUOTE, '\n', '\t', '\r'}
  {
    Regroup(Escape(v[0]), EscapeAll(v[1..]), y);
    if Escape(v[0])[0] != BACKSLASH {
      assert Escape(v[0]) == [v[0]];
      assert ([v[0]] + (EscapeAll(v[1..]) + y))[1..] == EscapeAll(v[1..]) + y;
    }
  }

  lemma QuoteAhead(y: string)
    requires Closes(y)
    ensures y != [] && y[0] == QUOTE
    ensures ReadQuoted(y).None? || (ReadQuoted(y) == Some(([','], y[3..])) && y[3] in {'h', 'a', 'r'})
  {
    if y == CLOSING {
      assert y[1..] == "}" && "}"[1..] == "";
    } else {
      assert y[1..][0] == ',' && y[1..][1..] == y[2..] && y[2..][0] == QUOTE && y[2..][1..] == y[3..];
      assert ReadString(y[2..]) == Some(([], y[3..]));
      assert [','] + [] == [','];
      assert ReadString(y[1..]) == Some(([','], y[3..]));
    }
  }

  lemma {:induction false} SpaceLeft(v: string, y: string)
    requires Closes(y)
    ensures SkipSpace(EscapeAll(v) + y) != []
  {
    if v == [] {
      assert EscapeAll(v) + y == y;
      QuoteAhead(y);
    } else {
      EscapedHead(v, y);
      if (EscapeAll(v) + y)[0] == ' ' {
        SpaceLeft(v[1..], y);
      }
    }
  }

  lemma {:induction false} ObjectRest(v: string, y: string)
    requires Closes(y)
    ensures ReadObject(EscapeAll(v) + y).None?
  {
    var s := EscapeAll(v) + y;
    if v == [] {
      assert s == y;
      QuoteAhead(y);
    } else {
      EscapedHead(v, y);
      if s[0] == ' ' {
        ObjectRest(v[1..], y);
      } else if s[0] == '}' {
        SpaceLeft(v[1..], y);
      }
    }
  }

  lemma NoNextElement(s: string, values: seq<string>)
    requires s != [] && s[0] in {'h', 'a', 'r'} && values != []
    ensures ReadElements(s, values).None?
  {
  }

  lemma {:induction false} ArrayRest(v: string, y: string)
    requires Closes(y)
    ensures ReadArray(EscapeAll(v) + y).None?
  {
    var s := EscapeAll(v) + y;
    if v == [] {
      assert s == y;
      QuoteAhead(y);
      if ReadQuoted(y).Some? {
        assert [] + [[',']] == [[',']];
        NoNextElement(y[3..], [[',']]);
      }
    } else {
      EscapedHead(v, y);
      if s[0] == ' ' {
        ArrayRest(v[1..], y);
      } else if s[0] == ']' {
        SpaceLeft(v[1..], y);
      }
    }
  }

  lemma {:induction false} ValueRest(v: string, y: string)
    requires Closes(y)
    ensures Read(EscapeAll(v) + y).None?
  {
    var s := EscapeAll(v) + y;
    if v == [] {
      assert s == y;
      QuoteAhead(y);
    } else {
      EscapedHead(v, y);
      if s[0] == ' ' {
        ValueRest(v[1..], y);
      } else if s[0] == '{' {
        ObjectRest(v[1..], y);
      } else if s[0] == '[' {
        ArrayRest(v[1..], y);
      }
    }
  }

  /** What follows a character outside ASCII does not read as anything. */
  ghost predicate RestsFail(x: string) {
    forall i :: 1 <= i <= |x| && x[i - 1] >= 128 as char ==> Read(x[i..]).None?
  }

  lemma RestsBehindAscii(front: string, x: string)
    requires Ascii(front) && RestsFail(x)
    ensures RestsFail(front + x)
  {
    forall i | 1 <= i <= |front + x| && (front + x)[i - 1] >= 128 as char ensures Read((front + x)[i..]).None? {
      assert i > |front|;
      assert (front + x)[i..] == x[i - |front|..] && (front + x)[i - 1] == x[i - |front| - 1];
    }
  }

  lemma {:induction false} RestsOfValue(v: string, y: string)
    requires Closes(y) && RestsFail(y)
    ensures RestsFail(EscapeAll(v) + y)
  {
    if v == [] {
      assert EscapeAll(v) + y == y;
    } else {
      RestsOfValue(v[1..], y);
      ValueRest(v[1..], y);
      RestsOfChar(v[0], EscapeAll(v[1..]) + y);
      Regroup(Escape(v[0]), EscapeAll(v[1..]), y);
    }
  }

  lemma RestsOfChar(c: char, x: string)
    requires RestsFail(x) && Read(x).None?
    ensures RestsFail(Escape(c) + x)
  {
    if c < 128 as char {
      RestsBehindAscii(Escape(c), x);
    } else {
      RestsBehindOne(c, x);
    }
  }

  lemma RestsBehindOne(c: char, x: string)
    requires RestsFail(x) && Read(x).None?
    ensures RestsFail([c] + x)
  {
    forall i | 1 <= i <= |[c] + x| && ([c] + x)[i - 1] >= 128 as char ensures Read(([c] + x)[i..]).None? {
      if i == 1 {
        assert ([c] + x)[1..] == x;
      } else {
        assert ([c] + x)[i..] == x[i - 1..] && ([c] + x)[i - 1] == x[i - 2];
      }
    }
  }

  lemma HeadersAscii()
    ensures Ascii(Header("host")) && Ascii(Header("api")) && Ascii(Header("relay")) && Ascii(OPENING) && Ascii(CLOSING)
  {
  }

  lemma HeaderCloses(name: string, x: string)
    requires name in {"host", "api", "relay"}
    ensures Closes(Header(name) + x)
  {
  }

  /** In a printed configuration, what follows a character outside ASCII does not read as anything. */
  lemma PrintRestsFail(c: CustomServer)
    ensures RestsFail(Print(c))
  {
    PrintForm(c);
    HeadersAscii();
    RestsOfValue(c.relay, CLOSING);
    RestsBehindAscii(Header("relay"), Tail4(c));
    HeaderCloses("relay", Tail4(c));
    RestsOfValue(c.api, Header("relay") + Tail4(c));
    RestsBehindAscii(Header("api"), Tail3(c));
    HeaderCloses("api", Tail3(c));
    RestsOfValue(c.host, Header("api") + Tail3(c));
    RestsBehindAscii(Header("host"), Tail2(c));
    HeaderCloses("host", Tail2(c));
    RestsOfValue(c.key, Header("host") + Tail2(c));
    RestsBehindAscii(OPENING, Tail1(c));
  }

  // ----- Between two bytes that are not 7-bit -----

  ghost predicate Apart(b: seq<Byte>, p: nat, q: nat) {
    exists f: nat :: p < f && f + 8 <= q && Base64Pieces.Barrier(b, f)
  }

  /** Two bytes that are not 7-bit stand in one value, or with the end of one and the name of the next between them. */
  ghost predicate Near(b: seq<Byte>, n: nat) {
    forall p: nat, q: nat :: p < q < |b| && b[p] >= 0x80 && b[q] >= 0x80 ==> Apart(b, p, q) || q - p < n
  }

  lemma BarrierShifts(a: seq<Byte>, b: seq<Byte>, f: nat)
    requires Base64Pieces.Barrier(b, f)
    ensures Base64Pieces.Barrier(a + b, |a| + f)
  {
  }

  lemma ApartShifts(a: seq<Byte>, b: seq<Byte>, p: nat, q: nat)
    requires Apart(b, p, q)
    ensures Apart(a + b, |a| + p, |a| + q)
  {
    var f: nat :| p < f && f + 8 <= q && Base64Pieces.Barrier(b, f);
    BarrierShifts(a, b, f);
  }

  /** Nothing but 7-bit bytes, or a barrier in front of anything else. */
  ghost predicate Fenced(b: seq<Byte>) {
    || (forall q :: 0 <= q < |b| ==> b[q] < 0x80)
    || (Base64Pieces.Barrier(b, 0) && forall q :: 0 <= q < |b| && q < 8 ==> b[q] < 0x80)
  }

  lemma NearPrepend(a: seq<Byte>, b: seq<Byte>, n: nat)
    requires Near(b, n)
    requires (forall q :: 0 <= q < |a| ==> a[q] < 0x80) || (Fenced(b) && |a| <= n)
    ensures Near(a + b, n)
  {
    var d := a + b;
    forall p: nat, q: nat | p < q < |d| && d[p] >= 0x80 && d[q] >= 0x80 ensures Apart(d, p, q) || q - p < n {
      if p >= |a| {
        assert d[p] == b[p - |a|] && d[q] == b[q - |a|];
        if Apart(b, p - |a|, q - |a|) {
          ApartShifts(a, b, p - |a|, q - |a|);
        }
      } else if q >= |a| {
        assert d[q] == b[q - |a|];
        BarrierShifts(a, b, 0);
      }
    }
  }

  lemma AsciiBytes(s: string)
    requires Ascii(s)
    ensures forall q :: 0 <= q < |Encode(s)| ==> Encode(s)[q] < 0x80
  {
    EncodeAscii(s);
  }

  lemma HeaderBarrier(name: string)
    requires name in {"host", "api", "relay"}
    ensures Base64Pieces.Barrier(Encode(Header(name)), 0) && |Encode(Header(name))| >= 8
  {
    HeadersAscii();
    EncodeAscii(Header(name));
    HeaderStart(name);
    BarrierOf(Header(name), Encode(Header(name)));
  }

  lemma HeaderStart(name: string)
    requires name in {"host", "api", "relay"}
    ensures var h := Header(name); |h| > 8 && h[0] == QUOTE && h[1] == ',' && h[2] == QUOTE
    ensures var h := Header(name); h[3] in {'h', 'a'} || (h[3] == 'r' && h[4] == 'e' && h[5] == 'l')
  {
  }

  lemma BarrierOf(h: string, b: seq<Byte>)
    requires |h| > 8 && |b| == |h| && forall i :: 0 <= i < |h| ==> b[i] == h[i] as int
    requires h[0] == QUOTE && h[1] == ',' && h[2] == QUOTE
    requires h[3] in {'h', 'a'} || (h[3] == 'r' && h[4] == 'e' && h[5] == 'l')
    ensures Base64Pieces.Barrier(b, 0)
  {
  }

  lemma NearHeader(name: string, x: string, n: nat)
    requires name in {"host", "api", "relay"} && Near(Encode(x), n)
    ensures Near(Encode(Header(name) + x), n) && Fenced(Encode(Header(name) + x))
  {
    HeadersAscii();
    AsciiBytes(Header(name));
    HeaderBarrier(name);
    EncodeConcat(Header(name), x);
    NearPrepend(Encode(Header(name)), Encode(x), n);
  }

  lemma NearValue(v: string, y: string, n: nat)
    requires Near(Encode(y), n) && Fenced(Encode(y)) && EscapedSize(v) <= n
    ensures Near(Encode(EscapeAll(v) + y), n)
  {
    EncodeConcat(EscapeAll(v), y);
    NearPrepend(Encode(EscapeAll(v)), Encode(y), n);
  }

  /** In a printed configuration any two bytes that are not 7-bit are near, by the size of its largest field. */
  lemma PrintNear(c: CustomServer, n: nat)
    requires FieldsFit(c, n)
    ensures Near(Encode(Print(c)), n)
  {
    PrintForm(c);
    HeadersAscii();
    AsciiBytes(CLOSING);
    AsciiBytes(OPENING);
    NearValue(c.relay, CLOSING, n);
    NearHeader("relay", Tail4(c), n);
    NearValue(c.api, Header("relay") + Tail4(c), n);
    NearHeader("api", Tail3(c), n);
    NearValue(c.host, Header("api") + Tail3(c), n);
    NearHeader("host", Tail2(c), n);
    NearValue(c.key, Header("host") + Tail2(c), n);
    EncodeConcat(OPENING, Tail1(c));
    NearPrepend(Encode(OPENING), Encode(Tail1(c)), n);
  }
}
