/**
 The JSON text of a server configuration: the compact object that serde_json writes
 for the four string fields, and a reader for objects with string members and for
 arrays of strings, which give the fields in order.
 */
module Json {
  import opened Prelude
  import opened Utf8

  datatype CustomServer = CustomServer(key: string, host: string, api: string, relay: string)

  const QUOTE: char := '"'
  const BACKSLASH: char := '\\'

  function HexDigit(n: int): char
    requires 0 <= n < 16
  {
    if n < 10 then (48 + n) as char else (97 + n - 10) as char
  }

  function HexValue(c: char): Option<int> {
    var n := c as int;
    if 48 <= n < 58 then Some(n - 48)
    else if 97 <= n < 103 then Some(n - 87)
    else if 65 <= n < 71 then Some(n - 55)
    else None
  }

  /** Quotes, backslashes and control characters are escaped, everything else stands for itself. */
  function Escape(c: char): string {
    var n := c as int;
    if c == QUOTE || c == BACKSLASH then [BACKSLASH, c]
    else if n == 8 then [BACKSLASH, 'b']
    else if n == 9 then [BACKSLASH, 't']
    else if n == 10 then [BACKSLASH, 'n']
    else if n == 12 then [BACKSLASH, 'f']
    else if n == 13 then [BACKSLASH, 'r']
    else if n < 32 then [BACKSLASH, 'u', '0', '0', HexDigit(n / 16), HexDigit(n % 16)]
    else [c]
  }

  // The printers take the text that follows, so that nothing has to be re-associated.

  /** The characters of a string and its closing quote, then `rest`. */
  function Escaped(s: string, rest: string): string {
    if s == [] then [QUOTE] + rest else Escape(s[0]) + Escaped(s[1..], rest)
  }

  function Quoted(s: string, rest: string): string {
    [QUOTE] + Escaped(s, rest)
  }

  function Member(name: string, value: string, rest: string): string {
    Quoted(name, [':'] + Quoted(value, rest))
  }

  // The printed object from its first, second, third and fourth member on.
  function From4(c: CustomServer): string { Member("relay", c.relay, "}") }
  function From3(c: CustomServer): string { Member("api", c.api, [','] + From4(c)) }
  function From2(c: CustomServer): string { Member("host", c.host, [','] + From3(c)) }
  function From1(c: CustomServer): string { Member("key", c.key, [','] + From2(c)) }

  function Print(c: CustomServer): string {
    ['{'] + From1(c)
  }

  /** Characters that stand for themselves in a JSON string. */
  ghost predicate Plain(s: string) {
    forall i :: 0 <= i < |s| ==> s[i] >= ' ' && s[i] != '"' && s[i] != '\\'
  }

  lemma PlainChar(c: char)
    requires c >= ' ' && c != '"' && c != '\\'
    ensures Escape(c) == [c]
  {
  }

  lemma Regroup(a: string, b: string, c: string)
    ensures a + (b + c) == (a + b) + c
  {
  }

  lemma {:induction false} EscapedPlain(s: string, rest: string)
    requires Plain(s)
    ensures Escaped(s, rest) == s + ("\"" + rest)
  {
    if s != [] {
      EscapedPlain(s[1..], rest);
      PlainChar(s[0]);
      Regroup([s[0]], s[1..], "\"" + rest);
      assert s == [s[0]] + s[1..];
    }
  }

  /** `"name":"value"` */
  function Pair(name: string, value: string): string {
    "\"" + name + "\":\"" + value + "\""
  }

  lemma MemberPlain(name: string, value: string, rest: string)
    requires Plain(name) && Plain(value)
    ensures Member(name, value, rest) == Pair(name, value) + rest
  {
    EscapedPlain(name, [':'] + Quoted(value, rest));
    EscapedPlain(value, rest);
  }

  lemma NamesPlain()
    ensures Plain("key") && Plain("host") && Plain("api") && Plain("relay")
  {
  }

  /** Without characters to escape the printed text is the four members in order, with nothing between but commas. */
  lemma PrintPlain(c: CustomServer)
    requires Plain(c.key) && Plain(c.host) && Plain(c.api) && Plain(c.relay)
    ensures Print(c) == "{" + (Pair("key", c.key) + ("," + (Pair("host", c.host) + ("," +
      (Pair("api", c.api) + ("," + (Pair("relay", c.relay) + "}")))))))
  {
    NamesPlain();
    MemberPlain("relay", c.relay, "}");
    MemberPlain("api", c.api, [','] + From4(c));
    MemberPlain("host", c.host, [','] + From3(c));
    MemberPlain("key", c.key, [','] + From2(c));
  }

  function Hex4(s: string): Option<int> {
    if |s| < 4 then None
    else
      match (HexValue(s[0]), HexValue(s[1]), HexValue(s[2]), HexValue(s[3]))
      case (Some(a), Some(b), Some(c), Some(d)) => Some(a * 4096 + b * 256 + c * 16 + d)
      case _ => None
  }

  /** What follows a backslash: the character it denotes and the number of characters it takes. */
  function ReadEscape(s: string): (r: Option<(char, nat)>)
    ensures r.Some? ==> 1 <= r.value.1 <= |s|
  {
    if s == [] then None
    else if s[0] == QUOTE || s[0] == BACKSLASH || s[0] == '/' then Some((s[0], 1))
    else if s[0] == 'b' then Some((8 as char, 1))
    else if s[0] == 'f' then Some((12 as char, 1))
    else if s[0] == 'n' then Some((10 as char, 1))
    else if s[0] == 'r' then Some((13 as char, 1))
    else if s[0] == 't' then Some((9 as char, 1))
    else if s[0] != 'u' then None
    else
      match Hex4(s[1..])
      case None => None
      case Some(n) =>
        if n < 0 || 0xDC00 <= n < 0xE000 || n >= 0x10000 then None
        else if n < 0xD800 || n >= 0xE000 then Some((n as char, 5))
        else if |s| < 7 || s[5] != BACKSLASH || s[6] != 'u' then None
        else
          match Hex4(s[7..])
          case None => None
          case Some(m) =>
            if m < 0xDC00 || m > 0xDFFF then None
            else Some((((n - 0xD800) * 1024 + (m - 0xDC00) + 0x10000) as char, 11))
  }

  /** The rest of a string after its opening quote: its value and what follows the closing quote. */
  function ReadString(s: string): (r: Option<(string, string)>)
    ensures r.Some? ==> |r.value.1| < |s|
    decreases |s|
  {
    if s == [] then None
    else if s[0] == QUOTE then Some(([], s[1..]))
    else if s[0] == BACKSLASH then
      match ReadEscape(s[1..])
      case None => None
      case Some((c, k)) =>
        match ReadString(s[1 + k..])
        case None => None
        case Some((v, rest)) => Some(([c] + v, rest))
    else if s[0] as int < 32 then None
    else
      match ReadString(s[1..])
      case None => None
      case Some((v, rest)) => Some(([s[0]] + v, rest))
  }

  function SkipSpace(s: string): (r: string)
    ensures |r| <= |s|
  {
    if s != [] && (s[0] == ' ' || s[0] == '\n' || s[0] == '\t' || s[0] == '\r') then SkipSpace(s[1..]) else s
  }

  function ReadQuoted(s: string): (r: Option<(string, string)>)
    ensures r.Some? ==> |r.value.1| < |s|
  {
    if s == [] || s[0] != QUOTE then None else ReadString(s[1..])
  }

  /** A member `"name" : "value"`. */
  function ReadMember(s: string): (r: Option<(string, string, string)>)
    ensures r.Some? ==> |r.value.2| < |s|
  {
    match ReadQuoted(s)
    case None => None
    case Some((name, afterName)) =>
      var colon := SkipSpace(afterName);
      if colon == [] || colon[0] != ':' then None
      else
        match ReadQuoted(SkipSpace(colon[1..]))
        case None => None
        case Some((v, rest)) => Some((name, v, rest))
  }

  const FIELDS: set<string> := {"key", "host", "api", "relay"}

  /** The members up to the closing brace: unknown names are ignored, a repeated field is an error. */
  function ReadMembers(s: string, seen: map<string, string>, first: bool): Option<(map<string, string>, string)>
    decreases |s|
  {
    var t := SkipSpace(s);
    if t == [] then None
    else if t[0] == '}' then Some((seen, t[1..]))
    else if !first && t[0] != ',' then None
    else
      match ReadMember(if first then t else SkipSpace(t[1..]))
      case None => None
      case Some((name, value, rest)) =>
        if name !in FIELDS then ReadMembers(rest, seen, false)
        else if name in seen then None
        else ReadMembers(rest, seen[name := value], false)
  }

  function FieldOr(m: map<string, string>, name: string): string {
    if name in m then m[name] else ""
  }

  /** Up to four elements of an array and its closing bracket. */
  function ReadElements(s: string, values: seq<string>): Option<(seq<string>, string)>
    decreases |s|
  {
    var t := SkipSpace(s);
    if t == [] then None
    else if t[0] == ']' then Some((values, t[1..]))
    else if |values| == 4 || (values != [] && t[0] != ',') then None
    else
      match ReadQuoted(if values == [] then t else SkipSpace(t[1..]))
      case None => None
      case Some((v, rest)) => ReadElements(rest, values + [v])
  }

  function ElementOr(values: seq<string>, i: nat): string {
    if i < |values| then values[i] else ""
  }

  /** An object after its opening brace, with nothing but space behind it. */
  function ReadObject(s: string): Option<CustomServer> {
    match ReadMembers(s, map[], true)
    case None => None
    case Some((m, rest)) =>
      if SkipSpace(rest) != [] then None
      else Some(CustomServer(FieldOr(m, "key"), FieldOr(m, "host"), FieldOr(m, "api"), FieldOr(m, "relay")))
  }

  /** An array after its opening bracket. */
  function ReadArray(s: string): Option<CustomServer> {
    match ReadElements(s, [])
    case None => None
    case Some((v, rest)) =>
      if SkipSpace(rest) != [] then None
      else Some(CustomServer(ElementOr(v, 0), ElementOr(v, 1), ElementOr(v, 2), ElementOr(v, 3)))
  }

  function Read(s: string): Option<CustomServer> {
    var t := SkipSpace(s);
    if t == [] then None
    else if t[0] == '{' then ReadObject(t[1..])
    else if t[0] == '[' then ReadArray(t[1..])
    else None
  }

  lemma HexRoundTrip(n: int)
    requires 0 <= n < 16
    ensures HexValue(HexDigit(n)) == Some(n)
  {
  }

  lemma ReadEscaped(c: char, rest: string)
    requires Escape(c)[0] == BACKSLASH
    ensures ReadEscape(Escape(c)[1..] + rest) == Some((c, |Escape(c)| - 1))
  {
    var n := c as int;
    var t := Escape(c)[1..] + rest;
    if |Escape(c)| == 6 {
      HexRoundTrip(0);
      HexRoundTrip(n / 16);
      HexRoundTrip(n % 16);
      assert t[1..][0] == HexDigit(0) && t[1..][1] == HexDigit(0);
      assert t[1..][2] == HexDigit(n / 16) && t[1..][3] == HexDigit(n % 16);
      assert Hex4(t[1..]) == Some(n);
    }
  }

  lemma ReadOneEscaped(c: char, tail: string, v: string, rest: string)
    requires ReadString(tail) == Some((v, rest))
    ensures ReadString(Escape(c) + tail) == Some(([c] + v, rest))
  {
    var s := Escape(c) + tail;
    if Escape(c)[0] == BACKSLASH {
      ReadEscaped(c, tail);
      assert s[1..] == Escape(c)[1..] + tail;
      assert s[|Escape(c)|..] == tail;
    } else {
      assert s[1..] == tail;
    }
  }

  lemma {:induction false} ReadEscapedAll(v: string, rest: string)
    ensures ReadString(Escaped(v, rest)) == Some((v, rest))
  {
    if v == [] {
      assert ([QUOTE] + rest)[1..] == rest;
    } else {
      ReadEscapedAll(v[1..], rest);
      ReadOneEscaped(v[0], Escaped(v[1..], rest), v[1..], rest);
      assert [v[0]] + v[1..] == v;
    }
  }

  lemma ReadQuotedBack(v: string, rest: string)
    ensures ReadQuoted(Quoted(v, rest)) == Some((v, rest))
  {
    ReadEscapedAll(v, rest);
    assert Quoted(v, rest)[1..] == Escaped(v, rest);
  }

  lemma ReadMemberBack(name: string, value: string, rest: string)
    ensures ReadMember(Member(name, value, rest)) == Some((name, value, rest))
  {
    var afterName := [':'] + Quoted(value, rest);
    ReadQuotedBack(name, afterName);
    assert afterName[1..] == Quoted(value, rest);
    ReadQuotedBack(value, rest);
  }

  lemma ReadFirstMember(name: string, value: string, rest: string)
    requires name in FIELDS
    ensures ReadMembers(Member(name, value, rest), map[], true) == ReadMembers(rest, map[name := value], false)
  {
    ReadMemberBack(name, value, rest);
  }

  lemma ReadNextMember(name: string, value: string, rest: string, seen: map<string, string>)
    requires name in FIELDS && name !in seen
    ensures ReadMembers([','] + Member(name, value, rest), seen, false) == ReadMembers(rest, seen[name := value], false)
  {
    ReadMemberBack(name, value, rest);
    assert ([','] + Member(name, value, rest))[1..] == Member(name, value, rest);
  }

  lemma ReadEnd(seen: map<string, string>)
    ensures ReadMembers("}", seen, false) == Some((seen, []))
  {
  }

  lemma ReadFrom1(c: CustomServer)
    ensures ReadMembers(From1(c), map[], true)
      == Some((map["key" := c.key, "host" := c.host, "api" := c.api, "relay" := c.relay], []))
  {
    var m1 := map["key" := c.key];
    var m2 := m1["host" := c.host];
    var m3 := m2["api" := c.api];
    var m4 := m3["relay" := c.relay];
    ReadFirstMember("key", c.key, [','] + From2(c));
    ReadNextMember("host", c.host, [','] + From3(c), m1);
    ReadNextMember("api", c.api, [','] + From4(c), m2);
    ReadNextMember("relay", c.relay, "}", m3);
    ReadEnd(m4);
    assert m4 == map["key" := c.key, "host" := c.host, "api" := c.api, "relay" := c.relay];
  }

  /** Reading a printed configuration gives it back, whatever characters its fields hold. */
  lemma ReadPrint(c: CustomServer)
    ensures Read(Print(c)) == Some(c)
  {
    assert Print(c)[1..] == From1(c);
    ReadFrom1(c);
  }

  // The array from its first, second, third and fourth element on.
  function Array4(c: CustomServer): string { Quoted(c.relay, "]") }
  function Array3(c: CustomServer): string { Quoted(c.api, [','] + Array4(c)) }
  function Array2(c: CustomServer): string { Quoted(c.host, [','] + Array3(c)) }
  function Array1(c: CustomServer): string { Quoted(c.key, [','] + Array2(c)) }

  /** The fields in order, without their names. */
  function PrintArray(c: CustomServer): string {
    ['['] + Array1(c)
  }

  lemma ReadFirstElement(v: string, rest: string)
    ensures ReadElements(Quoted(v, rest), []) == ReadElements(rest, [v])
  {
    ReadQuotedBack(v, rest);
    assert [] + [v] == [v];
  }

  lemma ReadNextElement(v: string, rest: string, values: seq<string>)
    requires values != [] && |values| < 4
    ensures ReadElements([','] + Quoted(v, rest), values) == ReadElements(rest, values + [v])
  {
    ReadQuotedBack(v, rest);
    assert ([','] + Quoted(v, rest))[1..] == Quoted(v, rest);
  }

  lemma ReadArrayEnd(values: seq<string>)
    ensures ReadElements("]", values) == Some((values, []))
  {
  }

  lemma ReadArray1(c: CustomServer)
    ensures ReadElements(Array1(c), []) == Some(([c.key] + [c.host] + [c.api] + [c.relay], []))
  {
    var v1 := [c.key];
    var v2 := v1 + [c.host];
    var v3 := v2 + [c.api];
    var v4 := v3 + [c.relay];
    ReadFirstElement(c.key, [','] + Array2(c));
    ReadNextElement(c.host, [','] + Array3(c), v1);
    ReadNextElement(c.api, [','] + Array4(c), v2);
    ReadNextElement(c.relay, "]", v3);
    ReadArrayEnd(v4);
  }

  /** The array reads as the same configuration. */
  lemma ReadPrintArray(c: CustomServer)
    ensures Read(PrintArray(c)) == Some(c)
  {
    assert PrintArray(c)[1..] == Array1(c);
    ReadArray1(c);
  }

  lemma {:induction false} EscapedShape(s: string, rest: string)
    requires rest == [] || rest[|rest| - 1] == '}'
    ensures rest != [] ==> Escaped(s, rest)[|Escaped(s, rest)| - 1] == '}'
    ensures Escaped(s, rest) != []
  {
    if s != [] {
      EscapedShape(s[1..], rest);
    }
  }

  lemma MemberShape(name: string, value: string, rest: string)
    requires rest != [] && rest[|rest| - 1] == '}'
    ensures Member(name, value, rest) != []
    ensures Member(name, value, rest)[|Member(name, value, rest)| - 1] == '}'
  {
    EscapedShape(value, rest);
    EscapedShape(name, [':'] + Quoted(value, rest));
  }

  /** A printed configuration is a text between braces. */
  lemma PrintShape(c: CustomServer)
    ensures |Print(c)| > 1 && Print(c)[0] == '{' && Print(c)[|Print(c)| - 1] == '}'
  {
    MemberShape("relay", c.relay, "}");
    MemberShape("api", c.api, [','] + From4(c));
    MemberShape("host", c.host, [','] + From3(c));
    MemberShape("key", c.key, [','] + From2(c));
  }

  ghost predicate AsciiServer(c: CustomServer) {
    Ascii(c.key) && Ascii(c.host) && Ascii(c.api) && Ascii(c.relay)
  }

  lemma {:induction false} EscapedAscii(s: string, rest: string)
    requires Ascii(s) && Ascii(rest)
    ensures Ascii(Escaped(s, rest))
  {
    if s != [] {
      EscapedAscii(s[1..], rest);
      assert Ascii(Escape(s[0]));
    }
  }

  lemma MemberAscii(name: string, value: string, rest: string)
    requires Ascii(name) && Ascii(value) && Ascii(rest)
    ensures Ascii(Member(name, value, rest))
  {
    EscapedAscii(value, rest);
    EscapedAscii(name, [':'] + Quoted(value, rest));
  }

  /** The text of a configuration with ASCII fields is ASCII. */
  lemma PrintAscii(c: CustomServer)
    requires AsciiServer(c)
    ensures Ascii(Print(c))
  {
    MemberAscii("relay", c.relay, "}");
    MemberAscii("api", c.api, [','] + From4(c));
    MemberAscii("host", c.host, [','] + From3(c));
    MemberAscii("key", c.key, [','] + From2(c));
  }
}
