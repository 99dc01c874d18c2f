/**
 A server configuration hidden in the name of an executable: the printer of
 src/naming.rs and the parser of src/custom_server.rs.

 The signature check of the parser is a parameter, `verify`: given the decoded
 bytes it returns the signed content or nothing.
 */
module CustomServerName {
  import opened Prelude
  import opened Text
  import opened Json
  import Utf8
  import Base64Url

  type Verifier = seq<Byte> -> Option<seq<Byte>>

  const LICENSED1 := "-licensed-"
  const LICENSED2 := "-licensed--"
  const LICENSED3 := "-licensed---"
  const DASHES := "--"
  const OPEN := "("
  const HOST := "host="

  /** The payload of a file name. */
  function GenName(c: CustomServer): string {
    Reverse(Base64Url.Encode(Utf8.Encode(Print(c))))
  }

  function ReadBytes(data: seq<Byte>): Option<CustomServer> {
    match Utf8.Decode(data)
    case None => None
    case Some(text) => Read(text)
  }

  function FromConfigString(s: string, verify: Verifier): Option<CustomServer> {
    match Base64Url.Decode(Reverse(s))
    case None => None
    case Some(data) =>
      match ReadBytes(data)
      case Some(c) => Some(c)
      case None =>
        match verify(data)
        case None => None
        case Some(signed) => ReadBytes(signed)
  }

  /** Drops a trailing ".exe.exe" or ".exe" in any letter case. */
  function StripExe(s: string): string {
    if EndsWith(Lower(s), ".exe.exe") then s[..|s| - 8]
    else if EndsWith(Lower(s), ".exe") then s[..|s| - 4]
    else s
  }

  /** What follows `prefix` in the last token that starts with it in any letter case, or nothing. */
  function LastWith(tokens: seq<string>, prefix: string): string {
    if tokens == [] then []
    else
      var t := tokens[|tokens| - 1];
      if StartsWith(Lower(t), prefix) then t[|prefix|..] else LastWith(tokens[..|tokens| - 1], prefix)
  }

  function FromTokens(tokens: seq<string>): CustomServer {
    CustomServer(LastWith(tokens, "key="), LastWith(tokens, HOST), LastWith(tokens, "api="), LastWith(tokens, "relay="))
  }

  /** `value` is what follows the last of these names, in any letter case, or nothing where there is none. */
  ghost predicate FieldRead(tokens: seq<string>, name: string, value: string) {
    if forall i :: 0 <= i < |tokens| ==> !Spells(tokens[i], name) then value == ""
    else exists k :: LastSpelled(tokens, name, k) && value == tokens[k][|name|..]
  }

  ghost predicate LastSpelled(tokens: seq<string>, name: string, k: int) {
    0 <= k < |tokens| && Spells(tokens[k], name) && forall j :: k < j < |tokens| ==> !Spells(tokens[j], name)
  }

  ghost predicate FieldsRead(tokens: seq<string>, c: CustomServer) {
    && FieldRead(tokens, "host=", c.host) && FieldRead(tokens, "key=", c.key)
    && FieldRead(tokens, "api=", c.api) && FieldRead(tokens, "relay=", c.relay)
  }

  lemma OneMoreToken(front: seq<string>, t: string, name: string, value: string)
    requires FieldRead(front, name, value)
    ensures FieldRead(front + [t], name, if Spells(t, name) then t[|name|..] else value)
  {
    var tokens := front + [t];
    if Spells(t, name) {
      assert tokens[|front|] == t;
      assert LastSpelled(tokens, name, |front|);
    } else if k :| LastSpelled(front, name, k) {
      assert LastSpelled(tokens, name, k);
    }
  }

  lemma {:induction false} LastWithRead(tokens: seq<string>, name: string)
    requires NoUpper(name)
    ensures FieldRead(tokens, name, LastWith(tokens, name))
  {
    if tokens != [] {
      var n := |tokens| - 1;
      LastWithRead(tokens[..n], name);
      LowerSpells(tokens[n], name);
      OneMoreToken(tokens[..n], tokens[n], name, LastWith(tokens[..n], name));
      assert tokens == tokens[..n] + [tokens[n]];
    }
  }

  lemma FieldNames()
    ensures NoUpper("host=") && NoUpper("key=") && NoUpper("api=") && NoUpper("relay=")
  {
  }

  /** In any letter case a later token overrides an earlier one, and no token leaves its field empty. */
  lemma TokensRead(tokens: seq<string>)
    ensures FieldsRead(tokens, FromTokens(tokens))
  {
    FieldNames();
    LastWithRead(tokens, "host=");
    LastWithRead(tokens, "key=");
    LastWithRead(tokens, "api=");
    LastWithRead(tokens, "relay=");
  }

  /** What the parser tries on a trimmed piece. */
  type Reader = string -> Option<CustomServer>

  function Reads(verify: Verifier): Reader {
    (s: string) => FromConfigString(s, verify)
  }

  function FirstAccepted(pieces: seq<string>, read: Reader): Option<CustomServer> {
    if pieces == [] then None
    else
      match read(Trim(pieces[0]))
      case Some(c) => Some(c)
      case None => FirstAccepted(pieces[1..], read)
  }

  /** A piece as it is, else the parts of it between opening parentheses. */
  function FromPiece(piece: string, read: Reader): Option<CustomServer> {
    match read(Trim(piece))
    case Some(c) => Some(c)
    case None => if Contains(piece, OPEN) then FirstAccepted(Split(piece, OPEN), read) else None
  }

  function FirstPiece(pieces: seq<string>, read: Reader): Option<CustomServer> {
    if pieces == [] then None
    else
      match FromPiece(pieces[0], read)
      case Some(c) => Some(c)
      case None => FirstPiece(pieces[1..], read)
  }

  function Unmark(s: string): string {
    Replace(Replace(Replace(s, LICENSED3, DASHES), LICENSED2, DASHES), LICENSED1, DASHES)
  }

  /** The readable form after "host=", else the first piece that reads. */
  function FromBody(body: string, read: Reader): Option<CustomServer> {
    if Contains(Lower(body), HOST) then Some(FromTokens(Split(body[Find(Lower(body), HOST)..], ",")))
    else FirstPiece(Split(Unmark(body), DASHES), read)
  }

  /** What the parser finds in a file name. */
  function FromString(s: string, read: Reader): Option<CustomServer> {
    FromBody(StripExe(s), read)
  }

  function Trimmed(parts: seq<string>): seq<string> {
    if parts == [] then [] else [Trim(parts[0])] + Trimmed(parts[1..])
  }

  /** All texts that may read, in order: each piece, and behind it its parts between opening parentheses. */
  function Tries(pieces: seq<string>): seq<string> {
    if pieces == [] then []
    else
      var parts := if '(' in pieces[0] then Trimmed(Split(pieces[0], "(")) else [];
      [Trim(pieces[0])] + parts + Tries(pieces[1..])
  }

  /** The first of these texts that reads, if one does. */
  ghost predicate FirstRead(tries: seq<string>, read: Reader, r: Option<CustomServer>) {
    if forall i :: 0 <= i < |tries| ==> read(tries[i]).None? then r.None?
    else exists k :: FirstReads(tries, read, k) && r == read(tries[k])
  }

  ghost predicate FirstReads(tries: seq<string>, read: Reader, k: int) {
    0 <= k < |tries| && read(tries[k]).Some? && forall i :: 0 <= i < k ==> read(tries[i]).None?
  }

  /** What reads in a first list decides, and else the second list. */
  lemma FirstOfBoth(a: seq<string>, b: seq<string>, read: Reader, x: Option<CustomServer>, y: Option<CustomServer>)
    requires FirstRead(a, read, x) && FirstRead(b, read, y)
    ensures FirstRead(a + b, read, if x.Some? then x else y)
  {
    var both := a + b;
    if k :| FirstReads(a, read, k) && x == read(a[k]) {
      assert FirstReads(both, read, k);
    } else if k :| FirstReads(b, read, k) && y == read(b[k]) {
      assert FirstReads(both, read, |a| + k);
    }
  }

  lemma FirstOfOne(t: string, read: Reader)
    ensures FirstRead([t], read, read(t))
  {
    assert [t][0] == t;
    assert read(t).Some? ==> FirstReads([t], read, 0);
  }

  lemma {:induction false} FirstAcceptedIsFirst(parts: seq<string>, read: Reader)
    ensures FirstRead(Trimmed(parts), read, FirstAccepted(parts, read))
  {
    if parts != [] {
      FirstOfOne(Trim(parts[0]), read);
      FirstAcceptedIsFirst(parts[1..], read);
      FirstOfBoth([Trim(parts[0])], Trimmed(parts[1..]), read, read(Trim(parts[0])), FirstAccepted(parts[1..], read));
    }
  }

  lemma OpenContained(s: string)
    ensures Contains(s, OPEN) <==> '(' in s
  {
    if '(' in s {
      var k :| 0 <= k < |s| && s[k] == '(';
      assert s[k..k + 1] == OPEN;
      assert OccursAt(s, OPEN, k);
    }
    if k :| 0 <= k <= |s| && OccursAt(s, OPEN, k) {
      assert s[k..k + 1][0] == s[k];
    }
  }

  /** The pieces are tried in order, and no text is left out. */
  lemma {:induction false} FirstPieceIsFirst(pieces: seq<string>, read: Reader)
    ensures FirstRead(Tries(pieces), read, FirstPiece(pieces, read))
  {
    if pieces != [] {
      var piece, whole := pieces[0], [Trim(pieces[0])];
      var parts := if '(' in piece then Trimmed(Split(piece, "(")) else [];
      var found := if '(' in piece then FirstAccepted(Split(piece, "("), read) else None;
      OpenContained(piece);
      FirstOfOne(Trim(piece), read);
      FirstAcceptedIsFirst(Split(piece, "("), read);
      FirstOfBoth(whole, parts, read, read(Trim(piece)), found);
      FirstPieceIsFirst(pieces[1..], read);
      FirstOfBoth(whole + parts, Tries(pieces[1..]), read, FromPiece(piece, read), FirstPiece(pieces[1..], read));
    }
  }

  /** One pass over the tokens; a later token overrides an earlier one. */
  method ReadTokens(tokens: seq<string>) returns (c: CustomServer)
    ensures c == FromTokens(tokens) && FieldsRead(tokens, c)
  {
    var host, key, api, relay := "", "", "", "";
    for i := 0 to |tokens|
      invariant host == LastWith(tokens[..i], HOST) && key == LastWith(tokens[..i], "key=")
      invariant api == LastWith(tokens[..i], "api=") && relay == LastWith(tokens[..i], "relay=")
    {
      var el := tokens[i];
      assert tokens[..i + 1][..i] == tokens[..i];
      if StartsWith(Lower(el), HOST) {
        host := el[5..];
      }
      if StartsWith(Lower(el), "key=") {
        key := el[4..];
      }
      if StartsWith(Lower(el), "api=") {
        api := el[4..];
      }
      if StartsWith(Lower(el), "relay=") {
        relay := el[6..];
      }
    }
    assert tokens[..|tokens|] == tokens;
    c := CustomServer(key, host, api, relay);
    TokensRead(tokens);
  }

  /** The parser: the tokens after "host=", or nested passes over the pieces with early return. */
  method GetCustomServerFromString(s: string, verify: Verifier) returns (r: Option<CustomServer>)
    ensures r == FromString(s, Reads(verify))
    ensures var body := StripExe(s);
      if Contains(Lower(body), HOST) then
        r.Some? && FieldsRead(Split(body[Find(Lower(body), HOST)..], ","), r.value)
      else FirstRead(Tries(Split(Unmark(body), DASHES)), Reads(verify), r)
  {
    var body := StripExe(s);
    if Contains(Lower(body), HOST) {
      var c := ReadTokens(Split(body[Find(Lower(body), HOST)..], ","));
      return Some(c);
    }
    var read := Reads(verify);
    var pieces := Split(Unmark(body), DASHES);
    FirstPieceIsFirst(pieces, read);
    for i := 0 to |pieces|
      invariant FirstPiece(pieces, read) == FirstPiece(pieces[i..], read)
    {
      var piece := pieces[i];
      assert pieces[i..][1..] == pieces[i + 1..];
      var found := read(Trim(piece));
      if found.Some? {
        return found;
      } else if Contains(piece, OPEN) {
        var parts := Split(piece, OPEN);
        for j := 0 to |parts|
          invariant FirstAccepted(parts, read) == FirstAccepted(parts[j..], read)
        {
          assert parts[j..][1..] == parts[j + 1..];
          var part := read(Trim(parts[j]));
          if part.Some? {
            return part;
          }
        }
      }
    }
    return None;
  }
}
