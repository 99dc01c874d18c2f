/** The readable form of a file name: "host=" and the other fields, separated by commas. */
module HostTokens {
  import opened Prelude
  import opened Text
  import opened Json
  import opened CustomServerName
  import opened FileNames

  /**
   The readable form.  After the first "host=", in any letter case, the comma-separated
   tokens are read in order; what the name holds in front of it does not matter.
   */
  lemma TokensParsed(p: string, tokens: seq<string>, ext: string, read: Reader)
    requires tokens != [] && StartsWith(Lower(tokens[0]), HOST)
    requires forall i :: 0 <= i < |tokens| ==> ',' !in tokens[i]
    requires AbsentBefore(Lower(p + Join(tokens, ',')), HOST, |p|)
    requires Extended(p + Join(tokens, ','), ext)
    ensures FromString(p + Join(tokens, ',') + ext, read) == Some(FromTokens(tokens))
  {
    var body := p + Join(tokens, ',');
    ExtensionStripped(body, ext);
    JoinStarts(tokens, ',');
    HostOccurs(p, Join(tokens, ','), tokens[0]);
    assert body[|p|..] == Join(tokens, ',');
    HostBody(body, |p|, tokens, read);
  }

  lemma HostOccurs(p: string, joined: string, token: string)
    requires StartsWith(Lower(token), HOST) && |joined| >= |token| && joined[..|token|] == token
    ensures OccursAt(Lower(p + joined), HOST, |p|)
  {
    assert Lower(p + joined)[|p|..|p| + 5] == Lower(token)[0..5];
  }

  lemma HostBody(body: string, n: nat, tokens: seq<string>, read: Reader)
    requires OccursAt(Lower(body), HOST, n) && AbsentBefore(Lower(body), HOST, n)
    requires tokens != [] && body[n..] == Join(tokens, ',')
    requires forall i :: 0 <= i < |tokens| ==> ',' !in tokens[i]
    ensures FromBody(body, read) == Some(FromTokens(tokens))
  {
    FindFirst(Lower(body), HOST, n);
    SplitJoin(tokens, ',');
  }

  /** The names of the fields as somebody spelled them. */
  datatype Names = Names(host: string, key: string, api: string, relay: string)

  ghost predicate NameOf(n: string, name: string) {
    |n| == |name| && Spells(n, name)
  }

  ghost predicate FieldNamesOf(n: Names) {
    NameOf(n.host, "host=") && NameOf(n.key, "key=") && NameOf(n.api, "api=") && NameOf(n.relay, "relay=")
  }

  function PrintTokens(n: Names, c: CustomServer, rest: string): seq<string> {
    [n.host + c.host, n.key + c.key, n.api + c.api, n.relay + c.relay, rest]
  }

  lemma NamedToken(n: string, name: string, value: string)
    requires NameOf(n, name)
    ensures Spells(n + value, name) && (n + value)[|name|..] == value
  {
  }

  /** Names with different first letters are not taken for each other. */
  lemma OtherName(n: string, name: string, value: string, other: string)
    requires NameOf(n, name) && name != [] && other != [] && name[0] != other[0]
    requires 'a' <= name[0] <= 'z' && 'a' <= other[0] <= 'z'
    ensures !Spells(n + value, other)
  {
    assert (n + value)[0] == n[0] && AnyCase(n[0], name[0]);
    assert Spells(n + value, other) ==> AnyCase(n[0], other[0]);
  }

  /** The last token with a name gives the field. */
  lemma FieldAt(tokens: seq<string>, k: nat, n: string, name: string, value: string, found: string)
    requires k < |tokens| && tokens[k] == n + value && NameOf(n, name)
    requires FieldRead(tokens, name, found) && LaterTokensDiffer(tokens, k, name)
    ensures found == value
  {
    NamedToken(n, name, value);
    var j :| LastSpelled(tokens, name, j) && found == tokens[j][|name|..];
    assert j == k;
  }

  ghost predicate NoField(t: string) {
    forall name :: name in {"host=", "key=", "api=", "relay="} ==> !Spells(t, name)
  }

  lemma FirstLetters()
    ensures "host="[0] == 'h' && "key="[0] == 'k' && "api="[0] == 'a' && "relay="[0] == 'r'
  {
  }

  ghost predicate LaterTokensDiffer(tokens: seq<string>, k: nat, name: string) {
    forall j :: k < j < |tokens| ==> !Spells(tokens[j], name)
  }

  lemma PrintedTokensDiffer(n: Names, c: CustomServer, rest: string)
    requires FieldNamesOf(n) && NoField(rest)
    ensures var tokens := PrintTokens(n, c, rest);
      && LaterTokensDiffer(tokens, 0, "host=") && LaterTokensDiffer(tokens, 1, "key=")
      && LaterTokensDiffer(tokens, 2, "api=") && LaterTokensDiffer(tokens, 3, "relay=")
  {
    FirstLetters();
    OtherName(n.key, "key=", c.key, "host=");
    OtherName(n.api, "api=", c.api, "host=");
    OtherName(n.api, "api=", c.api, "key=");
    OtherName(n.relay, "relay=", c.relay, "host=");
    OtherName(n.relay, "relay=", c.relay, "key=");
    OtherName(n.relay, "relay=", c.relay, "api=");
  }

  lemma ReadPrintedTokens(n: Names, c: CustomServer, rest: string)
    requires FieldNamesOf(n) && NoField(rest)
    ensures FromTokens(PrintTokens(n, c, rest)) == c
  {
    var tokens, found := PrintTokens(n, c, rest), FromTokens(PrintTokens(n, c, rest));
    TokensRead(tokens);
    PrintedTokensDiffer(n, c, rest);
    FieldAt(tokens, 0, n.host, "host=", c.host, found.host);
    FieldAt(tokens, 1, n.key, "key=", c.key, found.key);
    FieldAt(tokens, 2, n.api, "api=", c.api, found.api);
    FieldAt(tokens, 3, n.relay, "relay=", c.relay, found.relay);
  }

  lemma CommaGuards(front: string, t: string)
    requires '.' !in t
    ensures !EndsWith(Lower(front + ([','] + t)), ".exe")
  {
    var s := front + ([','] + t);
    var n := |s| - 4;
    if n >= 0 {
      assert s[|front|] == ',';
      assert n > |front| ==> s[n] in t;
      assert EndsWith(Lower(s), ".exe") ==> Lower(s)[n..] == ".exe";
      if EndsWith(Lower(s), ".exe") {
        ExeChars(s, n, if n <= |front| then |front| - n else 0);
      }
    }
  }

  lemma ExeChars(s: string, n: nat, j: nat)
    requires n + 4 == |s| && Lower(s)[n..] == ".exe" && j < 4
    ensures LowerChar(s[n + j]) == ".exe"[j]
  {
    assert Lower(s)[n..][j] == LowerChar(s[n + j]);
  }

  lemma JoinLast(front: seq<string>, t: string, sep: char) returns (head: string)
    requires front != []
    ensures Join(front + [t], sep) == head + ([sep] + t)
    ensures Join(front, sep) == head
    decreases |front|
  {
    head := Join(front, sep);
    if |front| == 1 {
      assert (front + [t])[1..] == [t];
    } else {
      var h := JoinLast(front[1..], t, sep);
      assert (front + [t])[1..] == front[1..] + [t];
    }
  }

  ghost predicate NoCommas(c: CustomServer) {
    ',' !in c.host && ',' !in c.key && ',' !in c.api && ',' !in c.relay
  }

  /**
   With a final comma as the delimiter that the source's comment asks for, a name printed
   with its field names in any letter case gives back its fields, whatever they end in and
   whatever duplicate suffix follows, if and only if no field has a comma itself.
   */
  lemma HostNameRoundTrip(n: Names, c: CustomServer, p: string, ns: seq<nat>, ext: string, read: Reader)
    requires FieldNamesOf(n) && !Contains(Lower(p), HOST) && Lower(ext) in {"", ".exe", ".exe.exe"}
    ensures FromString(p + Join(PrintTokens(n, c, Copies(ns)), ',') + ext, read) == Some(c) <==> NoCommas(c)
  {
    CopiesChars(ns);
    PrintedTokensGuarded(n, c, p, Copies(ns));
    PrintedTokensStart(n, c, p, Copies(ns));
    if NoCommas(c) {
      PrintedTokensBack(n, c, p, ns, ext, read);
    } else {
      var body := p + Join(PrintTokens(n, c, Copies(ns)), ',');
      ExtensionStripped(body, ext);
      TokenFieldsLackComma(body, read);
    }
  }

  lemma PrintedTokensBack(n: Names, c: CustomServer, p: string, ns: seq<nat>, ext: string, read: Reader)
    requires FieldNamesOf(n) && NoCommas(c) && Extended(p + Join(PrintTokens(n, c, Copies(ns)), ','), ext)
    requires !Contains(Lower(p), HOST)
    ensures FromString(p + Join(PrintTokens(n, c, Copies(ns)), ',') + ext, read) == Some(c)
  {
    CopiesNoComma(ns);
    PrintedTokensCommaFree(n, c, Copies(ns));
    PrintedTokensStart(n, c, p, Copies(ns));
    TokensParsed(p, PrintTokens(n, c, Copies(ns)), ext, read);
    CopiesStart(ns);
    ReadPrintedTokens(n, c, Copies(ns));
  }

  /** What the readable form gives never has a comma. */
  lemma TokenFieldsLackComma(body: string, read: Reader)
    requires Contains(Lower(body), HOST)
    ensures FromBody(body, read).Some? && NoCommas(FromBody(body, read).value)
  {
    var text := body[Find(Lower(body), HOST)..];
    var tokens := Split(text, ",");
    forall i: nat | i < |tokens| ensures ',' !in tokens[i] {
      PiecesLackSeparator(text, ',', i);
    }
    LastWithLacks(tokens, HOST, ',');
    LastWithLacks(tokens, "key=", ',');
    LastWithLacks(tokens, "api=", ',');
    LastWithLacks(tokens, "relay=", ',');
  }

  lemma {:induction false} LastWithLacks(tokens: seq<string>, prefix: string, c: char)
    requires forall i :: 0 <= i < |tokens| ==> c !in tokens[i]
    ensures c !in LastWith(tokens, prefix)
  {
    if tokens != [] {
      LastWithLacks(tokens[..|tokens| - 1], prefix, c);
    }
  }

  ghost predicate CommaFree(tokens: seq<string>) {
    forall i :: 0 <= i < |tokens| ==> ',' !in tokens[i]
  }

  lemma NameLacksComma(n: string, name: string)
    requires NameOf(n, name) && ',' !in name
    ensures ',' !in n
  {
    forall i | 0 <= i < |n| ensures n[i] != ',' {
      assert AnyCase(n[i], name[i]) && name[i] in name;
    }
  }

  lemma PrintedTokensCommaFree(n: Names, c: CustomServer, t: string)
    requires FieldNamesOf(n) && ',' !in t && NoCommas(c)
    ensures CommaFree(PrintTokens(n, c, t))
  {
    NameLacksComma(n.host, "host=");
    NameLacksComma(n.key, "key=");
    NameLacksComma(n.api, "api=");
    NameLacksComma(n.relay, "relay=");
  }

  lemma PrintedTokensGuarded(n: Names, c: CustomServer, p: string, t: string)
    requires '.' !in t
    ensures !EndsWith(Lower(p + Join(PrintTokens(n, c, t), ',')), ".exe")
  {
    var tokens := PrintTokens(n, c, t);
    var head := JoinLast(tokens[..4], t, ',');
    assert tokens == tokens[..4] + [t];
    CommaGuards(p + head, t);
    assert p + (head + ([','] + t)) == p + head + ([','] + t);
  }

  lemma PrintedTokensStart(n: Names, c: CustomServer, p: string, t: string)
    requires FieldNamesOf(n) && !Contains(Lower(p), HOST)
    ensures StartsWith(Lower(PrintTokens(n, c, t)[0]), HOST)
    ensures AbsentBefore(Lower(p + Join(PrintTokens(n, c, t), ',')), HOST, |p|)
    ensures Contains(Lower(p + Join(PrintTokens(n, c, t), ',')), HOST)
  {
    var tokens := PrintTokens(n, c, t);
    FieldNames();
    NamedToken(n.host, "host=", c.host);
    LowerSpells(tokens[0], HOST);
    JoinStarts(tokens, ',');
    SpellsOn(tokens[0], Join(tokens, ','), HOST);
    HostFirst(p, Join(tokens, ','));
    HostOccurs(p, Join(tokens, ','), tokens[0]);
  }

  lemma SpellsOn(s: string, longer: string, name: string)
    requires Spells(s, name) && |longer| >= |s| && longer[..|s|] == s
    ensures Spells(longer, name)
  {
    forall i | 0 <= i < |name| ensures AnyCase(longer[i], name[i]) {
      assert longer[i] == longer[..|s|][i];
    }
  }

  lemma {:induction false} CopiesNoComma(ns: seq<nat>)
    ensures ',' !in Copies(ns)
  {
    if ns != [] {
      CopiesNoComma(ns[1..]);
    }
  }

  lemma CopiesStart(ns: seq<nat>)
    ensures NoField(Copies(ns))
  {
    FirstLetters();
    if ns != [] {
      assert Copies(ns)[0] == ' ';
      forall name | name in {"host=", "key=", "api=", "relay="} ensures !Spells(Copies(ns), name) {
        assert !AnyCase(' ', name[0]);
      }
    }
  }

  lemma HostFirst(p: string, joined: string)
    requires !Contains(Lower(p), HOST) && Spells(joined, HOST)
    ensures AbsentBefore(Lower(p + joined), HOST, |p|)
  {
    var low := Lower(p + joined);
    assert low == Lower(p) + Lower(joined);
    forall k: nat | k < |p| ensures !OccursAt(low, HOST, k) {
      if k + 5 <= |p| {
        OccursInPrefix(Lower(p), Lower(joined), HOST, k);
        assert !OccursAt(Lower(p), HOST, k);
      } else {
        var j := k + 4 - |p|;
        assert AnyCase(joined[j], HOST[j]) && low[k + 4] == LowerChar(joined[j]);
        if OccursAt(low, HOST, k) {
          OccursChar(low, HOST, k, 4);
        }
      }
    }
  }
}
