/**
 The list of rendezvous servers: how the service hands it to other processes as one
 line of text, and how a process chooses a server from it.
 */
module ServerList {
  import opened Prelude
  import opened Text

  const COMMA := ','
  const PORT_SUFFIX := ":21116"

  // ----- Names with and without a port -----

  predicate HexDigit(c: char) {
    '0' <= c <= '9' || 'a' <= c <= 'f' || 'A' <= c <= 'F'
  }

  /** Some window of `n` neighbouring characters is made of hexadecimal digits, or of colons. */
  predicate HasRun(s: string, n: nat, hex: bool) {
    exists k :: 0 <= k <= |s| - n && RunAt(s, k, n, hex)
  }

  predicate RunAt(s: string, k: nat, n: nat, hex: bool)
    requires k + n <= |s|
  {
    forall i :: k <= i < k + n ==> if hex then HexDigit(s[i]) else s[i] == ':'
  }

  /** Groups of one to four hexadecimal digits, at least two, with one or two colons between neighbours. */
  predicate BareIpv6(s: string) {
    && s != [] && HexDigit(s[0]) && HexDigit(s[|s| - 1])
    && (forall c :: c in s ==> HexDigit(c) || c == ':') && ':' in s
    && !HasRun(s, 5, true) && !HasRun(s, 3, false)
  }

  /** Such an address in brackets, with a port. */
  predicate BracketedIpv6(s: string) {
    exists k :: 0 < k < |s| - 2 && ClosesAt(s, k)
  }

  predicate ClosesAt(s: string, k: nat)
    requires 0 < k < |s| - 2
  {
    && s[0] == '[' && BareIpv6(s[1..k]) && s[k] == ']' && s[k + 1] == ':'
    && forall i :: k + 2 <= i < |s| ==> '0' <= s[i] <= '9'
  }

  // The regular expression of an IPv6 address: ([a-fA-F0-9]{1,4}:{1,2})+[a-fA-F0-9]{1,4}

  const HEX: set<char> := {
    '0', '1', '2', '3', '4', '5', '6', '7', '8', '9', 'a', 'b', 'c', 'd', 'e', 'f', 'A', 'B', 'C', 'D', 'E', 'F'}

  ghost predicate HexGroup(s: string) {
    1 <= |s| <= 4 && forall i :: 0 <= i < |s| ==> s[i] in HEX
  }

  /** A group in front of `i`, and one or two colons in front of `j`. */
  ghost predicate SplitsAt(s: string, i: nat, j: nat) {
    i < j <= |s| && HexGroup(s[..i]) && s[i..j] in {":", "::"}
  }

  ghost predicate Ipv6(s: string)
    decreases |s|
  {
    exists i: nat, j: nat :: SplitsAt(s, i, j) && (HexGroup(s[j..]) || Ipv6(s[j..]))
  }

  lemma HexDigitMeaning(c: char)
    ensures HexDigit(c) <==> c in HEX
  {
  }

  lemma HexGroupMeaning(s: string)
    ensures HexGroup(s) <==> 1 <= |s| <= 4 && forall i :: 0 <= i < |s| ==> HexDigit(s[i])
  {
    forall i | 0 <= i < |s| ensures HexDigit(s[i]) <==> s[i] in HEX {
      HexDigitMeaning(s[i]);
    }
  }

  lemma RunBehind(s: string, j: nat, k: nat, n: nat, hex: bool)
    requires j <= |s| && k + n <= |s| - j
    ensures RunAt(s[j..], k, n, hex) <==> RunAt(s, j + k, n, hex)
  {
    if RunAt(s, j + k, n, hex) {
      assert forall i :: k <= i < k + n ==> s[j..][i] == s[j + i];
    }
    if RunAt(s[j..], k, n, hex) {
      forall i | j + k <= i < j + k + n ensures if hex then HexDigit(s[i]) else s[i] == ':' {
        assert s[i] == s[j..][i - j];
      }
    }
  }

  /** What stands in front of the rest: hexadecimal digits, then colons. */
  ghost predicate Front(s: string, i: nat, j: nat) {
    && 1 <= i <= 4 && i < j <= i + 2 && j < |s|
    && (forall k :: 0 <= k < i ==> HexDigit(s[k])) && (forall k :: i <= k < j ==> s[k] == ':')
    && HexDigit(s[j]) && HexDigit(s[|s| - 1])
  }

  lemma NoRunInFront(s: string, i: nat, j: nat, k: nat)
    requires Front(s, i, j) && k < j
    ensures k + 5 <= |s| ==> !RunAt(s, k, 5, true)
    ensures k + 3 <= |s| ==> !RunAt(s, k, 3, false)
  {
    assert s[if k < i then i else k] == ':' && HexDigit(s[if k < i then k else j]);
  }

  lemma FrontRuns(s: string, i: nat, j: nat, n: nat, hex: bool)
    requires Front(s, i, j) && (n, hex) in {(5, true), (3, false)}
    ensures HasRun(s, n, hex) <==> HasRun(s[j..], n, hex)
  {
    if k :| 0 <= k <= |s| - n && RunAt(s, k, n, hex) {
      if k >= j {
        RunBehind(s, j, k - j, n, hex);
      } else {
        NoRunInFront(s, i, j, k);
      }
    }
    if k :| 0 <= k <= |s[j..]| - n && RunAt(s[j..], k, n, hex) {
      RunBehind(s, j, k, n, hex);
    }
  }

  ghost predicate Spelled(s: string) {
    forall k :: 0 <= k < |s| ==> HexDigit(s[k]) || s[k] == ':'
  }

  lemma BareMeaning(s: string)
    ensures BareIpv6(s) <==>
      && s != [] && HexDigit(s[0]) && HexDigit(s[|s| - 1]) && Spelled(s) && ':' in s
      && !HasRun(s, 5, true) && !HasRun(s, 3, false)
  {
    if Spelled(s) {
      forall c | c in s ensures HexDigit(c) || c == ':' {
        var k :| 0 <= k < |s| && s[k] == c;
      }
    }
  }

  lemma OneGroup(s: string)
    requires s != [] && HexDigit(s[0]) && HexDigit(s[|s| - 1]) && Spelled(s) && ':' !in s
    ensures HexGroup(s) <==> !HasRun(s, 5, true) && !HasRun(s, 3, false)
  {
    HexGroupMeaning(s);
    assert forall k :: 0 <= k < |s| ==> s[k] in s;
    if |s| > 4 {
      assert RunAt(s, 0, 5, true);
    }
    forall k | 0 <= k <= |s| - 3 ensures !RunAt(s, k, 3, false) {
      assert s[k] != ':';
    }
  }

  /** Behind its front a name is an address or a last group exactly if it is an address itself. */
  lemma FrontIsBare(s: string, i: nat, j: nat)
    requires Front(s, i, j)
    ensures BareIpv6(s) <==> BareIpv6(s[j..]) || HexGroup(s[j..])
  {
    var rest := s[j..];
    FrontRuns(s, i, j, 5, true);
    FrontRuns(s, i, j, 3, false);
    BareMeaning(s);
    BareMeaning(rest);
    assert s[i] in s && rest[0] == s[j] && rest[|rest| - 1] == s[|s| - 1];
    FrontSpelled(s, i, j);
    if Spelled(rest) && ':' !in rest {
      OneGroup(rest);
    }
    HexGroupMeaning(rest);
    if HexGroup(rest) {
      assert forall c :: c in rest ==> HexDigit(c);
    }
  }

  lemma FrontSpelled(s: string, i: nat, j: nat)
    requires Front(s, i, j)
    ensures Spelled(s) <==> Spelled(s[j..])
  {
    assert forall k :: 0 <= k < |s| - j ==> s[j..][k] == s[j + k];
    if Spelled(s[j..]) {
      forall k | 0 <= k < |s| ensures HexDigit(s[k]) || s[k] == ':' {
        if k >= j {
          assert s[k] == s[j..][k - j];
        }
      }
    }
  }

  lemma FrontSplits(s: string, i: nat, j: nat)
    requires i < j < |s| && HexDigit(s[j]) && HexDigit(s[|s| - 1])
    ensures Front(s, i, j) <==> HexGroup(s[..i]) && s[i..j] in {":", "::"}
  {
    HexGroupMeaning(s[..i]);
    if s[i..j] in {":", "::"} {
      forall k | i <= k < j ensures s[k] == ':' {
        assert s[k] == s[i..j][k - i];
      }
    }
    if Front(s, i, j) {
      assert |s[i..j]| == 1 ==> s[i..j] == ":";
      assert |s[i..j]| == 2 ==> s[i..j] == "::";
    }
    assert forall k :: 0 <= k < i ==> s[..i][k] == s[k];
  }

  /** The end of the first group and of the colons behind it. */
  lemma FindFront(s: string) returns (i: nat, j: nat)
    requires BareIpv6(s)
    ensures Front(s, i, j)
  {
    BareMeaning(s);
    i := 0;
    while s[i] != ':'
      invariant i < |s| && forall k :: 0 <= k < i ==> s[k] != ':'
      decreases |s| - i
    {
      if i == |s| - 1 {
        assert forall k :: 0 <= k < |s| ==> s[k] != ':';
        assert false;
      }
      i := i + 1;
    }
    if i > 4 {
      assert RunAt(s, 0, 5, true);
      assert false;
    }
    j := if s[i + 1] == ':' then i + 2 else i + 1;
    if s[i + 1] == ':' && s[i + 2] == ':' {
      assert RunAt(s, i, 3, false);
      assert false;
    }
  }

  /** The windows of a bare address amount to the regular expression. */
  lemma {:induction false} BareIsIpv6(s: string)
    ensures BareIpv6(s) <==> Ipv6(s)
    decreases |s|
  {
    if BareIpv6(s) {
      var i, j := FindFront(s);
      FrontIsBare(s, i, j);
      FrontSplits(s, i, j);
      BareIsIpv6(s[j..]);
      assert SplitsAt(s, i, j);
    }
    if Ipv6(s) {
      var i: nat, j: nat :| SplitsAt(s, i, j) && (HexGroup(s[j..]) || Ipv6(s[j..]));
      BareIsIpv6(s[j..]);
      RestEnds(s[j..]);
      assert s[j..][0] == s[j] && s[j..][|s| - j - 1] == s[|s| - 1];
      FrontSplits(s, i, j);
      FrontIsBare(s, i, j);
    }
  }

  lemma RestEnds(s: string)
    requires HexGroup(s) || BareIpv6(s)
    ensures s != [] && HexDigit(s[0]) && HexDigit(s[|s| - 1])
  {
    HexGroupMeaning(s);
  }

  /** And the other form of the expression is such an address in brackets, with a port. */
  lemma BracketedMeaning(s: string)
    ensures BracketedIpv6(s) <==> exists a, d :: Brackets(s, a, d) && Ipv6(a) && PortDigits(d)
  {
    if k :| 0 < k < |s| - 2 && ClosesAt(s, k) {
      BareIsIpv6(s[1..k]);
      OpenBrackets(s, k);
    }
    if a, d :| Brackets(s, a, d) && Ipv6(a) && PortDigits(d) {
      BareIsIpv6(a);
      CloseBrackets(s, a, d);
    }
  }

  ghost predicate Brackets(s: string, a: string, d: string) {
    s == "[" + a + "]:" + d
  }

  lemma OpenBrackets(s: string, k: nat)
    requires 0 < k < |s| - 2 && ClosesAt(s, k)
    ensures Brackets(s, s[1..k], s[k + 2..]) && PortDigits(s[k + 2..])
  {
    var d := s[k + 2..];
    forall i | 0 <= i < |d| ensures '0' <= d[i] <= '9' {
      assert d[i] == s[k + 2 + i];
    }
  }

  lemma CloseBrackets(s: string, a: string, d: string)
    requires Brackets(s, a, d) && BareIpv6(a) && PortDigits(d)
    ensures BracketedIpv6(s)
  {
    var k := |a| + 1;
    assert s[1..k] == a;
    forall i | k + 2 <= i < |s| ensures '0' <= s[i] <= '9' {
      assert s[i] == d[i - k - 2];
    }
    assert ClosesAt(s, k);
  }

  ghost predicate PortDigits(d: string) {
    d != [] && forall i :: 0 <= i < |d| ==> d[i] in {'0', '1', '2', '3', '4', '5', '6', '7', '8', '9'}
  }

  /** Gives a name its port, if it has none. */
  function CheckPort(host: string): string {
    if BareIpv6(host) || BracketedIpv6(host) then
      if StartsWith(host, "[") then host else "[" + host + "]" + PORT_SUFFIX
    else if ':' !in host then host + PORT_SUFFIX
    else host
  }

  lemma BareStaysBare(host: string)
    requires BareIpv6(host)
    ensures CheckPort(host) == "[" + host + "]" + PORT_SUFFIX && BracketedIpv6(CheckPort(host))
    ensures host[0] != '[' && CheckPort(host) != host
  {
    var s := "[" + host + "]" + PORT_SUFFIX;
    assert s[1..|host| + 1] == host;
    assert ClosesAt(s, |host| + 1);
    assert host[..1] == [host[0]];
  }

  /** A port of five digits does not make a name look like an address. */
  lemma PlainStaysPlain(host: string)
    requires ':' !in host
    ensures !BareIpv6(host + PORT_SUFFIX) && !BracketedIpv6(host + PORT_SUFFIX)
  {
    var s := host + PORT_SUFFIX;
    assert RunAt(s, |host| + 1, 5, true);
    forall k | 0 < k < |s| - 2 ensures !ClosesAt(s, k) {
    }
  }

  /** A name that was given its port keeps it. */
  lemma CheckPortSettles(host: string)
    ensures CheckPort(CheckPort(host)) == CheckPort(host)
  {
    if BareIpv6(host) {
      BareStaysBare(host);
    } else if ':' !in host {
      NoColonNoAddress(host);
      PlainStaysPlain(host);
    }
  }

  lemma NoColonNoAddress(host: string)
    requires ':' !in host
    ensures !BareIpv6(host) && !BracketedIpv6(host)
  {
    forall k | 0 < k < |host| - 2 ensures !ClosesAt(host, k) {
    }
  }

  lemma CheckPortForm(host: string)
    ensures BareIpv6(host) ==> CheckPort(host) == "[" + host + "]" + PORT_SUFFIX
    ensures !BareIpv6(host) ==> CheckPort(host) == if ':' in host then host else host + PORT_SUFFIX
  {
    if BareIpv6(host) {
      BareStaysBare(host);
    } else if ':' !in host {
      NoColonNoAddress(host);
    } else if k :| 0 < k < |host| - 2 && ClosesAt(host, k) {
      assert host[..1] == "[";
    }
  }

  // ----- The list as text -----

  /** The preferred server of a configuration. */
  function Preferred(servers: seq<string>): string {
    var first := if servers == [] then "" else servers[0];
    if ':' in first then first else first + PORT_SUFFIX
  }

  function Reply(chosen: string, servers: seq<string>): string {
    chosen + ([COMMA] + Join(servers, COMMA))
  }

  function ParseReply(text: string): (string, seq<string>) {
    var urls := Split(text, [COMMA]);
    (urls[0], urls[1..])
  }

  predicate NoComma(names: seq<string>) {
    forall i :: 0 <= i < |names| ==> COMMA !in names[i]
  }

  lemma ReplyIsJoin(chosen: string, servers: seq<string>)
    ensures Reply(chosen, servers) == Join([chosen] + if servers == [] then [""] else servers, COMMA)
  {
    var pieces := [chosen] + if servers == [] then [""] else servers;
    assert pieces[1..] == if servers == [] then [""] else servers;
  }

  lemma JoinOfOne(name: string)
    ensures Join([name], COMMA) == name
  {
  }

  /** Reading the reply gives server and list back exactly if no name has a comma and the list is not empty. */
  lemma ReplyRoundTrip(chosen: string, servers: seq<string>)
    ensures ParseReply(Reply(chosen, servers)) == (chosen, servers) <==> NoComma([chosen] + servers) && servers != []
  {
    ReplyIsJoin(chosen, servers);
    var text, pieces := Reply(chosen, servers), [chosen] + servers;
    if NoComma(pieces) && servers != [] {
      SplitJoin(pieces, COMMA);
    }
    if ParseReply(text) == (chosen, servers) {
      assert Split(text, [COMMA]) == pieces;
      forall i | 0 <= i < |pieces| ensures COMMA !in pieces[i] {
        PiecesLackSeparator(text, COMMA, i);
      }
      if servers == [] {
        JoinSplit(text, COMMA);
        JoinOfOne(chosen);
        assert false;
      }
    }
  }

  /** An empty list comes out as a list of one empty name. */
  lemma EmptyReply(chosen: string)
    requires COMMA !in chosen
    ensures ParseReply(Reply(chosen, [])) == (chosen, [""])
  {
    ReplyIsJoin(chosen, []);
    SplitJoin([chosen, ""], COMMA);
  }

  // ----- The choice -----

  datatype Choice = Choice(server: string, others: seq<string>, contained: bool)

  function WithPorts(servers: seq<string>): (r: seq<string>)
    ensures |r| == |servers|
  {
    if servers == [] then [] else [CheckPort(servers[0])] + WithPorts(servers[1..])
  }

  lemma {:induction false} WithPortAt(servers: seq<string>, i: nat)
    requires i < |servers|
    ensures WithPorts(servers)[i] == CheckPort(servers[i])
  {
    if i > 0 {
      WithPortAt(servers[1..], i - 1);
    }
  }

  function Without(servers: seq<string>, server: string): (r: seq<string>)
    ensures server !in r
    ensures multiset(r) == multiset(servers)[server := 0]
  {
    if servers == [] then []
    else
      assert servers == [servers[0]] + servers[1..];
      (if servers[0] == server then [] else [servers[0]]) + Without(servers[1..], server)
  }

  /** The choice for a preferred server and a list; a licensed executable names its own server. */
  function Choose(preferred: string, servers: seq<string>, licensed: Option<string>): Choice {
    ChooseFrom(if licensed.Some? && licensed.value != "" then licensed.value else preferred, WithPorts(servers))
  }

  function ChooseFrom(a: string, b: seq<string>): Choice {
    if a in b then Choice(a, Without(b, a), true)
    else if b == [] then Choice(a, [], false)
    else Choice(b[|b| - 1], b[..|b| - 1], false)
  }

  lemma ChoiceMeaning(a: string, b: seq<string>)
    ensures var c := ChooseFrom(a, b);
      && (c.contained <==> a in b) && (a in b || b == [] ==> c.server == a)
      && (!c.contained && b != [] ==> c.server == b[|b| - 1] && c.others == b[..|b| - 1])
      && (c.server !in c.others <==> c.contained || b == [] || b[|b| - 1] !in b[..|b| - 1])
  {
  }

  /** The server that is to be preferred is chosen if it is listed or nothing is, else the last of the list. */
  ghost predicate Chosen(preferred: string, servers: seq<string>, licensed: Option<string>, c: Choice) {
    var b := WithPorts(servers);
    var a := match licensed case None => preferred case Some(l) => if |l| > 0 then l else preferred;
    && (c.contained <==> a in b)
    && (if a in b then c.server == a && multiset(c.others) == multiset(b)[a := 0]
        else if |servers| == 0 then c.server == a && c.others == []
        else c.others + [c.server] == b)
  }

  lemma ChooseIsChosen(preferred: string, servers: seq<string>, licensed: Option<string>)
    ensures Chosen(preferred, servers, licensed, Choose(preferred, servers, licensed))
  {
    var b := WithPorts(servers);
    if b != [] {
      assert b[..|b| - 1] + [b[|b| - 1]] == b;
    }
  }

  lemma LastSplit(b: seq<string>)
    requires b != []
    ensures multiset(b) == multiset(b[..|b| - 1]) + multiset{b[|b| - 1]}
  {
    assert b == b[..|b| - 1] + [b[|b| - 1]];
  }

  /** The chosen server and the others are the whole list: copies of the preferred server go, of the others none. */
  lemma NothingLost(preferred: string, servers: seq<string>, licensed: Option<string>)
    requires servers != []
    ensures var c, b := Choose(preferred, servers, licensed), WithPorts(servers);
      && multiset(c.others)[c.server := 0] == multiset(b)[c.server := 0]
      && c.server in b
      && (!c.contained ==> multiset(c.others) + multiset{c.server} == multiset(b))
  {
    var b := WithPorts(servers);
    LastSplit(b);
  }

  /** The client's assertion holds exactly if the preferred server is listed or the last one is listed once. */
  lemma NotAmongTheOthers(preferred: string, servers: seq<string>, licensed: Option<string>)
    ensures var c, b := Choose(preferred, servers, licensed), WithPorts(servers);
      c.server !in c.others <==> c.contained || b == [] || b[|b| - 1] !in b[..|b| - 1]
  {
    ChoiceMeaning(if licensed.Some? && licensed.value != "" then licensed.value else preferred, WithPorts(servers));
  }

  /** Chooses a server; it is among the others only if it is the last one, chosen without being preferred. */
  method GetRendezvousServer(preferred: string, servers: seq<string>, licensed: Option<string>) returns (c: Choice)
    ensures c == Choose(preferred, servers, licensed) && Chosen(preferred, servers, licensed, c)
    ensures servers != [] ==>
      c.server in WithPorts(servers) && multiset(c.others)[c.server := 0] == multiset(WithPorts(servers))[c.server := 0]
    ensures c.server in c.others ==>
      servers != [] && !c.contained && c.server == CheckPort(servers[|servers| - 1])
  {
    ChooseIsChosen(preferred, servers, licensed);
    NotAmongTheOthers(preferred, servers, licensed);
    if servers != [] {
      NothingLost(preferred, servers, licensed);
      WithPortAt(servers, |servers| - 1);
    }
    var a, b := preferred, WithPorts(servers);
    if licensed.Some? {
      if licensed.value != "" {
        a := licensed.value;
      }
    }
    if a in b {
      b := Without(b, a);
      return Choice(a, b, true);
    }
    if b != [] {
      a, b := b[|b| - 1], b[..|b| - 1];
    }
    return Choice(a, b, false);
  }

  lemma SettledInList(servers: seq<string>, name: string)
    requires name in WithPorts(servers)
    ensures CheckPort(name) == name
  {
    var i: nat :| i < |servers| && WithPorts(servers)[i] == name;
    WithPortAt(servers, i);
    CheckPortSettles(servers[i]);
  }

  /** Every server of the choice has its port, so that giving it one again changes nothing. */
  lemma PortsAreSettled(preferred: string, servers: seq<string>, licensed: Option<string>, name: string)
    requires servers != []
    requires var c := Choose(preferred, servers, licensed); name == c.server || name in c.others
    ensures CheckPort(name) == name
  {
    var c, b := Choose(preferred, servers, licensed), WithPorts(servers);
    NothingLost(preferred, servers, licensed);
    if name != c.server {
      assert name in multiset(c.others)[c.server := 0];
      assert name in multiset(b);
    }
    SettledInList(servers, name);
  }

  // ----- From the configuration of the service to the choice -----

  /** What another process chooses when the service has these servers. */
  function ChooseRemotely(servers: seq<string>): Choice {
    var (a, b) := ParseReply(Reply(Preferred(servers), servers));
    Choose(a, b, None)
  }

  lemma PreferredForm(servers: seq<string>)
    requires servers != []
    ensures COMMA !in servers[0] ==> COMMA !in Preferred(servers)
    ensures !BareIpv6(servers[0]) ==> Preferred(servers) == CheckPort(servers[0])
    ensures BareIpv6(servers[0]) ==> Preferred(servers) == servers[0] != CheckPort(servers[0])
  {
    CheckPortForm(servers[0]);
    if BareIpv6(servers[0]) {
      BareStaysBare(servers[0]);
    }
  }

  lemma RemoteIsLocal(servers: seq<string>)
    requires servers != [] && NoComma(servers)
    ensures ChooseRemotely(servers) == Choose(Preferred(servers), servers, None)
  {
    PreferredForm(servers);
    ReplyRoundTrip(Preferred(servers), servers);
    assert NoComma([Preferred(servers)] + servers);
  }

  /** The preferred server is listed unless it is a bare IPv6 address, which gets its brackets only in the list. */
  lemma PreferredIsListed(servers: seq<string>)
    requires servers != []
    ensures Preferred(servers) in WithPorts(servers) <==> !BareIpv6(servers[0])
  {
    PreferredForm(servers);
    WithPortAt(servers, 0);
    if BareIpv6(servers[0]) && Preferred(servers) in WithPorts(servers) {
      SettledInList(servers, Preferred(servers));
      assert false;
    }
  }

  /**
   With names free of commas the first server is chosen, except that a first server
   which is a bare IPv6 address is never recognised and the last server is chosen instead.
   */
  lemma FirstServerIsChosen(servers: seq<string>)
    requires servers != [] && NoComma(servers)
    ensures var c, b, last := ChooseRemotely(servers), WithPorts(servers), |servers| - 1;
      && (c.contained <==> !BareIpv6(servers[0]))
      && (c.contained ==> c.server == CheckPort(servers[0]))
      && (!c.contained ==> c.server == CheckPort(servers[last]))
      && (c.server !in c.others <==> c.contained || b[last] !in b[..last])
  {
    RemoteIsLocal(servers);
    PreferredForm(servers);
    PreferredIsListed(servers);
    WithPortAt(servers, |servers| - 1);
    ChoiceMeaning(Preferred(servers), WithPorts(servers));
  }

  /** Without servers a remote process finds one that is only a port, and finds it contained; a local one does not. */
  lemma NoServers()
    ensures ChooseRemotely([]) == Choice(PORT_SUFFIX, [], true)
    ensures Choose(Preferred([]), [], None) == Choice(PORT_SUFFIX, [], false)
  {
    assert Preferred([]) == PORT_SUFFIX;
    EmptyReply(PORT_SUFFIX);
    NoColonNoAddress("");
    assert WithPorts([""]) == [PORT_SUFFIX];
    assert Without([PORT_SUFFIX], PORT_SUFFIX) == [];
  }
}
