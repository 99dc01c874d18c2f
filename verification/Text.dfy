/** The string operations of Rust's standard library that the file-name parser uses. */
module Text {

  predicate OccursAt(s: string, pat: string, k: nat) {
    k + |pat| <= |s| && s[k..k + |pat|] == pat
  }

  predicate Contains(s: string, pat: string) {
    exists k :: 0 <= k <= |s| && OccursAt(s, pat, k)
  }

  function Decimal(n: nat): (s: string)
    ensures forall i :: 0 <= i < |s| ==> '0' <= s[i] <= '9'
  {
    if n < 10 then [(48 + n) as char] else Decimal(n / 10) + [(48 + n % 10) as char]
  }

  predicate StartsWith(s: string, pat: string) {
    OccursAt(s, pat, 0)
  }

  predicate EndsWith(s: string, pat: string) {
    |pat| <= |s| && s[|s| - |pat|..] == pat
  }

  /** `pat` starts at none of the first `n` positions of `s`. */
  ghost predicate AbsentBefore(s: string, pat: string, n: nat) {
    forall k: nat :: k < n ==> !OccursAt(s, pat, k)
  }

  /** The first position at which `pat` occurs, or the length of `s`. */
  function Find(s: string, pat: string): (r: nat)
    ensures r <= |s|
  {
    if s == [] || StartsWith(s, pat) then 0 else 1 + Find(s[1..], pat)
  }

  /** Replaces every occurrence, leftmost first and without overlap. */
  function Replace(s: string, pat: string, with: string): string
    requires pat != []
    decreases |s|
  {
    if StartsWith(s, pat) then with + Replace(s[|pat|..], pat, with)
    else if s == [] then []
    else [s[0]] + Replace(s[1..], pat, with)
  }

  /** The pieces between the occurrences of `pat`. */
  function Split(s: string, pat: string): (r: seq<string>)
    requires pat != []
    ensures r != []
    decreases |s|
  {
    if StartsWith(s, pat) then [[]] + Split(s[|pat|..], pat)
    else if s == [] then [[]]
    else
      var rest := Split(s[1..], pat);
      [[s[0]] + rest[0]] + rest[1..]
  }

  /** Unicode White_Space. */
  predicate IsSpace(c: char) {
    var n := c as int;
    9 <= n <= 13 || n == 32 || n == 0x85 || n == 0xA0 || n == 0x1680 || 0x2000 <= n <= 0x200A
    || n == 0x2028 || n == 0x2029 || n == 0x202F || n == 0x205F || n == 0x3000
  }

  /** The characters with the property White_Space. */
  const SPACES: set<int> := {
    9, 10, 11, 12, 13, 32, 0x85, 0xA0, 0x1680, 0x2000, 0x2001, 0x2002, 0x2003, 0x2004, 0x2005, 0x2006, 0x2007, 0x2008,
    0x2009, 0x200A, 0x2028, 0x2029, 0x202F, 0x205F, 0x3000}

  lemma SpaceTable(c: char)
    ensures IsSpace(c) <==> c as int in SPACES
  {
  }

  function TrimStart(s: string): string {
    if s != [] && IsSpace(s[0]) then TrimStart(s[1..]) else s
  }

  function TrimEnd(s: string): string {
    if s != [] && IsSpace(s[|s| - 1]) then TrimEnd(s[..|s| - 1]) else s
  }

  function Trim(s: string): string {
    TrimEnd(TrimStart(s))
  }

  function LowerChar(c: char): char {
    if 'A' <= c <= 'Z' then (c as int + 32) as char else c
  }

  function Lower(s: string): (r: string)
    ensures |r| == |s|
  {
    seq(|s|, i requires 0 <= i < |s| => LowerChar(s[i]))
  }

  /** `c` is the lower-case letter `d`, or that letter in upper case. */
  predicate AnyCase(c: char, d: char) {
    c == d || ('a' <= d <= 'z' && c as int + ('a' as int - 'A' as int) == d as int)
  }

  /** `s` starts with `name` in any letter case. */
  ghost predicate Spells(s: string, name: string) {
    |name| <= |s| && forall i :: 0 <= i < |name| ==> AnyCase(s[i], name[i])
  }

  ghost predicate NoUpper(name: string) {
    forall i :: 0 <= i < |name| ==> !('A' <= name[i] <= 'Z')
  }

  lemma LowerSpells(s: string, name: string)
    requires NoUpper(name)
    ensures StartsWith(Lower(s), name) <==> Spells(s, name)
  {
    if |name| <= |s| {
      if StartsWith(Lower(s), name) {
        forall i | 0 <= i < |name| ensures AnyCase(s[i], name[i]) {
          assert Lower(s)[..|name|][i] == LowerChar(s[i]);
        }
      }
      if Spells(s, name) {
        assert Lower(s)[..|name|] == name;
      }
    }
  }

  function Reverse<T>(s: seq<T>): (r: seq<T>)
    ensures |r| == |s|
    ensures forall i :: 0 <= i < |s| ==> r[i] == s[|s| - 1 - i]
  {
    if s == [] then [] else Reverse(s[1..]) + [s[0]]
  }

  lemma ReverseReverse<T>(s: seq<T>)
    ensures Reverse(Reverse(s)) == s
  {
  }

  lemma DropOccursAt(s: string, pat: string, k: nat)
    requires s != []
    ensures OccursAt(s[1..], pat, k) <==> OccursAt(s, pat, k + 1)
  {
    if k + 1 + |pat| <= |s| {
      assert s[1..][k..k + |pat|] == s[k + 1..k + 1 + |pat|];
    }
  }

  lemma DropAbsent(s: string, pat: string, n: nat)
    requires s != [] && n > 0 && AbsentBefore(s, pat, n)
    ensures AbsentBefore(s[1..], pat, n - 1)
  {
    forall k: nat | k < n - 1 ensures !OccursAt(s[1..], pat, k) {
      DropOccursAt(s, pat, k);
    }
  }

  /** A stretch in which the pattern does not start is copied. */
  lemma {:induction false} ReplaceAfter(s: string, pat: string, with: string, n: nat)
    requires pat != [] && n <= |s| && AbsentBefore(s, pat, n)
    ensures Replace(s, pat, with) == s[..n] + Replace(s[n..], pat, with)
  {
    if n > 0 {
      assert !OccursAt(s, pat, 0);
      DropAbsent(s, pat, n);
      ReplaceAfter(s[1..], pat, with, n - 1);
      assert s[1..][n - 1..] == s[n..];
      assert [s[0]] + s[1..][..n - 1] == s[..n];
    }
  }

  lemma ReplaceAbsent(s: string, pat: string, with: string)
    requires pat != [] && !Contains(s, pat)
    ensures Replace(s, pat, with) == s
  {
    ReplaceAfter(s, pat, with, |s|);
    assert s[..|s|] == s && s[|s|..] == [];
  }

  lemma SplitStep(s: string, pat: string)
    requires pat != [] && s != [] && !OccursAt(s, pat, 0)
    ensures Split(s, pat) == [[s[0]] + Split(s[1..], pat)[0]] + Split(s[1..], pat)[1..]
  {
  }

  lemma {:induction false} SplitAbsent(s: string, pat: string)
    requires pat != [] && AbsentBefore(s, pat, |s|)
    ensures Split(s, pat) == [s]
  {
    if s != [] {
      DropAbsent(s, pat, |s|);
      SplitAbsent(s[1..], pat);
      assert !OccursAt(s, pat, 0);
      SplitStep(s, pat);
      assert [s[0]] + s[1..] == s;
    }
  }

  /** The pattern starts at `n`, and nowhere before. */
  predicate FirstAt(s: string, pat: string, n: nat) {
    if n == 0 then OccursAt(s, pat, 0) else s != [] && !OccursAt(s, pat, 0) && FirstAt(s[1..], pat, n - 1)
  }

  lemma {:induction false} FirstIsFirst(s: string, pat: string, n: nat)
    requires pat != [] && AbsentBefore(s, pat, n) && OccursAt(s, pat, n)
    ensures FirstAt(s, pat, n)
  {
    if n > 0 {
      assert !OccursAt(s, pat, 0);
      DropAbsent(s, pat, n);
      DropOccursAt(s, pat, n - 1);
      FirstIsFirst(s[1..], pat, n - 1);
    }
  }

  lemma {:induction false} SplitFirstAt(s: string, pat: string, n: nat)
    requires pat != [] && FirstAt(s, pat, n)
    ensures n + |pat| <= |s| && Split(s, pat) == [s[..n]] + Split(s[n + |pat|..], pat)
  {
    if n > 0 {
      SplitFirstAt(s[1..], pat, n - 1);
      SplitStep(s, pat);
      FirstLonger(s, n, Split(s[n + |pat|..], pat), |pat|, Split(s[1..], pat));
    } else {
      SplitSeparator(s, pat);
      assert s[..0] == [];
    }
  }

  lemma FirstLonger(s: string, n: nat, tail: seq<string>, m: nat, rest: seq<string>)
    requires 0 < n && n + m <= |s|
    ensures s[1..][n - 1 + m..] == s[n + m..]
    ensures rest == [s[1..][..n - 1]] + tail ==> [[s[0]] + rest[0]] + rest[1..] == [s[..n]] + tail
  {
    assert [s[0]] + s[1..][..n - 1] == s[..n];
  }

  /** The first piece runs up to the first separator. */
  lemma SplitAt(s: string, pat: string, n: nat)
    requires pat != [] && AbsentBefore(s, pat, n) && OccursAt(s, pat, n)
    ensures Split(s, pat) == [s[..n]] + Split(s[n + |pat|..], pat)
  {
    FirstIsFirst(s, pat, n);
    SplitFirstAt(s, pat, n);
  }

  lemma {:induction false} FindFirst(s: string, pat: string, n: nat)
    requires pat != [] && OccursAt(s, pat, n) && AbsentBefore(s, pat, n)
    ensures Find(s, pat) == n
  {
    if n > 0 {
      assert !OccursAt(s, pat, 0);
      DropAbsent(s, pat, n);
      DropOccursAt(s, pat, n - 1);
      FindFirst(s[1..], pat, n - 1);
    }
  }

  lemma {:induction false} TrimEndSpaces(s: string, spaces: string)
    requires forall i :: 0 <= i < |spaces| ==> IsSpace(spaces[i])
    requires s != [] && !IsSpace(s[|s| - 1])
    ensures TrimEnd(s + spaces) == s
    decreases |spaces|
  {
    if spaces == [] {
      assert s + spaces == s;
    } else {
      var t := s + spaces;
      assert t[..|t| - 1] == s + spaces[..|spaces| - 1];
      TrimEndSpaces(s, spaces[..|spaces| - 1]);
    }
  }

  lemma {:induction false} TrimStartKeeps(s: string, c: char)
    requires c in s && !IsSpace(c)
    ensures c in TrimStart(s)
  {
    if IsSpace(s[0]) {
      assert c in s[1..];
      TrimStartKeeps(s[1..], c);
    }
  }

  lemma {:induction false} TrimEndKeeps(s: string, c: char)
    requires c in s && !IsSpace(c)
    ensures c in TrimEnd(s)
  {
    if IsSpace(s[|s| - 1]) {
      assert c in s[..|s| - 1];
      TrimEndKeeps(s[..|s| - 1], c);
    }
  }

  /** Trimming drops only white space. */
  lemma TrimKeeps(s: string, c: char)
    requires c in s && !IsSpace(c)
    ensures c in Trim(s)
  {
    TrimStartKeeps(s, c);
    TrimEndKeeps(TrimStart(s), c);
  }

  function Join(pieces: seq<string>, sep: char): string {
    if pieces == [] then []
    else if |pieces| == 1 then pieces[0]
    else pieces[0] + ([sep] + Join(pieces[1..], sep))
  }

  lemma AbsentChar(s: string, sep: char)
    requires sep !in s
    ensures AbsentBefore(s, [sep], |s|)
  {
    forall k: nat | k < |s| ensures !OccursAt(s, [sep], k) {
      assert s[k..k + 1] == [s[k]];
    }
  }

  lemma AbsentFront(x: string, y: string, sep: char)
    requires sep !in x
    ensures AbsentBefore(x + ([sep] + y), [sep], |x|) && OccursAt(x + ([sep] + y), [sep], |x|)
  {
    var s := x + ([sep] + y);
    forall k: nat | k < |x| ensures !OccursAt(s, [sep], k) {
      assert s[k..k + 1] == [x[k]];
    }
    assert s[|x|..|x| + 1] == [sep];
  }

  lemma SplitFirst(x: string, y: string, sep: char)
    requires sep !in x
    ensures Split(x + ([sep] + y), [sep]) == [x] + Split(y, [sep])
  {
    var s := x + ([sep] + y);
    AbsentFront(x, y, sep);
    SplitAt(s, [sep], |x|);
    assert s[..|x|] == x && s[|x| + 1..] == y;
  }

  lemma JoinStarts(pieces: seq<string>, sep: char)
    requires pieces != []
    ensures |pieces[0]| <= |Join(pieces, sep)| && Join(pieces, sep)[..|pieces[0]|] == pieces[0]
  {
  }

  /** Splitting undoes joining when no piece contains the separator. */
  lemma {:induction false} SplitJoin(pieces: seq<string>, sep: char)
    requires pieces != []
    requires forall i :: 0 <= i < |pieces| ==> sep !in pieces[i]
    ensures Split(Join(pieces, sep), [sep]) == pieces
  {
    if |pieces| == 1 {
      AbsentChar(pieces[0], sep);
      SplitAbsent(pieces[0], [sep]);
    } else {
      SplitFirst(pieces[0], Join(pieces[1..], sep), sep);
      SplitJoin(pieces[1..], sep);
    }
  }

  /** No piece contains the separator. */
  lemma {:induction false} PiecesLackSeparator(s: string, sep: char, i: nat)
    requires i < |Split(s, [sep])|
    ensures sep !in Split(s, [sep])[i]
    decreases |s|
  {
    if OccursAt(s, [sep], 0) {
      if i > 0 {
        PiecesLackSeparator(s[1..], sep, i - 1);
      }
    } else if s != [] {
      SplitStep(s, [sep]);
      PiecesLackSeparator(s[1..], sep, i);
      assert s[0..1] == [s[0]];
    }
  }

  /** Joining the pieces again gives the text back. */
  lemma {:induction false} JoinSplit(s: string, sep: char)
    ensures Join(Split(s, [sep]), sep) == s
    decreases |s|
  {
    if OccursAt(s, [sep], 0) {
      var rest := Split(s[1..], [sep]);
      JoinSplit(s[1..], sep);
      assert ([[]] + rest)[1..] == rest;
      assert s == [] + ([sep] + s[1..]);
    } else if s != [] {
      var rest := Split(s[1..], [sep]);
      JoinSplit(s[1..], sep);
      SplitStep(s, [sep]);
      JoinHead(s[0], rest, sep);
    }
  }

  lemma JoinHead(c: char, rest: seq<string>, sep: char)
    requires rest != []
    ensures Join([[c] + rest[0]] + rest[1..], sep) == [c] + Join(rest, sep)
  {
    assert ([[c] + rest[0]] + rest[1..])[1..] == rest[1..];
  }

  lemma {:induction false} FirstPieceIsPrefix(s: string, pat: string)
    requires pat != []
    ensures |Split(s, pat)[0]| <= |s| && Split(s, pat)[0] == s[..|Split(s, pat)[0]|]
  {
    if !OccursAt(s, pat, 0) && s != [] {
      FirstPieceIsPrefix(s[1..], pat);
    }
  }

  /** A separator occurs in no piece. */
  lemma {:induction false} PiecesLackPattern(s: string, pat: string, i: nat)
    requires pat != [] && i < |Split(s, pat)|
    ensures !Contains(Split(s, pat)[i], pat)
    decreases |s|
  {
    if OccursAt(s, pat, 0) {
      if i > 0 {
        PiecesLackPattern(s[|pat|..], pat, i - 1);
      }
    } else if s != [] {
      SplitStep(s, pat);
      PiecesLackPattern(s[1..], pat, i);
      if i == 0 {
        var rest := Split(s[1..], pat)[0];
        FirstPieceIsPrefix(s[1..], pat);
        ExtendedPieceLacks(s, pat, rest);
      }
    }
  }

  lemma ExtendedPieceLacks(s: string, pat: string, rest: string)
    requires pat != [] && s != [] && !OccursAt(s, pat, 0)
    requires |rest| < |s| && rest == s[1..][..|rest|] && !Contains(rest, pat)
    ensures !Contains([s[0]] + rest, pat)
  {
    var piece := [s[0]] + rest;
    assert piece == s[..|piece|];
    assert piece[1..] == rest;
    forall k: nat | k <= |piece| ensures !OccursAt(piece, pat, k) {
      if k == 0 {
        assert |pat| <= |piece| ==> piece[..|pat|] == s[..|pat|];
      } else {
        DropOccursAt(piece, pat, k - 1);
      }
    }
  }

  lemma DropOccurs(s: string, pat: string, n: nat, k: nat)
    requires n <= |s|
    ensures OccursAt(s[n..], pat, k) <==> OccursAt(s, pat, n + k)
  {
    if n + k + |pat| <= |s| {
      assert s[n..][k..k + |pat|] == s[n + k..n + k + |pat|];
    }
  }

  /** A piece from `k` on runs from the start or a separator to a separator or the end. */
  ghost predicate Placed(s: string, pat: string, k: nat, x: string, first: bool) {
    && k + |x| <= |s| && x == s[k..k + |x|]
    && (if first then k == 0 else k >= |pat| && OccursAt(s, pat, k - |pat|))
    && (k + |x| == |s| || OccursAt(s, pat, k + |x|))
  }

  lemma PlacedBehind(s: string, pat: string, n: nat, j: nat, x: string, first: bool)
    requires n <= |s| && Placed(s[n..], pat, j, x, first)
    requires first ==> n == |pat| && OccursAt(s, pat, 0)
    ensures Placed(s, pat, n + j, x, false)
  {
    if !first {
      DropOccurs(s, pat, n, j - |pat|);
    }
    DropOccurs(s, pat, n, j + |x|);
    assert s[n..][j..j + |x|] == s[n + j..n + j + |x|];
  }

  lemma PlacedFirst(s: string, pat: string, x: string)
    requires s != [] && Placed(s[1..], pat, 0, x, true)
    ensures Placed(s, pat, 0, [s[0]] + x, true)
  {
    DropOccurs(s, pat, 1, |x|);
    assert [s[0]] + s[1..][..|x|] == s[..1 + |x|];
  }

  lemma SplitSeparator(s: string, pat: string)
    requires pat != [] && OccursAt(s, pat, 0)
    ensures Split(s, pat) == [[]] + Split(s[|pat|..], pat)
  {
  }

  lemma PlacedAfterSeparator(s: string, pat: string, pieces: seq<string>, rest: seq<string>, i: nat, j: nat)
    requires OccursAt(s, pat, 0) && pieces == [[]] + rest && 0 < i < |pieces|
    requires Placed(s[|pat|..], pat, j, rest[i - 1], i == 1)
    ensures Placed(s, pat, |pat| + j, pieces[i], false)
  {
    PlacedBehind(s, pat, |pat|, j, rest[i - 1], i == 1);
  }

  lemma PlacedAfterChar(s: string, pat: string, pieces: seq<string>, rest: seq<string>, i: nat, j: nat)
    requires s != [] && rest != [] && pieces == [[s[0]] + rest[0]] + rest[1..] && i < |pieces|
    requires Placed(s[1..], pat, j, rest[i], i == 0)
    ensures Placed(s, pat, if i == 0 then 0 else 1 + j, pieces[i], i == 0)
  {
    if i == 0 {
      PlacedFirst(s, pat, rest[0]);
    } else {
      PlacedBehind(s, pat, 1, j, rest[i], false);
    }
  }

  lemma PlaceOfFirst(s: string, pat: string, pieces: seq<string>, rest: seq<string>)
    requires OccursAt(s, pat, 0) && pieces == [[]] + rest
    ensures Placed(s, pat, 0, pieces[0], true)
  {
  }

  lemma {:induction false} PiecePlace(s: string, pat: string, pieces: seq<string>, i: nat) returns (k: nat)
    requires pat != [] && pieces == Split(s, pat) && i < |pieces|
    ensures Placed(s, pat, k, pieces[i], i == 0)
    decreases |s|
  {
    k := 0;
    if OccursAt(s, pat, 0) {
      var rest := Split(s[|pat|..], pat);
      SplitSeparator(s, pat);
      if i == 0 {
        PlaceOfFirst(s, pat, pieces, rest);
      } else {
        var j := PiecePlace(s[|pat|..], pat, rest, i - 1);
        PlacedAfterSeparator(s, pat, pieces, rest, i, j);
        k := |pat| + j;
      }
    } else if s != [] {
      var rest := Split(s[1..], pat);
      SplitStep(s, pat);
      var j := PiecePlace(s[1..], pat, rest, i);
      PlacedAfterChar(s, pat, pieces, rest, i, j);
      k := if i == 0 then 0 else 1 + j;
    }
  }
}
