/**
 The version found in a channel name (FindSemantic, controllers/util/util.go) and the order
 golang.org/x/mod/semver puts on such versions (Semantic Versioning 2.0.0, item 11).
 */
module Semver {

  /** Go's < on strings. */
  predicate LexLess(s: string, t: string) {
    if t == "" then false
    else if s == "" then true
    else if s[0] != t[0] then s[0] < t[0]
    else LexLess(s[1..], t[1..])
  }

  /** The first difference decides; of a text and its continuation the shorter one is less. */
  lemma {:induction false} LexLessMeans(s: string, t: string)
    ensures LexLess(s, t) <==>
      exists n: nat | n <= |s| && n <= |t| :: s[..n] == t[..n] && n < |t| && (n == |s| || s[n] < t[n])
  {
    if s != "" && t != "" && s[0] == t[0] {
      LexLessMeans(s[1..], t[1..]);
      if LexLess(s[1..], t[1..]) {
        var n: nat :| n <= |s[1..]| && n < |t[1..]| && s[1..][..n] == t[1..][..n] && (n == |s[1..]| || s[1..][n] < t[1..][n]);
        assert s[..n + 1] == [s[0]] + s[1..][..n] && t[..n + 1] == [t[0]] + t[1..][..n];
      }
      if n: nat :| n <= |s| && n < |t| && s[..n] == t[..n] && (n == |s| || s[n] < t[n]) {
        assert n > 0;
        assert s[1..][..n - 1] == s[..n][1..] && t[1..][..n - 1] == t[..n][1..];
        assert n - 1 == |s[1..]| || s[1..][n - 1] < t[1..][n - 1];
      }
    } else if t != "" {
      assert s[..0] == t[..0];
    }
  }

  lemma LexIrreflexive(s: string)
    ensures !LexLess(s, s)
  {
  }

  lemma LexTotal(s: string, t: string)
    ensures LexLess(s, t) || LexLess(t, s) || s == t
  {
    if s != "" && t != "" && s[0] == t[0] && !LexLess(s, t) && !LexLess(t, s) {
      LexTotal(s[1..], t[1..]);
      assert s == [s[0]] + s[1..] && t == [t[0]] + t[1..];
    }
  }

  lemma LexTransitive(s: string, t: string, u: string)
    requires LexLess(s, t) && LexLess(t, u)
    ensures LexLess(s, u)
  {
  }

  // ---------------------------------------------------------------------------------------
  // FindSemantic: the first match of \bv?(\d+)(\.\d+)?(\.\d+)?\b

  predicate Digit(c: char) { '0' <= c <= '9' }

  predicate Word(c: char) { Digit(c) || 'a' <= c <= 'z' || 'A' <= c <= 'Z' || c == '_' }

  predicate WordAt(s: string, i: int) { 0 <= i < |s| && Word(s[i]) }

  predicate Boundary(s: string, i: nat) { WordAt(s, i - 1) != WordAt(s, i) }

  /** The end of the run of digits that starts at i. */
  function DigitsEnd(s: string, i: nat): (e: nat)
    requires i <= |s|
    ensures i <= e <= |s| && forall k | i <= k < e :: Digit(s[k])
    decreases |s| - i
  {
    if i < |s| && Digit(s[i]) then DigitsEnd(s, i + 1) else i
  }

  /** The end of an optional dot-and-digits group at i, i itself when it is not there. */
  function GroupEnd(s: string, i: nat): (e: nat)
    requires i <= |s|
    ensures i <= e <= |s|
  {
    if i < |s| && s[i] == '.' && DigitsEnd(s, i + 1) > i + 1 then DigitsEnd(s, i + 1) else i
  }

  /** The end of the preferred match that starts at i, i when there is none. Shorter runs of
      digits never end at a boundary, so only whole groups are given back. */
  function MatchEnd(s: string, i: nat): (e: nat)
    requires i <= |s|
    ensures i <= e <= |s|
  {
    var j := if i < |s| && s[i] == 'v' then i + 1 else i;
    var e1 := DigitsEnd(s, j);
    var e2 := GroupEnd(s, e1);
    var e3 := GroupEnd(s, e2);
    if !Boundary(s, i) || e1 == j then i
    else if Boundary(s, e3) then e3
    else if Boundary(s, e2) then e2
    else if Boundary(s, e1) then e1
    else i
  }

  // What the pattern says, read as a set of texts

  predicate Digits(s: string) { s != "" && forall k | 0 <= k < |s| :: Digit(s[k]) }

  /** A dot and digits, or nothing. */
  predicate Group(s: string) { s == "" || (s[0] == '.' && Digits(s[1..])) }

  /** Major, and perhaps minor, and perhaps patch, after an optional v. */
  ghost predicate InPattern(s: string) {
    exists v, a, b, c :: s == v + a + b + c && (v == "" || v == "v") && Digits(a) && Group(b) && Group(c)
  }

  /** A match of the whole pattern from i to e. */
  ghost predicate MatchOf(s: string, i: nat, e: nat) {
    i <= e <= |s| && Boundary(s, i) && Boundary(s, e) && InPattern(s[i..e])
  }

  /** From a position where digits go on to a position where they do not. */
  lemma {:induction false} DigitsEndIs(s: string, i: nat, e: nat)
    requires i <= e <= |s| && (forall k | i <= k < e :: Digit(s[k])) && (e == |s| || !Digit(s[e]))
    ensures DigitsEnd(s, i) == e
    decreases e - i
  {
    if i < e { DigitsEndIs(s, i + 1, e); }
  }

  /** A run of digits cut short does not end at a boundary. */
  lemma NoCut(s: string, i: nat, e: nat)
    requires i < e <= |s| && (forall k | i <= k < e :: Digit(s[k])) && Boundary(s, e)
    ensures DigitsEnd(s, i) == e
  {
    DigitsEndIs(s, i, e);
  }

  function FindFrom(s: string, i: nat): string
    requires i <= |s|
    decreases |s| - i
  {
    if MatchEnd(s, i) > i then s[i..MatchEnd(s, i)]
    else if i < |s| then FindFrom(s, i + 1)
    else "v0.0.0"
  }

  function FindSemantic(s: string): string {
    FindFrom(s, 0)
  }

  lemma GroupEndIs(s: string, i: nat)
    requires i <= |s|
    ensures Group(s[i..GroupEnd(s, i)])
  {
    var e := GroupEnd(s, i);
    if e > i { assert s[i..e][1..] == s[i + 1..e]; }
  }

  /** A group of the pattern at i that ends at e, where either a boundary or another dot follows. */
  lemma GroupEndAt(s: string, i: nat, e: nat)
    requires i <= e <= |s| && Group(s[i..e]) && e > i && (Boundary(s, e) || s[e..] == "" || s[e] == '.')
    ensures GroupEnd(s, i) == e
  {
    assert s[i..e][0] == s[i] && s[i..e][1..] == s[i + 1..e];
    assert forall k | i + 1 <= k < e :: Digit(s[k]) by {
      forall k | i + 1 <= k < e ensures Digit(s[k]) { assert s[i + 1..e][k - i - 1] == s[k]; }
    }
    if e < |s| && s[e] == '.' { DigitsEndIs(s, i + 1, e); } else { NoCutOrEnd(s, i + 1, e); }
  }

  lemma NoCutOrEnd(s: string, i: nat, e: nat)
    requires i < e <= |s| && (forall k | i <= k < e :: Digit(s[k])) && (Boundary(s, e) || e == |s|)
    ensures DigitsEnd(s, i) == e
  {
    DigitsEndIs(s, i, e);
  }

  /** Where MatchEnd finds an end there is a match. */
  lemma MatchEndMatches(s: string, i: nat)
    requires i <= |s| && MatchEnd(s, i) > i
    ensures MatchOf(s, i, MatchEnd(s, i))
  {
    hide DigitsEnd, GroupEnd, Boundary, Group, InPattern;
    var j := if i < |s| && s[i] == 'v' then i + 1 else i;
    var e1 := DigitsEnd(s, j);
    var e2 := GroupEnd(s, e1);
    var e3 := GroupEnd(s, e2);
    var e := MatchEnd(s, i);
    assert e1 > j && e in {e1, e2, e3} && Boundary(s, i) && Boundary(s, e);
    hide MatchEnd;
    GroupEndIs(s, e1);
    GroupEndIs(s, e2);
    NoGroup();
    var m := if e == e1 then e1 else e2;
    assert s[e1..m] == "" || m == e2;
    assert s[m..e] == "" || (m == e2 && e == e3);
    ThreeParts(s, i, j, e1, e);
    ThreeParts(s, e1, m, m, e);
    JoinedParts(s[i..e], s[i..j], s[j..e1], s[e1..e], s[e1..m], s[m..e]);
    PatternFrom(s[i..j], s[j..e1], s[e1..m], s[m..e]);
  }

  lemma JoinedParts(t: string, v: string, a: string, rest: string, b: string, c: string)
    requires t == v + a + rest && rest == b + "" + c
    ensures t == v + a + b + c
  {
    assert b + "" == b;
    assert v + a + (b + c) == v + a + b + c;
  }

  lemma PatternFrom(v: string, a: string, b: string, c: string)
    requires (v == "" || v == "v") && Digits(a) && Group(b) && Group(c)
    ensures InPattern(v + a + b + c)
  {
    hide Digits, Group;
  }

  lemma ThreeParts(s: string, i: nat, j: nat, m: nat, e: nat)
    requires i <= j <= m <= e <= |s|
    ensures s[i..e] == s[i..j] + s[j..m] + s[m..e]
  {
  }

  lemma NoGroup()
    ensures Group("")
  {
  }

  /** No match that starts there is longer. */
  lemma NoLongerMatch(s: string, i: nat, e: nat)
    requires MatchOf(s, i, e)
    ensures i < e <= MatchEnd(s, i)
  {
    hide Boundary, DigitsEnd, GroupEnd, Digits, Group, MatchEnd, InPattern;
    var v, a, b, c := PatternPieces(s[i..e]);
    Pieces(s, i, e, v, a, b, c);
    var j := i + |v|;
    var m := j + |a|;
    AfterDigits(s, j, m, m + |b|, e);
    ReachesEnd(s, i, j, m, m + |b|, e);
  }

  /** A text of the pattern taken apart, the first of the two groups first. */
  lemma PatternPieces(t: string) returns (v: string, a: string, b: string, c: string)
    requires InPattern(t)
    ensures t == v + a + b + c && (v == "" || v == "v") && Digits(a) && Group(b) && Group(c) && (b == "" ==> c == "")
  {
    hide Digits, Group;
    v, a, b, c :| t == v + a + b + c && (v == "" || v == "v") && Digits(a) && Group(b) && Group(c);
    if b == "" {
      NoGroup();
      assert v + a + b + c == v + a + c + "";
      b, c := c, "";
    }
  }

  lemma ReachesEnd(s: string, i: nat, j: nat, m: nat, n: nat, e: nat)
    requires i <= j < m <= n <= e <= |s| && Boundary(s, i) && Boundary(s, e) && (m == n ==> n == e)
    requires j == if s[i] == 'v' then i + 1 else i
    requires DigitsEnd(s, j) == m && (n > m ==> GroupEnd(s, m) == n) && (e > n ==> GroupEnd(s, n) == e)
    ensures e <= MatchEnd(s, i)
  {
    var e2 := GroupEnd(s, m);
    var e3 := GroupEnd(s, e2);
    assert m <= e2 <= e3;
    assert MatchEnd(s, i) == if Boundary(s, e3) then e3 else if Boundary(s, e2) then e2 else if Boundary(s, m) then m else i;
  }

  lemma SliceOf(s: string, i: nat, e: nat, p: nat, q: nat)
    requires i <= e <= |s| && p <= q <= e - i
    ensures s[i..e][p..q] == s[i + p..i + q]
  {
    forall k | 0 <= k < q - p ensures s[i..e][p..q][k] == s[i + p..i + q][k] { assert s[i..e][p + k] == s[i + p + k]; }
  }

  /** The pieces of a text are where they are in it. */
  lemma Pieces(s: string, i: nat, e: nat, v: string, a: string, b: string, c: string)
    requires i <= e <= |s| && s[i..e] == v + a + b + c && (v == "" || v == "v") && Digits(a)
    ensures var j, m, n := i + |v|, i + |v| + |a|, i + |v| + |a| + |b|;
      && s[j..m] == a && s[m..n] == b && s[n..e] == c && i <= j < m <= n <= e
      && (v == "v" <==> s[i] == 'v') && forall k | j <= k < m :: Digit(s[k])
  {
    var j, m, n := i + |v|, i + |v| + |a|, i + |v| + |a| + |b|;
    var t := s[i..e];
    SliceOf(s, i, e, |v|, |v| + |a|);
    SliceOf(s, i, e, |v| + |a|, |v| + |a| + |b|);
    SliceOf(s, i, e, |v| + |a| + |b|, |t|);
    assert t[|v|..|v| + |a|] == a && t[|v| + |a|..|v| + |a| + |b|] == b && t[|v| + |a| + |b|..] == c;
    forall k | j <= k < m ensures Digit(s[k]) { assert s[j..m][k - j] == s[k]; }
    if v == "v" { assert t[0] == 'v' && s[i] == t[0]; } else { assert s[i] == a[0]; }
  }

  lemma AfterDigits(s: string, j: nat, m: nat, n: nat, e: nat)
    requires j < m <= n <= e <= |s| && Boundary(s, e) && (forall k | j <= k < m :: Digit(s[k]))
    requires Group(s[m..n]) && Group(s[n..e]) && (m == n ==> n == e)
    ensures DigitsEnd(s, j) == m
    ensures n > m ==> GroupEnd(s, m) == n
    ensures e > n ==> GroupEnd(s, n) == e
  {
    if n > m {
      assert s[m..n][0] == s[m] == '.';
      DigitsEndIs(s, j, m);
      if e > n {
        assert s[n..e][0] == s[n] == '.';
        GroupEndAt(s, n, e);
      }
      GroupEndAt(s, m, n);
    } else {
      NoCut(s, j, m);
    }
  }

  /** The leftmost match, and the longest that starts there. */
  ghost predicate FirstMatch(s: string, i: nat, e: nat) {
    MatchOf(s, i, e) && (forall j: nat, f: nat | MatchOf(s, j, f) :: i <= j) && forall f: nat | MatchOf(s, i, f) :: f <= e
  }

  /** FindSemantic gives that match's text, and v0.0.0 where the pattern occurs nowhere. */
  lemma FindSemanticIsFirst(s: string)
    ensures (exists i: nat, e: nat | i <= e <= |s| :: FirstMatch(s, i, e) && FindSemantic(s) == s[i..e])
      || ((forall i: nat, e: nat :: !MatchOf(s, i, e)) && FindSemantic(s) == "v0.0.0")
  {
    FindFromIsFirst(s, 0);
  }

  lemma {:induction false} FindFromIsFirst(s: string, n: nat)
    requires n <= |s| && forall i: nat, e: nat | MatchOf(s, i, e) :: n <= i
    ensures (exists i: nat, e: nat | i <= e <= |s| :: FirstMatch(s, i, e) && FindFrom(s, n) == s[i..e])
      || ((forall i: nat, e: nat :: !MatchOf(s, i, e)) && FindFrom(s, n) == "v0.0.0")
    decreases |s| - n
  {
    hide MatchOf, MatchEnd;
    forall e: nat | MatchOf(s, n, e) ensures n < e <= MatchEnd(s, n) { NoLongerMatch(s, n, e); }
    if MatchEnd(s, n) > n {
      MatchEndMatches(s, n);
      assert FirstMatch(s, n, MatchEnd(s, n));
    } else if n < |s| {
      FindFromIsFirst(s, n + 1);
    } else {
      forall i: nat, e: nat | MatchOf(s, i, e) ensures false { MatchWithin(s, i, e); }
    }
  }

  lemma MatchWithin(s: string, i: nat, e: nat)
    requires MatchOf(s, i, e)
    ensures i <= |s|
  {
  }

  // ---------------------------------------------------------------------------------------
  // golang.org/x/mod/semver on versions without prerelease or build parts

  datatype Version = Invalid | Version(major: nat, minor: nat, patch: nat)

  function Value(digits: string): nat
    requires forall i | 0 <= i < |digits| :: Digit(digits[i])
  {
    if digits == "" then 0
    else
      assert Digit(digits[|digits| - 1]);
      Value(digits[..|digits| - 1]) * 10 + (digits[|digits| - 1] - '0') as nat
  }

  /** One number at i: where it ends; none when there is no digit or a leading zero. */
  function NumberEnd(s: string, i: nat): (e: nat)
    requires i <= |s|
    ensures i <= e <= |s| && forall k | i <= k < e :: Digit(s[k])
  {
    if i < |s| && s[i] == '0' && i + 1 < |s| && Digit(s[i + 1]) then i else DigitsEnd(s, i)
  }

  function Parse(v: string): Version {
    if v == "" || v[0] != 'v' then Invalid
    else
      var e1 := NumberEnd(v, 1);
      if e1 == 1 then Invalid
      else if e1 == |v| then Version(Value(v[1..e1]), 0, 0)
      else if v[e1] != '.' then Invalid
      else
        var e2 := NumberEnd(v, e1 + 1);
        if e2 == e1 + 1 then Invalid
        else if e2 == |v| then Version(Value(v[1..e1]), Value(v[e1 + 1..e2]), 0)
        else if v[e2] != '.' then Invalid
        else
          var e3 := NumberEnd(v, e2 + 1);
          if e3 == e2 + 1 || e3 != |v| then Invalid
          else Version(Value(v[1..e1]), Value(v[e1 + 1..e2]), Value(v[e2 + 1..e3]))
  }

  predicate IsValid(v: string) { Parse(v).Version? }

  function CompareNumber(x: nat, y: nat): int {
    if x < y then -1 else if x > y then 1 else 0
  }

  /** semver.Compare: an invalid version is below every valid one and equal to other invalid ones. */
  function Compare(v: string, w: string): int {
    match (Parse(v), Parse(w))
    case (Invalid, Invalid) => 0
    case (Invalid, _) => -1
    case (_, Invalid) => 1
    case (Version(a, b, c), Version(x, y, z)) =>
      if CompareNumber(a, x) != 0 then CompareNumber(a, x)
      else if CompareNumber(b, y) != 0 then CompareNumber(b, y)
      else CompareNumber(c, z)
  }

  /** semver.ByVersion: by version, equal versions by their text. */
  predicate VersionLess(v: string, w: string) {
    if Compare(v, w) != 0 then Compare(v, w) < 0 else LexLess(v, w)
  }

  /** ByVersion is a strict total order on version texts. */
  lemma VersionLessIsTotal(v: string, w: string)
    ensures !VersionLess(v, v)
    ensures VersionLess(v, w) || VersionLess(w, v) || v == w
    ensures !(VersionLess(v, w) && VersionLess(w, v))
  {
    LexIrreflexive(v);
    LexTotal(v, w);
    if LexLess(v, w) && LexLess(w, v) { LexTransitive(v, w, v); }
  }

  lemma VersionLessIsTransitive(u: string, v: string, w: string)
    requires VersionLess(u, v) && VersionLess(v, w)
    ensures VersionLess(u, w)
  {
    if Compare(u, v) == 0 && Compare(v, w) == 0 { LexTransitive(u, v, w); }
  }

  // What is valid

  /** Digits without a leading zero. */
  predicate Plain(s: string) { Digits(s) && (s == "0" || s[0] != '0') }

  predicate PlainGroup(s: string) { s == "" || (s[0] == '.' && Plain(s[1..])) }

  lemma NumberEndIs(s: string, i: nat, e: nat)
    requires i < e <= |s| && Plain(s[i..e]) && (e == |s| || s[e] == '.')
    ensures NumberEnd(s, i) == e
  {
    assert s[i..e][0] == s[i];
    forall k | i <= k < e ensures Digit(s[k]) { assert s[i..e][k - i] == s[k]; }
    DigitsEndIs(s, i, e);
    if e > i + 1 { assert s[i..e] != "0"; }
  }

  lemma NumberIsPlain(s: string, i: nat)
    requires i <= |s| && NumberEnd(s, i) > i
    ensures Plain(s[i..NumberEnd(s, i)])
  {
    var e := NumberEnd(s, i);
    assert s[i..e][0] == s[i];
    if s[i] == '0' {
      assert DigitsEnd(s, i + 1) == i + 1;
      assert s[i..e] == "0";
    }
  }

  /** A v and up to three plain numbers. */
  ghost predicate ValidText(v: string) {
    exists a, b, c :: v == "v" + a + b + c && Plain(a) && PlainGroup(b) && PlainGroup(c)
  }

  /** Of the texts that can be found, exactly these are valid. */
  lemma ValidExactly(v: string)
    ensures IsValid(v) <==> ValidText(v)
  {
    hide NumberEnd, Value, Plain;
    if IsValid(v) { ValidHasText(v); }
    if ValidText(v) {
      var a, b, c :| v == "v" + a + b + c && Plain(a) && PlainGroup(b) && PlainGroup(c);
      if b == "" { assert v == "v" + a + c + ""; TextIsValid(v, a, c, ""); } else { TextIsValid(v, a, b, c); }
    }
  }

  lemma ValidHasText(v: string)
    requires IsValid(v)
    ensures ValidText(v)
  {
    hide IsValid, Plain, PlainGroup, ValidText;
    var e1, e2 := ValidEnds(v);
    FromPieces(v, v[1..e1], v[e1..e2], v[e2..]);
  }

  lemma FromPieces(v: string, a: string, b: string, c: string)
    requires v != "" && v[0] == 'v' && v[1..] == a + b + c && Plain(a) && PlainGroup(b) && PlainGroup(c)
    ensures ValidText(v)
  {
    hide Plain, PlainGroup, ValidText;
    assert v == "v" + (a + b + c);
    assert "v" + (a + b + c) == "v" + a + b + c;
    TextFrom(a, b, c);
  }

  /** Where the numbers of a valid version end. */
  lemma ValidEnds(v: string) returns (e1: nat, e2: nat)
    requires IsValid(v)
    ensures v != "" && v[0] == 'v' && 1 <= e1 <= e2 <= |v|
    ensures Plain(v[1..e1]) && PlainGroup(v[e1..e2]) && PlainGroup(v[e2..]) && v[1..] == v[1..e1] + v[e1..e2] + v[e2..]
  {
    hide NumberEnd, Value, Plain;
    e1 := NumberEnd(v, 1);
    e2 := if e1 == |v| then e1 else NumberEnd(v, e1 + 1);
    NumberIsPlain(v, 1);
    if e2 > e1 { GroupIsPlain(v, e1); }
    if |v| > e2 {
      assert NumberEnd(v, e2 + 1) == |v|;
      GroupIsPlain(v, e2);
      assert v[e2..|v|] == v[e2..];
    }
  }

  lemma GroupIsPlain(s: string, i: nat)
    requires i < |s| && s[i] == '.' && NumberEnd(s, i + 1) > i + 1
    ensures PlainGroup(s[i..NumberEnd(s, i + 1)])
  {
    NumberIsPlain(s, i + 1);
    assert s[i..NumberEnd(s, i + 1)][1..] == s[i + 1..NumberEnd(s, i + 1)];
  }

  lemma TextFrom(a: string, b: string, c: string)
    requires Plain(a) && PlainGroup(b) && PlainGroup(c)
    ensures ValidText("v" + a + b + c)
  {
    hide Plain, PlainGroup;
  }

  lemma TextIsValid(v: string, a: string, b: string, c: string)
    requires v == "v" + a + b + c && Plain(a) && PlainGroup(b) && PlainGroup(c) && (b == "" ==> c == "")
    ensures IsValid(v)
  {
    hide NumberEnd, Value;
    var e1, e2 := 1 + |a|, 1 + |a| + |b|;
    assert v[1..e1] == a && v[e1..e2] == b && v[e2..] == c && v[0] == 'v';
    if b != "" { assert v[e1] == b[0]; assert v[e1 + 1..e2] == b[1..]; }
    if c != "" { assert v[e2] == c[0]; assert v[e2 + 1..] == c[1..]; assert v[e2 + 1..|v|] == c[1..]; }
    NumberEndIs(v, 1, e1);
    if b != "" {
      NumberEndIs(v, e1 + 1, e2);
      if c != "" { NumberEndIs(v, e2 + 1, |v|); }
    }
  }

  // ---------------------------------------------------------------------------------------
  // The numbers themselves, with or without a leading v

  /** Where the number after a dot at e starts, the end when there is none. */
  function GroupStart(s: string, e: nat): (i: nat)
    requires e <= |s|
    ensures e <= i <= |s|
  {
    if e < |s| && s[e] == '.' then e + 1 else |s|
  }

  function Numbers(v: string): (nat, nat, nat) {
    var i1 := if v != "" && v[0] == 'v' then 1 else 0;
    var e1 := DigitsEnd(v, i1);
    var i2 := GroupStart(v, e1);
    var e2 := DigitsEnd(v, i2);
    var i3 := GroupStart(v, e2);
    var e3 := DigitsEnd(v, i3);
    (Value(v[i1..e1]), Value(v[i2..e2]), Value(v[i3..e3]))
  }

  /** Major, minor and patch compared as numbers, as item 11 of Semantic Versioning 2.0.0 has it. */
  predicate NumericLess(v: string, w: string) {
    var (a, b, c) := Numbers(v);
    var (x, y, z) := Numbers(w);
    a < x || (a == x && (b < y || (b == y && c < z)))
  }

  lemma ValidIsNumeric(v: string)
    requires IsValid(v)
    ensures Parse(v) == Version(Numbers(v).0, Numbers(v).1, Numbers(v).2)
  {
  }

  /** On valid versions ByVersion is that order, equal versions by their text. */
  lemma ValidOrderIsNumeric(v: string, w: string)
    requires IsValid(v) && IsValid(w)
    ensures VersionLess(v, w) <==> NumericLess(v, w) || (!NumericLess(w, v) && LexLess(v, w))
  {
    ValidIsNumeric(v);
    ValidIsNumeric(w);
  }

  lemma CompareIsNumeric(v: string, w: string)
    requires IsValid(v) && IsValid(w)
    ensures Compare(v, w) < 0 <==> NumericLess(v, w)
  {
    ValidIsNumeric(v);
    ValidIsNumeric(w);
  }

  /** On versions without a leading v it is not: it is the order of the texts. */
  lemma TextOrderIsNotNumeric()
    ensures NumericLess("4.9", "4.10") && VersionLess("4.10", "4.9")
  {
    assert DigitsEnd("4.9", 0) == 1 && DigitsEnd("4.9", 2) == 3 && DigitsEnd("4.9", 3) == 3;
    assert DigitsEnd("4.10", 0) == 1 && DigitsEnd("4.10", 2) == 4 && DigitsEnd("4.10", 4) == 4;
    assert "4.9"[0..1] == "4" == "4.10"[0..1] && "4.9"[2..3] == "9" && "4.10"[2..4] == "10";
    assert "10"[..1] == "1" && "1"[..0] == "" && "9"[..0] == "" && "4"[..0] == "";
    assert Value("1") == 1 && Value("10") == 10 && Value("9") == 9 && Value("4") == 4;
    assert "4.10"[1..] == ".10" && "4.9"[1..] == ".9" && ".10"[1..] == "10" && ".9"[1..] == "9";
    assert LexLess("10", "9") && LexLess(".10", ".9") && LexLess("4.10", "4.9");
  }
}
