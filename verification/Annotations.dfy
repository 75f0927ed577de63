/**
 The annotation keys OperandRequests register themselves under on a shared Subscription:
 <namespace>.<request>.<operator>/request, /operatorNamespace and /config
 (controllers/operandrequest/reconcile_operator.go), and the parsers that read them back.
 */
module Annotations {

  /** A registrant: one operator asked for by one OperandRequest. */
  datatype Registrant = Registrant(ns: string, name: string, op: string)

  function Prefix(t: Registrant): string {
    t.ns + "." + t.name + "." + t.op
  }

  function Key(t: Registrant, kind: string): string {
    Prefix(t) + "/" + kind
  }

  /** A registry-level key. */
  function RegistryKey(ns: string, name: string, kind: string): string {
    ns + "." + name + "/" + kind
  }

  predicate Kind(kind: string) {
    kind == "request" || kind == "operatorNamespace" || kind == "config"
  }

  // ---------------------------------------------------------------------------------------
  // The pattern ^(.*)\.(.*)\.(.*)\/kind, not anchored at the end; a dot matches no newline

  predicate TwoDots(s: string) {
    exists i | 0 <= i < |s| :: s[i] == '.' && '.' in s[i + 1..]
  }

  predicate MatchesAt(key: string, kind: string, p: nat) {
    && p + 1 + |kind| <= |key|
    && key[p] == '/' && key[p + 1..p + 1 + |kind|] == kind
    && TwoDots(key[..p]) && '\n' !in key[..p]
  }

  predicate Matches(key: string, kind: string) {
    exists p | 0 <= p < |key| :: MatchesAt(key, kind, p)
  }

  // ---------------------------------------------------------------------------------------
  // strings.Split, as far as the parsers use it

  /** The part before the first c, all of it when there is none. */
  function Before(s: string, c: char): (r: string)
    ensures c !in r
    ensures r == s || (|r| < |s| && s[..|r|] == r && s[|r|] == c)
  {
    if s == "" || s[0] == c then ""
    else
      var rest := Before(s[1..], c);
      assert rest != s[1..] ==> s[..|rest| + 1] == [s[0]] + rest;
      [s[0]] + rest
  }

  /** The part after the first c, empty when there is none. */
  function After(s: string, c: char): string {
    if |Before(s, c)| < |s| then s[|Before(s, c)| + 1..] else ""
  }

  /** The part after the last c, all of it when there is none. */
  function AfterLast(s: string, c: char): (r: string)
    ensures c !in r
    ensures r == s || (|r| < |s| && s[|s| - |r|..] == r && s[|s| - |r| - 1] == c)
  {
    if s == "" || s[|s| - 1] == c then ""
    else
      var rest := AfterLast(s[..|s| - 1], c);
      assert rest != s[..|s| - 1] ==> s[|s| - |rest| - 1..] == rest + [s[|s| - 1]];
      rest + [s[|s| - 1]]
  }

  /** keyParts[0] split at dots, last part: the operator a /request key names. */
  function OperatorOf(key: string): string {
    AfterLast(Before(key, '/'), '.')
  }

  /** getSubToRequestMapper: the first two parts of the key split at dots. */
  function RequestOf(key: string): (string, string) {
    (Before(key, '.'), Before(After(key, '.'), '.'))
  }

  // ---------------------------------------------------------------------------------------
  // Splitting a concatenation

  lemma SplitFirst(a: string, b: string, a': string, b': string, c: char)
    requires c !in a && c !in a'
    requires a + [c] + b == a' + [c] + b'
    ensures a == a' && b == b'
  {
    var s := a + [c] + b;
    assert s[|a|] == c && s[|a'|] == c;
    assert s[..|a|] == a && s[..|a'|] == a' && s[|a| + 1..] == b && s[|a'| + 1..] == b';
  }

  lemma SplitLast(a: string, b: string, a': string, b': string, c: char)
    requires c !in b && c !in b'
    requires a + [c] + b == a' + [c] + b'
    ensures a == a' && b == b'
  {
    var s := a + [c] + b;
    assert s[|a|] == c && s[|a'|] == c;
    assert s[..|a|] == a && s[..|a'|] == a' && s[|a| + 1..] == b && s[|a'| + 1..] == b';
  }

  lemma BeforeIs(a: string, b: string, c: char)
    requires c !in a
    ensures Before(a, c) == a && Before(a + [c] + b, c) == a && After(a + [c] + b, c) == b
  {
    var s := a + [c] + b;
    var r := Before(s, c);
    assert s[|a|] == c;
    assert c in s;
    assert s == r + [c] + s[|r| + 1..];
    SplitFirst(a, b, r, s[|r| + 1..], c);
  }

  lemma AfterLastIs(a: string, b: string, c: char)
    requires c !in b
    ensures AfterLast(a + [c] + b, c) == b
  {
    var s := a + [c] + b;
    var r := AfterLast(s, c);
    assert s[|a|] == c;
    assert c in s;
    var q := s[..|s| - |r| - 1];
    assert s == q + [c] + r;
    SplitLast(a, b, q, r, c);
  }

  // ---------------------------------------------------------------------------------------
  // Registrations never collide

  /** Namespaces and operator names hold no dot; nothing is asked of the request's name. */
  predicate DotFree(t: Registrant) {
    '.' !in t.ns && '.' !in t.op
  }

  /** Distinct registrants have distinct keys, whatever dots or slashes the request name has. */
  lemma KeysNeverCollide(t: Registrant, u: Registrant, k: string, l: string)
    requires DotFree(t) && DotFree(u) && Kind(k) && Kind(l)
    ensures Key(t, k) == Key(u, l) <==> t == u && k == l
  {
    if Key(t, k) == Key(u, l) {
      SplitLast(Prefix(t), k, Prefix(u), l, '/');
      assert Prefix(t) == t.ns + ['.'] + (t.name + "." + t.op);
      assert Prefix(u) == u.ns + ['.'] + (u.name + "." + u.op);
      SplitFirst(t.ns, t.name + "." + t.op, u.ns, u.name + "." + u.op, '.');
      SplitLast(t.name, t.op, u.name, u.op, '.');
    }
  }

  /** s ends in a dot and op. */
  predicate EndsInDotted(s: string, op: string) {
    |op| < |s| && s[|s| - |op| - 1] == '.' && s[|s| - |op|..] == op
  }

  /** Two registrants of these operators that share every key. */
  predicate Collide(t: Registrant, u: Registrant, o: string, p: string) {
    t != u && t.op == o && u.op == p && '.' !in t.ns && '.' !in u.ns && Prefix(t) == Prefix(u)
  }

  /** Some request names make registrations of the operators o and p collide exactly when one of the
      operator names ends in a dot and the other. */
  lemma OperatorsCollideExactly(o: string, p: string)
    ensures (exists t, u :: Collide(t, u, o, p)) <==> EndsInDotted(o, p) || EndsInDotted(p, o)
  {
    if t, u :| Collide(t, u, o, p) {
      assert Prefix(t) == t.ns + ['.'] + (t.name + "." + o) && Prefix(u) == u.ns + ['.'] + (u.name + "." + p);
      SplitFirst(t.ns, t.name + "." + o, u.ns, u.name + "." + p, '.');
      SameTail(t.name, o, u.name, p);
    }
    if EndsInDotted(o, p) {
      var t, u := DottedCollision(o, p);
      assert Collide(t, u, o, p);
    }
    if EndsInDotted(p, o) {
      var t, u := DottedCollision(p, o);
      assert Collide(u, t, o, p);
    }
  }

  lemma SameTail(a: string, o: string, b: string, p: string)
    requires a + "." + o == b + "." + p
    ensures (a == b && o == p) || EndsInDotted(o, p) || EndsInDotted(p, o)
  {
    var s := a + "." + o;
    assert s[|s| - |o|..] == o && s[|s| - |p|..] == p && s[|s| - |o| - 1] == '.' && s[|s| - |p| - 1] == '.';
    if |o| == |p| { assert s[..|s| - |o| - 1] == a && s[..|s| - |p| - 1] == b; }
    if |o| > |p| { assert s[|s| - |o|..][|o| - |p|..] == s[|s| - |p|..]; }
    if |p| > |o| { assert s[|s| - |p|..][|p| - |o|..] == s[|s| - |o|..]; }
  }

  /** Requests "a" and "a" dot the operator's front part collide. */
  lemma DottedCollision(o: string, p: string) returns (t: Registrant, u: Registrant)
    requires EndsInDotted(o, p)
    ensures t != u && t.op == o && u.op == p && '.' !in t.ns && t.ns == u.ns && Prefix(t) == Prefix(u)
  {
    var front := o[..|o| - |p| - 1];
    assert o == front + "." + p;
    t, u := Registrant("ns", "a", o), Registrant("ns", "a" + "." + front, p);
    assert Prefix(t) == "ns" + "." + "a" + "." + (front + "." + p);
    assert Prefix(u) == "ns" + "." + ("a" + "." + front) + "." + p;
    assert Prefix(t) == Prefix(u);
    assert |t.op| > |u.op|;
  }

  /** Names as Kubernetes has them: no slash, no newline; namespaces and operators no dot. */
  predicate WellNamed(t: Registrant) {
    DotFree(t) && '/' !in Prefix(t) && '\n' !in Prefix(t)
  }

  /** Where nothing but the separator is a slash, the pattern looks at exactly two parts. */
  lemma MatchesMeans(a: string, k: string, l: string)
    requires '/' !in a && '/' !in k
    ensures Matches(a + "/" + k, l) <==> l <= k && TwoDots(a) && '\n' !in a
  {
    var key := a + "/" + k;
    assert key[..|a|] == a && key[|a|] == '/' && key[|a| + 1..] == k;
    if Matches(key, l) {
      var p :| 0 <= p < |key| && MatchesAt(key, l, p);
      assert p == |a|;
      assert l == key[p + 1..][..|l|];
    }
    if l <= k && TwoDots(a) && '\n' !in a {
      assert key[|a| + 1..|a| + 1 + |l|] == k[..|l|] == l;
      assert MatchesAt(key, l, |a|);
    }
  }

  /** A registrant's key matches the pattern of its own kind and of no other. */
  lemma MatchesOwnKind(t: Registrant, k: string, l: string)
    requires WellNamed(t) && Kind(k) && Kind(l)
    ensures Matches(Key(t, k), l) <==> k == l
  {
    var a := Prefix(t);
    assert a[|t.ns|] == '.' && a[|t.ns| + 1..] == t.name + "." + t.op;
    assert (t.name + "." + t.op)[|t.name|] == '.';
    assert TwoDots(a);
    assert '/' !in "request" && '/' !in "operatorNamespace" && '/' !in "config";
    MatchesMeans(a, k, l);
    if l <= k { KindsArePrefixFree(k, l); }
  }

  lemma KindsArePrefixFree(k: string, l: string)
    requires Kind(k) && Kind(l) && l <= k
    ensures k == l
  {
    assert k[0] == l[0];
  }

  /** A registry-level key matches a registration pattern exactly when the registry's name is
      dotted and the kind is the same. */
  lemma RegistryKeyMatches(ns: string, name: string, kind: string, l: string)
    requires '.' !in ns && '/' !in ns + name && '\n' !in ns + name
    requires kind == "registry" || kind == "config"
    requires Kind(l)
    ensures Matches(RegistryKey(ns, name, kind), l) <==> kind == l && '.' in name
  {
    var a := ns + "." + name;
    assert RegistryKey(ns, name, kind) == a + "/" + kind;
    assert '/' !in a && '\n' !in a;
    assert '/' !in "registry" && '/' !in "config";
    MatchesMeans(a, kind, l);
    OneDotMore(ns, name);
    if l <= kind {
      assert l[2] == kind[2];
    }
  }

  lemma OneDotMore(ns: string, name: string)
    requires '.' !in ns
    ensures TwoDots(ns + "." + name) <==> '.' in name
  {
    var a := ns + "." + name;
    assert a[|ns|] == '.' && a[|ns| + 1..] == name;
    if TwoDots(a) {
      var i :| 0 <= i < |a| && a[i] == '.' && '.' in a[i + 1..];
      assert i >= |ns|;
      assert a[i + 1..] == name[i - |ns|..];
    }
  }

  /** The operator is read back from any key of a well-named registrant. */
  lemma OperatorIsRecovered(t: Registrant, k: string)
    requires WellNamed(t) && Kind(k)
    ensures OperatorOf(Key(t, k)) == t.op
  {
    BeforeIs(Prefix(t), k, '/');
    AfterLastIs(t.ns + "." + t.name, t.op, '.');
  }

  lemma KeyShape(t: Registrant, k: string)
    ensures Key(t, k) == t.ns + ['.'] + (t.name + ['.'] + (t.op + "/" + k))
  {
  }

  /** The request is read back exactly when its name has no dot. */
  lemma RequestIsRecovered(t: Registrant, k: string)
    requires WellNamed(t) && Kind(k)
    ensures RequestOf(Key(t, k)) == (t.ns, t.name) <==> '.' !in t.name
  {
    var rest := t.op + "/" + k;
    KeyShape(t, k);
    BeforeIs(t.ns, t.name + ['.'] + rest, '.');
    if '.' !in t.name { BeforeIs(t.name, rest, '.'); }
  }
}
