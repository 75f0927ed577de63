/**
 Template resolution (controllers/operator/manager.go): objects holding templatingValueFrom are
 replaced by what they refer to. Go visits an object's keys in any order.
 */
module Template {
  import opened Json
  import opened Uninstall

  const MARKER := "templatingValueFrom"

  /** What looking up a reference gives: an error, or a text, empty when there is nothing. */
  datatype Ref = Failed | Text(text: string)

  /** The lookup of a reference by the rest of the cluster, and JSON decoding of an array. */
  datatype Lookups = Lookups(reference: map<string, Json> -> Ref, decode: string -> Option<seq<Json>>)

  /** processTemplateValue. */
  function Reference(l: Lookups, value: Json): Ref {
    if !value.Obj? then Text("")
    else if "boolean" in value.fields && value.fields["boolean"].Bool? then
      Text(if value.fields["boolean"].b then "true" else "false")
    else l.reference(value.fields)
  }

  predicate Bracketed(s: string) {
    "[" <= s && s != "" && s[|s| - 1] == ']'
  }

  /** What takes the place of the object for a text; nothing removes its key. */
  function Converted(l: Lookups, text: string): Option<Json> {
    if text == "true" then Some(Bool(true))
    else if text == "false" then Some(Bool(false))
    else if text == "" then None
    else if Bracketed(text) && l.decode(text).Some? then Some(Arr(l.decode(text).value))
    else Some(Str(text))
  }

  function Replacement(l: Lookups, value: Json): Option<Json> {
    var r := Reference(l, value);
    if r.Failed? then None else Converted(l, r.text)
  }

  // ---------------------------------------------------------------------------------------
  // The meaning

  /** The value held under an object key, resolved. */
  function Resolved(l: Lookups, j: Json): Option<Json>
    decreases j, 1
  {
    match j
    case Obj(f) => if MARKER in f then Replacement(l, f[MARKER]) else Some(Obj(ResolvedFields(l, j)))
    case Arr(items) => Some(Arr(seq(|items|, i requires 0 <= i < |items| => ResolvedItem(l, items[i]))))
    case _ => Some(j)
  }

  function ResolvedFields(l: Lookups, o: Json): map<string, Json>
    requires o.Obj?
    decreases o, 0
  {
    map k | k in o.fields && Resolved(l, o.fields[k]).Some? :: Resolved(l, o.fields[k]).value
  }

  /** In a list only the objects are looked into; they are not replaced themselves. */
  function ResolvedItem(l: Lookups, item: Json): Json
    decreases item, 1
  {
    if item.Obj? then Obj(ResolvedFields(l, item)) else item
  }

  /** No object held under an object key, reached through objects and lists of objects, is a
      reference. */
  predicate Plain(j: Json) {
    match j
    case Obj(f) => MARKER !in f && forall k | k in f :: Plain(f[k])
    case Arr(items) => forall i | 0 <= i < |items| :: items[i].Obj? ==> forall k | k in items[i].fields :: Plain(items[i].fields[k])
    case _ => true
  }

  /** Every reference that may be visited resolves without error. */
  predicate AllResolve(l: Lookups, j: Json) {
    match j
    case Obj(f) =>
      && (MARKER in f ==> Reference(l, f[MARKER]).Text?)
      && forall k | k in f && k != MARKER :: AllResolve(l, f[k])
    case Arr(items) => forall i | 0 <= i < |items| :: items[i].Obj? ==> forall k | k in items[i].fields :: AllResolve(l, items[i].fields[k])
    case _ => true
  }

  /** No reference stands for a list that holds references itself. */
  ghost predicate PlainReplacements(l: Lookups) {
    forall v | Replacement(l, v).Some? :: Plain(Replacement(l, v).value)
  }

  /** Nothing is left to resolve afterwards. */
  lemma {:induction false} ResolvedIsPlain(l: Lookups, j: Json)
    requires PlainReplacements(l) && Resolved(l, j).Some?
    ensures Plain(Resolved(l, j).value)
  {
    match j
    case Obj(f) =>
      if MARKER !in f {
        forall k | k in f && Resolved(l, f[k]).Some? ensures Plain(Resolved(l, f[k]).value) {
          ResolvedIsPlain(l, f[k]);
        }
      }
    case Arr(items) =>
      var r := Resolved(l, j).value.items;
      forall i, k | 0 <= i < |r| && r[i].Obj? && k in r[i].fields ensures Plain(r[i].fields[k]) {
        assert r[i] == ResolvedItem(l, items[i]);
        ResolvedIsPlain(l, items[i].fields[k]);
      }
    case _ =>
  }

  predicate LeavesNothing(l: Lookups, j: Json) {
    Resolved(l, j).Some? ==> Plain(Resolved(l, j).value)
  }

  /** One pass leaves nothing to resolve, whatever it is given, exactly under that condition. */
  lemma OnePassResolvesAll(l: Lookups)
    ensures (forall j :: LeavesNothing(l, j)) <==> PlainReplacements(l)
  {
    if PlainReplacements(l) {
      forall j ensures LeavesNothing(l, j) {
        if Resolved(l, j).Some? { ResolvedIsPlain(l, j); }
      }
    } else {
      var v :| Replacement(l, v).Some? && !Plain(Replacement(l, v).value);
      var j := Obj(map[MARKER := v]);
      assert j.fields[MARKER] == v;
      assert !LeavesNothing(l, j);
    }
  }

  /** Resolving changes nothing exactly when there is nothing to resolve. */
  lemma {:induction false} FixedIffPlain(l: Lookups, j: Json)
    ensures Resolved(l, j) == Some(j) <==> Plain(j)
  {
    match j
    case Obj(f) =>
      if MARKER !in f {
        forall k | k in f ensures Resolved(l, f[k]) == Some(f[k]) <==> Plain(f[k]) {
          FixedIffPlain(l, f[k]);
        }
        FixedFields(l, j);
      } else {
        assert Resolved(l, j).Some? ==> !Resolved(l, j).value.Obj?;
      }
    case Arr(items) =>
      forall i | 0 <= i < |items| && items[i].Obj?
        ensures Obj(ResolvedFields(l, items[i])) == items[i] <==> forall k | k in items[i].fields :: Plain(items[i].fields[k])
      {
        var g := items[i].fields;
        forall k | k in g ensures Resolved(l, g[k]) == Some(g[k]) <==> Plain(g[k]) {
          FixedIffPlain(l, g[k]);
        }
        FixedFields(l, items[i]);
      }
      var r := Resolved(l, j).value.items;
      assert r == items <==> forall i | 0 <= i < |items| :: r[i] == items[i];
    case _ =>
  }

  lemma FixedFields(l: Lookups, o: Json)
    requires o.Obj?
    ensures ResolvedFields(l, o) == o.fields <==> forall k | k in o.fields :: Resolved(l, o.fields[k]) == Some(o.fields[k])
  {
    var f, r := o.fields, ResolvedFields(l, o);
    if r == f {
      forall k | k in f ensures Resolved(l, f[k]) == Some(f[k]) {
        assert k in r;
      }
    }
  }

  /** A second pass changes nothing. */
  lemma SecondPassIsIdentity(l: Lookups, j: Json)
    requires PlainReplacements(l) && Resolved(l, j).Some?
    ensures Resolved(l, Resolved(l, j).value) == Resolved(l, j)
  {
    ResolvedIsPlain(l, j);
    FixedIffPlain(l, Resolved(l, j).value);
  }

  // ---------------------------------------------------------------------------------------
  // What stands where afterwards

  /** The path leads, through objects that are no references and through objects in lists, to a value held
      under an object key. */
  predicate Followed(j: Json, path: seq<Step>)
    decreases |path|
  {
    path == [] ||
    match (path[0], j)
    case (Key(k), Obj(f)) => MARKER !in f && k in f && Followed(f[k], path[1..])
    case (Index(i), Arr(items)) =>
      && i < |items| && items[i].Obj? && |path| > 1 && path[1].Key? && path[1].key in items[i].fields
      && Followed(items[i].fields[path[1].key], path[2..])
    case _ => false
  }

  /** The value at a path, if its last key is there. */
  function Held(j: Json, path: seq<Step>): Option<Json>
    requires path != []
  {
    var parent, last := At(j, path[..|path| - 1]), path[|path| - 1];
    if last.Key? && parent.Obj? && last.key in parent.fields then Some(parent.fields[last.key]) else None
  }

  lemma HeldBelow(j: Json, path: seq<Step>, key: string)
    requires path != [] && path[0] == Key(key) && j.Obj? && key in j.fields && |path| > 1
    ensures Held(j, path) == Held(j.fields[key], path[1..])
  {
    assert path[..|path| - 1][0] == path[0] && path[..|path| - 1][1..] == path[1..][..|path| - 2];
  }

  lemma HeldInList(j: Json, path: seq<Step>, i: nat)
    requires path != [] && path[0] == Index(i) && j.Arr? && i < |j.items| && |path| > 1
    ensures Held(j, path) == Held(j.items[i], path[1..])
  {
    assert path[..|path| - 1][0] == path[0] && path[..|path| - 1][1..] == path[1..][..|path| - 2];
  }

  lemma ItemIs(l: Lookups, items: seq<Json>, i: nat)
    requires i < |items|
    ensures Resolved(l, Arr(items)).Some? && Resolved(l, Arr(items)).value.Arr? && |Resolved(l, Arr(items)).value.items| == |items|
    ensures Resolved(l, Arr(items)).value.items[i] == if items[i].Obj? then Obj(ResolvedFields(l, items[i])) else items[i]
  {
    assert Resolved(l, Arr(items)).value.items[i] == ResolvedItem(l, items[i]);
  }

  /** At a path that is followed stands what the value there resolves to, and no key when it resolves to
      nothing. */
  lemma {:induction false} ResolvedAlong(l: Lookups, j: Json, path: seq<Step>)
    requires path != [] && Followed(j, path)
    ensures Held(j, path).Some? && Resolved(l, j).Some?
    ensures Held(Resolved(l, j).value, path) == Resolved(l, Held(j, path).value)
    decreases |path|
  {
    var r := Resolved(l, j).value;
    match (path[0], j)
    case (Key(k), Obj(f)) =>
      if |path| > 1 {
        ResolvedAlong(l, f[k], path[1..]);
        assert r == Obj(ResolvedFields(l, j));
        HeldBelow(j, path, k);
        HeldBelow(r, path, k);
      } else {
        assert path[..0] == [];
      }
    case (Index(i), Arr(items)) =>
      var g, k := items[i].fields, path[1].key;
      ItemIs(l, items, i);
      HeldInList(j, path, i);
      HeldInList(r, path, i);
      if |path| > 2 {
        ResolvedAlong(l, g[k], path[2..]);
        assert path[1..][1..] == path[2..];
        HeldBelow(items[i], path[1..], k);
        HeldBelow(r.items[i], path[1..], k);
      } else {
        assert path[1..][..0] == [];
      }
  }

  /** What a reference stands for: a boolean itself; else by the text looked up for it. */
  lemma ReferenceMeans(l: Lookups, f: map<string, Json>)
    requires MARKER in f
    ensures !f[MARKER].Obj? ==> Resolved(l, Obj(f)) == None
    ensures forall b: bool | f[MARKER].Obj? && Lookup(f[MARKER].fields, "boolean") == Bool(b) :: Resolved(l, Obj(f)) == Some(Bool(b))
    ensures f[MARKER].Obj? && !Lookup(f[MARKER].fields, "boolean").Bool? && l.reference(f[MARKER].fields).Text? ==>
      var text := l.reference(f[MARKER].fields).text;
      && (text == "true" ==> Resolved(l, Obj(f)) == Some(Bool(true)))
      && (text == "false" ==> Resolved(l, Obj(f)) == Some(Bool(false)))
      && (text == "" ==> Resolved(l, Obj(f)) == None)
      && (text !in ["true", "false", ""] ==>
            Resolved(l, Obj(f)) == Some(if text[0] == '[' && text[|text| - 1] == ']' && l.decode(text).Some? then Arr(l.decode(text).value)
                                        else Str(text)))
  {
    var text := if f[MARKER].Obj? then (match l.reference(f[MARKER].fields) case Text(t) => t case Failed => "") else "";
    if text != "" { assert "[" <= text <==> text[0] == '['; }
  }

  /** The path crosses no reference; below an element of a list that is no object nothing is looked at. */
  predicate NoReference(j: Json, path: seq<Step>)
    decreases |path|
  {
    path == [] ||
    match (path[0], j)
    case (Key(k), Obj(f)) => MARKER !in f && k in f && NoReference(f[k], path[1..])
    case (Index(i), Arr(items)) =>
      i < |items| &&
      (items[i].Obj? ==> |path| == 1 || (path[1].Key? && path[1].key in items[i].fields && NoReference(items[i].fields[path[1].key], path[2..])))
    case _ => false
  }

  /** Every scalar on such a path stands unchanged. */
  lemma {:induction false} ScalarsStand(l: Lookups, j: Json, path: seq<Step>)
    requires NoReference(j, path) && At(j, path).Scalar()
    ensures Resolved(l, j).Some? && At(Resolved(l, j).value, path) == At(j, path)
    decreases |path|, 1
  {
    if path != [] {
      var r := Resolved(l, j).value;
      match (path[0], j)
      case (Key(k), Obj(f)) =>
        ScalarsStand(l, f[k], path[1..]);
      case (Index(i), Arr(items)) =>
        assert path[1..] != [] ==> path[1..][0] == path[1] && path[1..][1..] == path[2..];
        ScalarsStandIn(l, items[i], path[1..]);
        ItemIs(l, items, i);
    }
  }

  lemma {:induction false} ScalarsStandIn(l: Lookups, item: Json, path: seq<Step>)
    requires At(item, path).Scalar()
    requires item.Obj? ==> path == [] || (path[0].Key? && path[0].key in item.fields && NoReference(item.fields[path[0].key], path[1..]))
    ensures At(ResolvedItem(l, item), path) == At(item, path)
    decreases |path|, 0
  {
    if item.Obj? && path != [] {
      ScalarsStand(l, item.fields[path[0].key], path[1..]);
      assert ResolvedItem(l, item) == Obj(ResolvedFields(l, item));
    }
  }

  // ---------------------------------------------------------------------------------------
  // Half-way through a visit of an object's keys

  /** Part of the keys are done. */
  ghost predicate Partly(l: Lookups, f: map<string, Json>, todo: set<string>, r: map<string, Json>) {
    forall k :: if k in f && (k in todo || Resolved(l, f[k]).Some?)
      then k in r && r[k] == if k in todo then f[k] else Resolved(l, f[k]).value
      else k !in r
  }
}
