/**
 Template resolution as it changes the decoded object's own maps (controllers/operator/manager.go),
 on the heap of MergeInPlace. The map whose keys are visited is the one held under the key until
 a reference takes its place.
 */
module TemplateInPlace {
  import opened Json
  import opened MergeInPlace
  import opened ObjectPathInPlace
  import opened Template
  import opened Uninstall

  // ---------------------------------------------------------------------------------------
  // Encoding and decoding

  /** json.Marshal. */
  method Marshal(v: Value, ghost s: Snap) returns (j: Json)
    requires Decoded(s) && Val(s) == v
    ensures j == Doc(s)
    decreases s, 1
  {
    match v
    case Nil => return Null;
    case Leaf(leaf) => return leaf;
    case List(items) => j := MarshalList(items, s);
    case Dict(m) => j := MarshalMap(m, s);
  }

  method MarshalList(items: seq<Value>, ghost s: Snap) returns (j: Json)
    requires Decoded(s) && s.SList? && Val(s) == List(items)
    ensures j == Doc(s)
    decreases s, 0
  {
    hide Separate, Holds, Objs;
    MapsExist(s);
    var js: seq<Json> := [];
    for i := 0 to |items|
      invariant Decoded(s) && |js| == i && forall k | 0 <= k < i :: js[k] == Doc(s.items[k])
    {
      ItemFacts(s, i);
      ItemDecoded(s, i);
      var e := Marshal(items[i], s.items[i]);
      js := js + [e];
    }
    assert js == Doc(s).items;
    return Arr(js);
  }

  method MarshalMap(m: GoMap, ghost s: Snap) returns (j: Json)
    requires Decoded(s) && s.SDict? && s.m == m
    ensures j == Doc(s)
    decreases s, 0
  {
    hide Separate, Objs;
    MapsExist(s);
    var fields: map<string, Json> := map[];
    var todo := m.entries.Keys;
    while todo != {}
      invariant Decoded(s) && todo <= s.kids.Keys && fields.Keys == s.kids.Keys - todo
      invariant forall k | k in fields :: fields[k] == Doc(s.kids[k])
      decreases todo
    {
      var key :| key in todo;
      KidDecoded(s, key);
      var e := Marshal(m.entries[key], s.kids[key]);
      fields := fields[key := e];
      todo := todo - {key};
    }
    assert fields == Doc(s).fields;
    return Obj(fields);
  }

  /** json.Unmarshal: everything it makes is new. */
  method Unmarshal(j: Json) returns (v: Value, ghost s: Snap)
    ensures Decoded(s) && Val(s) == v && Doc(s) == j
    ensures forall o | o in Objs(s) :: fresh(o)
    decreases j, 1
  {
    match j
    case Arr(js) => v, s := UnmarshalList(js, j);
    case Obj(fields) => v, s := UnmarshalMap(fields, j);
    case _ => v, s := if j == Null then Nil else Leaf(j), if j == Null then SNil else SLeaf(j);
  }

  method UnmarshalList(js: seq<Json>, ghost j: Json) returns (v: Value, ghost s: Snap)
    requires j == Arr(js)
    ensures Decoded(s) && Val(s) == v && Doc(s) == j
    ensures forall o | o in Objs(s) :: fresh(o)
    decreases j, 0
  {
    hide Separate, Holds, Objs;
    var items: seq<Value> := [];
    EmptyList();
    s := SList([]);
    for i := 0 to |js|
      invariant s.SList? && |items| == i == |s.items|
      invariant Decoded(s) && forall o | o in Objs(s) :: fresh(o)
      invariant forall k | 0 <= k < i :: items[k] == Val(s.items[k]) && Doc(s.items[k]) == js[k]
    {
      MapsExist(s);
      var e, es := Unmarshal(js[i]);
      OneMore(s, es);
      items, s := items + [e], SList(s.items + [es]);
    }
    v := List(items);
    assert Val(s).items == items && Doc(s).items == js;
  }

  method UnmarshalMap(fields: map<string, Json>, ghost j: Json) returns (v: Value, ghost s: Snap)
    requires j == Obj(fields)
    ensures Decoded(s) && Val(s) == v && Doc(s) == j
    ensures forall o | o in Objs(s) :: fresh(o)
    decreases j, 0
  {
    hide Separate, Holds, Objs, Doc, Val;
    var m := new GoMap();
    s := SDict(m, map[]);
    EmptyObject(m);
    var todo := fields.Keys;
    ghost var done: map<string, Json> := map[];
    while todo != {}
      invariant todo <= fields.Keys && s.SDict? && s.m == m && fresh(m)
      invariant Decoded(s) && Doc(s) == Obj(done) && forall o | o in Objs(s) :: fresh(o)
      invariant done.Keys == fields.Keys - todo && forall k | k in done :: done[k] == fields[k]
      decreases todo
    {
      var key :| key in todo;
      MapsExist(s);
      var e, es := Unmarshal(fields[key]);
      s := Assign(m, key, e, s, es);
      done := done[key := fields[key]];
      todo := todo - {key};
    }
    assert done == fields;
    v := Dict(m);
    Kinds(s);
  }

  lemma OneMore(list: Snap, e: Snap)
    requires list.SList? && Decoded(list) && Decoded(e) && Objs(e) !! Objs(list)
    ensures Decoded(SList(list.items + [e])) && Objs(SList(list.items + [e])) == Objs(list) + Objs(e)
  {
    var t := SList(list.items + [e]);
    forall i | 0 <= i < |t.items|
      ensures Decoded(t.items[i]) && Objs(t.items[i]) <= if i < |list.items| then Objs(list) else Objs(e)
    {
      if i < |list.items| {
        ItemFacts(list, i);
        ItemDecoded(list, i);
      }
    }
    assert t.items[|list.items|] == e;
    forall o | o in Objs(list) ensures o in Objs(t) {
      var i :| 0 <= i < |list.items| && o in Objs(list.items[i]);
      assert t.items[i] == list.items[i];
    }
  }

  // ---------------------------------------------------------------------------------------
  // The traversal

  /** f with one key's value replaced, or gone. */
  function With(f: map<string, Json>, key: string, r: Option<Json>): map<string, Json> {
    if r.Some? then f[key := r.value] else f - {key}
  }

  /** Part of the keys of s0 are resolved; those in todo are as they were. */
  ghost predicate Going(l: Lookups, s0: Snap, cur: Snap, todo: set<string>) {
    && s0.SDict? && cur.SDict? && cur.m == s0.m && Separate(cur) && todo <= s0.kids.Keys
    && (forall k | k in todo :: k in cur.kids && cur.kids[k] == s0.kids[k])
    && Partly(l, Doc(s0).fields, todo, Doc(cur).fields)
  }

  lemma GoingOn(l: Lookups, s0: Snap, cur: Snap, next: Snap, todo: set<string>, key: string)
    requires Going(l, s0, cur, todo) && key in todo
    requires next.SDict? && next.m == cur.m && Separate(next)
    requires forall k | k != key :: (k in next.kids <==> k in cur.kids) && (k in cur.kids ==> next.kids[k] == cur.kids[k])
    requires Doc(next) == Obj(With(Doc(cur).fields, key, Resolved(l, Doc(s0.kids[key]))))
    ensures Going(l, s0, next, todo - {key})
  {
    hide Separate, Partly;
    assert key in Doc(s0).fields && Doc(s0).fields[key] == Doc(s0.kids[key]);
    PartlyOn(l, Doc(s0).fields, todo, Doc(cur).fields, key);
  }

  lemma PartlyOn(l: Lookups, f: map<string, Json>, todo: set<string>, r: map<string, Json>, key: string)
    requires Partly(l, f, todo, r) && key in todo && key in f
    ensures Partly(l, f, todo - {key}, With(r, key, Resolved(l, f[key])))
  {
  }

  lemma GoneAll(l: Lookups, s0: Snap, cur: Snap)
    requires Going(l, s0, cur, {})
    ensures Doc(cur) == Obj(ResolvedFields(l, Doc(s0)))
  {
    assert Doc(cur).fields == ResolvedFields(l, Doc(s0));
  }

  /** What resolving the value under key leaves. */
  ghost predicate ResolvedAt(l: Lookups, key: string, s: Snap, t: Snap)
    requires s.SDict? && key in s.kids
  {
    && t.SDict? && t.m == s.m && Separate(t)
    && (forall k | k != key :: (k in t.kids <==> k in s.kids) && (k in s.kids ==> t.kids[k] == s.kids[k]))
    && Doc(t) == Obj(With(Doc(s).fields, key, Resolved(l, Doc(s.kids[key]))))
  }

  /** Resolves the value finalObject holds under key. Whatever the order keys are visited in, a pass
      that meets no error leaves the same, and if every reference resolves it meets none. */
  method ParseValueReferenceInObject(l: Lookups, key: string, value: Value, finalObject: GoMap, ghost s: Snap)
    returns (ok: bool, ghost t: Snap)
    requires s.SDict? && s.m == finalObject && Decoded(s) && key in s.kids && value == Val(s.kids[key])
    modifies {finalObject} + Objs(s.kids[key])
    ensures AllResolve(l, Doc(s.kids[key])) ==> ok
    ensures ok ==> ResolvedAt(l, key, s, t) && Holds(t)
    ensures ok ==> forall o | o in Objs(t) :: o in Objs(s) || fresh(o)
    decreases s.kids[key], 3
  {
    Under(s, key);
    if value.Dict? {
      ok, t := ProcessMapObject(l, key, value.m, finalObject, s);
    } else if value.List? {
      ok, t := ProcessArrayObject(l, key, value.items, finalObject, s);
    } else {
      ok, t := true, s;
    }
  }

  /** A text as the value that takes the object's place, if any. */
  method Convert(l: Lookups, text: string) returns (present: bool, v: Value, ghost s: Snap)
    ensures present <==> Converted(l, text).Some?
    ensures present ==> Decoded(s) && Val(s) == v && Doc(s) == Converted(l, text).value && !v.Dict?
    ensures present ==> forall o | o in Objs(s) :: fresh(o)
  {
    present, v, s := true, Nil, SNil;
    if text == "true" {
      v, s := Leaf(Bool(true)), SLeaf(Bool(true));
    } else if text == "false" {
      v, s := Leaf(Bool(false)), SLeaf(Bool(false));
    } else if text == "" {
      present := false;
    } else if Bracketed(text) && l.decode(text).Some? {
      v, s := Unmarshal(Arr(l.decode(text).value));
      Kinds(s);
    } else {
      v, s := Leaf(Str(text)), SLeaf(Str(text));
    }
  }

  /** The object under key as far as its keys are visited: nothing but it has changed. */
  ghost predicate Attached(s: Snap, key: string, cur: Snap)
    reads Objs(s), Objs(cur)
  {
    && s.SDict? && Separate(s) && key in s.kids && s.kids[key].SDict? && cur.SDict? && cur.m == s.kids[key].m
    && s.m.entries.Keys == s.kids.Keys && s.m.entries[key] == Dict(cur.m)
    && (forall k | k in s.kids && k != key :: s.m.entries[k] == Val(s.kids[k]) && Holds(s.kids[k]))
    && Decoded(cur)
  }

  /** finalObject[key] = what the text stands for, or delete(finalObject, key). */
  method Put(l: Lookups, key: string, text: string, finalObject: GoMap, ghost s: Snap) returns (ghost t: Snap)
    requires s.SDict? && s.m == finalObject && Decoded(s)
    modifies finalObject
    ensures t.SDict? && t.m == s.m && Decoded(t) && (key in finalObject.entries ==> !finalObject.entries[key].Dict?)
    ensures forall k | k != key :: (k in t.kids <==> k in s.kids) && (k in s.kids ==> t.kids[k] == s.kids[k])
    ensures Doc(t) == Obj(With(FieldsOf(s), key, Converted(l, text)))
    ensures forall o | o in Objs(t) :: o in Objs(s) || fresh(o)
  {
    hide Separate, Holds, Objs, Doc, Val;
    MapsExist(s);
    Under(s, key);
    var present, v;
    ghost var sv;
    present, v, sv := Convert(l, text);
    if present {
      t := Assign(finalObject, key, v, s, sv);
    } else {
      t := Delete(finalObject, key, s);
    }
    Under(t, key);
  }

  /** Puts what the reference stands for in the object's place. */
  method ReplaceAt(l: Lookups, key: string, mapObj: GoMap, finalObject: GoMap, ghost s: Snap, ghost cur: Snap)
    returns (ok: bool, ghost t: Snap)
    requires Attached(s, key, cur) && finalObject == s.m && mapObj == cur.m
    requires forall o | o in Objs(cur) :: o in Objs(s.kids[key]) || o !in Objs(s)
    requires MARKER in s.kids[key].kids && MARKER in cur.kids && cur.kids[MARKER] == s.kids[key].kids[MARKER]
    modifies finalObject
    ensures ok <==> Reference(l, Doc(s.kids[key].kids[MARKER])).Text?
    ensures ok ==> ResolvedAt(l, key, s, t) && Holds(t) && (key in finalObject.entries ==> !finalObject.entries[key].Dict?)
    ensures ok ==> forall o | o in Objs(t) :: o in Objs(s) || o in Objs(cur) || fresh(o)
  {
    hide Separate, Holds, Objs, Doc, Val, Converted, Reference;
    Under(cur, MARKER);
    Reattach(s, key, cur);
    t := WithKid(s, key, cur);
    MapsExist(t);
    var valueObject := Marshal(mapObj.entries[MARKER], cur.kids[MARKER]);
    var valueRef := Reference(l, valueObject);
    if valueRef.Failed? { return false, t; }
    MarkerResolves(l, s, key);
    WithTwice(FieldsOf(s), key, Doc(cur), Converted(l, valueRef.text));
    t := Put(l, key, valueRef.text, finalObject, t);
    ok := true;
  }

  lemma WithTwice(f: map<string, Json>, key: string, x: Json, r: Option<Json>)
    ensures With(f[key := x], key, r) == With(f, key, r)
  {
  }

  lemma Reattach(s: Snap, key: string, cur: Snap)
    requires Attached(s, key, cur)
    requires forall o | o in Objs(cur) :: o in Objs(s.kids[key]) || o !in Objs(s)
    ensures Decoded(WithKid(s, key, cur)) && forall o | o in Objs(WithKid(s, key, cur)) :: o in Objs(s) || o in Objs(cur)
    ensures FieldsOf(WithKid(s, key, cur)) == FieldsOf(s)[key := Doc(cur)]
  {
    hide Separate, Holds, Objs;
    Kinds(cur);
    KidReplaced(s, key, cur, Objs(cur) - Objs(s.kids[key]));
  }

  ghost function FieldsOf(s: Snap): map<string, Json>
    requires s.SDict?
  {
    Doc(s).fields
  }

  lemma MarkerResolves(l: Lookups, s: Snap, key: string)
    requires s.SDict? && key in s.kids && s.kids[key].SDict? && MARKER in s.kids[key].kids
    ensures Resolved(l, Doc(s.kids[key])) == Replacement(l, Doc(s.kids[key].kids[MARKER]))
    ensures AllResolve(l, Doc(s.kids[key])) ==> Reference(l, Doc(s.kids[key].kids[MARKER])).Text?
    ensures Doc(s) == Obj(FieldsOf(s))
  {
    assert MARKER in Doc(s.kids[key]).fields;
  }

  /** Where the visit of the keys stands: the object is still there, or a reference took its place. */
  ghost predicate Visiting(l: Lookups, key: string, s: Snap, cur: Snap, t: Snap, replaced: bool, todo: set<string>)
    requires s.SDict? && key in s.kids && s.kids[key].SDict?
    reads Objs(s), Objs(cur), Objs(t)
  {
    if replaced then
      && MARKER !in todo && MARKER in s.kids[key].kids && ResolvedAt(l, key, s, t) && Holds(t)
      && (key in s.m.entries ==> !s.m.entries[key].Dict?)
    else
      && Attached(s, key, cur) && Going(l, s.kids[key], cur, todo) && (MARKER in s.kids[key].kids ==> MARKER in todo)
      && forall o | o in Objs(cur) :: o in Objs(s.kids[key]) || o !in Objs(s)
  }

  method ProcessMapObject(l: Lookups, key: string, mapObj: GoMap, finalObject: GoMap, ghost s: Snap)
    returns (ok: bool, ghost t: Snap)
    requires s.SDict? && s.m == finalObject && Decoded(s) && key in s.kids && s.kids[key].SDict? && s.kids[key].m == mapObj
    modifies {finalObject} + Objs(s.kids[key])
    ensures AllResolve(l, Doc(s.kids[key])) ==> ok
    ensures ok ==> ResolvedAt(l, key, s, t) && Holds(t)
    ensures ok ==> forall o | o in Objs(t) :: o in Objs(s) || fresh(o)
    decreases s.kids[key], 2
  {
    hide Separate, Holds, Objs, Val, Doc, Partly, ResolvedAt, Going, Attached, Resolved, AllResolve;
    ghost var kid, cur := s.kids[key], s.kids[key];
    VisitBegins(l, key, s);
    MapsExist(s);
    KidObjs(s, key);
    t := s;
    ghost var replaced := false;
    var todo := mapObj.entries.Keys;
    while todo != {}
      invariant todo <= kid.kids.Keys && Visiting(l, key, s, cur, t, replaced, todo)
      invariant forall o | o in Objs(cur) :: o in Objs(kid) || fresh(o)
      invariant forall o | o in Objs(t) :: o in Objs(s) || fresh(o)
      decreases todo
    {
      var subKey :| subKey in todo;
      ok, cur, t, replaced := Visit(l, key, subKey, mapObj, finalObject, s, cur, t, replaced, todo);
      if !ok { return; }
      todo := todo - {subKey};
    }
    if !replaced {
      t := WithKid(s, key, cur);
      VisitEnds(l, key, s, cur);
    }
    ok := true;
  }

  lemma VisitBegins(l: Lookups, key: string, s: Snap)
    requires s.SDict? && Decoded(s) && key in s.kids && s.kids[key].SDict?
    ensures s.kids[key].m.entries.Keys == s.kids[key].kids.Keys
    ensures Visiting(l, key, s, s.kids[key], s, false, s.kids[key].kids.Keys)
  {
    hide Objs, Partly;
    AttachedAtFirst(s, key);
    Start(l, s.kids[key]);
    Entries(s.kids[key]);
  }

  lemma VisitEnds(l: Lookups, key: string, s: Snap, cur: Snap)
    requires s.SDict? && key in s.kids && s.kids[key].SDict? && Visiting(l, key, s, cur, s, false, {})
    ensures ResolvedAt(l, key, s, WithKid(s, key, cur)) && Holds(WithKid(s, key, cur))
    ensures forall o | o in Objs(WithKid(s, key, cur)) :: o in Objs(s) || o in Objs(cur)
  {
    hide Separate, Holds, Objs, Partly;
    Reattach(s, key, cur);
    GoneAll(l, s.kids[key], cur);
  }

  /** One key. */
  method Visit(l: Lookups, key: string, subKey: string, mapObj: GoMap, finalObject: GoMap,
               ghost s: Snap, ghost cur: Snap, ghost t: Snap, ghost replaced: bool, ghost todo: set<string>)
    returns (ok: bool, ghost curNow: Snap, ghost tNow: Snap, ghost replacedNow: bool)
    requires s.SDict? && s.m == finalObject && key in s.kids && s.kids[key].SDict? && s.kids[key].m == mapObj
    requires Separate(s) && Visiting(l, key, s, cur, t, replaced, todo) && subKey in todo && todo <= s.kids[key].kids.Keys
    requires forall o | o in Objs(s) :: allocated(o)
    modifies {finalObject} + Objs(s.kids[key])
    ensures AllResolve(l, Doc(s.kids[key])) ==> ok
    ensures ok ==> Visiting(l, key, s, curNow, tNow, replacedNow, todo - {subKey})
    ensures forall o | o in Objs(curNow) :: o in Objs(cur) || fresh(o)
    ensures forall o | o in Objs(tNow) :: o in Objs(t) || o in Objs(s) || o in Objs(cur) || fresh(o)
    decreases s.kids[key], 1
  {
    hide Separate, Holds, Objs, Val, Doc, Partly, Resolved, AllResolve;
    curNow, tNow, replacedNow := cur, t, replaced;
    Within(s, key, subKey);
    ok := true;
    if subKey == MARKER {
      MarkerResolves(l, s, key);
      ghost var next;
      ok, next := ReplaceAt(l, key, mapObj, finalObject, s, cur);
      if ok { tNow, replacedNow := next, true; }
    } else if key in finalObject.entries && finalObject.entries[key].Dict? {
      var mapValue := finalObject.entries[key].m;
      ghost var next;
      ok, next := ResolveAttached(l, key, subKey, mapValue, s, cur, todo);
      if ok { curNow := next; }
    }
  }

  lemma AttachedAtFirst(s: Snap, key: string)
    requires s.SDict? && Decoded(s) && key in s.kids && s.kids[key].SDict?
    ensures Attached(s, key, s.kids[key])
  {
  }

  lemma Within(s: Snap, key: string, subKey: string)
    requires s.SDict? && Separate(s) && key in s.kids && s.kids[key].SDict? && subKey in s.kids[key].kids
    ensures {s.kids[key].m} + Objs(s.kids[key].kids[subKey]) <= Objs(s.kids[key]) <= Objs(s)
    ensures s.m !in Objs(s.kids[key])
  {
    KidObjs(s.kids[key], subKey);
    KidObjs(s, key);
  }

  /** One round of the loop while the object is still there. */
  method ResolveAttached(l: Lookups, key: string, subKey: string, mapValue: GoMap, ghost s: Snap, ghost cur: Snap,
                         ghost todo: set<string>)
    returns (ok: bool, ghost next: Snap)
    requires Attached(s, key, cur) && cur.m == mapValue
    requires Going(l, s.kids[key], cur, todo) && subKey in todo && subKey != MARKER
    requires forall o | o in Objs(cur) :: o in Objs(s.kids[key]) || o !in Objs(s)
    modifies {mapValue} + Objs(s.kids[key].kids[subKey])
    ensures AllResolve(l, Doc(s.kids[key])) ==> ok
    ensures ok ==> Attached(s, key, next) && Going(l, s.kids[key], next, todo - {subKey})
    ensures ok ==> forall o | o in Objs(next) :: o in Objs(cur) || fresh(o)
    decreases s.kids[key].kids[subKey], 5
  {
    hide Separate, Objs, Val, Partly;
    MapsExist(s);
    Within(s, key, subKey);
    OthersApart(s, key);
    ok, next := ResolveEntry(l, subKey, mapValue, s.kids[key], cur, todo);
  }

  method ProcessArrayObject(l: Lookups, key: string, finalArray: seq<Value>, finalObject: GoMap, ghost s: Snap)
    returns (ok: bool, ghost t: Snap)
    requires s.SDict? && s.m == finalObject && Decoded(s) && key in s.kids && Val(s.kids[key]) == List(finalArray)
    modifies {finalObject} + Objs(s.kids[key])
    ensures AllResolve(l, Doc(s.kids[key])) ==> ok
    ensures ok ==> ResolvedAt(l, key, s, t) && Holds(t)
    ensures ok ==> forall o | o in Objs(t) :: o in Objs(s) || fresh(o)
    decreases s.kids[key], 2
  {
    hide Separate, Objs, Doc, Val;
    MapsExist(s);
    Under(s, key);
    OthersApart(s, key);
    ghost var kid, list := s.kids[key], s.kids[key];
    t := s;
    ok, list := ResolveItems(l, finalArray, kid);
    if ok {
      t := WithKid(s, key, list);
      KidReplaced(s, key, list, Objs(list) - Objs(kid));
    }
  }

  /** The objects of a list, one after the other. */
  method ResolveItems(l: Lookups, finalArray: seq<Value>, ghost list: Snap) returns (ok: bool, ghost t: Snap)
    requires list.SList? && Decoded(list) && Val(list) == List(finalArray)
    modifies Objs(list)
    ensures AllResolve(l, Doc(list)) ==> ok
    ensures ok ==> t.SList? && Decoded(t) && Val(t) == Val(list) && Some(Doc(t)) == Resolved(l, Doc(list))
    ensures ok ==> forall o | o in Objs(t) :: o in Objs(list) || fresh(o)
    decreases list, 1
  {
    hide Separate, Holds, Objs;
    MapsExist(list);
    t := list;
    for i := 0 to |finalArray|
      invariant ItemsGoing(l, list, t, i) && Holds(t)
      invariant forall o | o in Objs(t) :: o in Objs(list) || fresh(o)
    {
      ItemFacts(list, i);
      Kinds(list.items[i]);
      if finalArray[i].Dict? {
        ok, t := ResolveItem(l, finalArray[i].m, i, list, t);
        if !ok { return; }
      } else {
        assert ResolvedItem(l, Doc(list).items[i]) == Doc(list).items[i];
      }
    }
    assert Doc(t).items == Resolved(l, Doc(list)).value.items;
    ok := true;
  }

  /** The items below i are resolved. */
  ghost predicate ItemsGoing(l: Lookups, list: Snap, cur: Snap, i: nat) {
    && list.SList? && cur.SList? && Separate(cur) && Val(cur) == Val(list) && |cur.items| == |list.items|
    && (forall j | i <= j < |list.items| :: cur.items[j] == list.items[j])
    && Doc(list).Arr? && Doc(cur).Arr? && |Doc(cur).items| == |Doc(list).items| == |list.items|
    && (forall j | 0 <= j < |list.items| :: Doc(cur).items[j] == if j < i then ResolvedItem(l, Doc(list).items[j]) else Doc(list).items[j])
  }

  method ResolveItem(l: Lookups, m: GoMap, i: nat, ghost list: Snap, ghost cur: Snap)
    returns (ok: bool, ghost next: Snap)
    requires ItemsGoing(l, list, cur, i) && Separate(list) && Holds(cur) && i < |list.items|
    requires list.items[i].SDict? && list.items[i].m == m
    modifies Objs(list.items[i])
    ensures AllResolve(l, Doc(list)) ==> ok
    ensures ok ==> ItemsGoing(l, list, next, i + 1) && Holds(next)
    ensures ok ==> forall o | o in Objs(next) :: o in Objs(cur) || fresh(o)
    decreases list.items[i], 2
  {
    hide Separate, Objs, Val;
    MapsExist(cur);
    ItemFacts(cur, i);
    ItemFacts(list, i);
    ItemDecoded(cur, i);
    RestHolds(cur.items, i);
    RestApart(cur, i);
    ghost var item;
    ok, item := ResolveEntries(l, m, cur.items[i]);
    next := cur;
    if ok {
      Kinds(item);
      Kinds(cur.items[i]);
      ItemReplaced(cur, i, item, Objs(item) - Objs(cur.items[i]));
      next := SList(cur.items[i := item]);
      WithItemHolds(cur.items, i, item);
    }
  }

  /** Resolves every entry of a map, in any order. */
  method ResolveEntries(l: Lookups, m: GoMap, ghost s: Snap) returns (ok: bool, ghost t: Snap)
    requires s.SDict? && s.m == m && Decoded(s)
    modifies Objs(s)
    ensures (forall k | k in Doc(s).fields :: AllResolve(l, Doc(s).fields[k])) ==> ok
    ensures ok ==> t.SDict? && t.m == m && Decoded(t) && Doc(t) == Obj(ResolvedFields(l, Doc(s)))
    ensures ok ==> forall o | o in Objs(t) :: o in Objs(s) || fresh(o)
    decreases s, 1
  {
    hide Separate, Holds, Objs, Val;
    MapsExist(s);
    Entries(s);
    Kinds(s);
    t := s;
    var todo := m.entries.Keys;
    Start(l, s);
    while todo != {}
      invariant Going(l, s, t, todo) && Holds(t)
      invariant forall o | o in Objs(t) :: o in Objs(s) || fresh(o)
      decreases todo
    {
      var subKey :| subKey in todo;
      KidObjs(s, subKey);
      ok, t := ResolveEntry(l, subKey, m, s, t, todo);
      if !ok { return; }
      todo := todo - {subKey};
    }
    GoneAll(l, s, t);
    ok := true;
  }

  lemma Entries(s: Snap)
    requires s.SDict? && Decoded(s)
    ensures s.m.entries.Keys == s.kids.Keys == Doc(s).fields.Keys
  {
  }

  lemma Start(l: Lookups, s: Snap)
    requires s.SDict? && Separate(s)
    ensures Going(l, s, s, s.kids.Keys)
  {
  }

  /** One round of the loop over a map's keys. */
  method ResolveEntry(l: Lookups, subKey: string, m: GoMap, ghost s: Snap, ghost cur: Snap, ghost todo: set<string>)
    returns (ok: bool, ghost next: Snap)
    requires s.SDict? && s.m == m && Going(l, s, cur, todo) && Holds(cur) && subKey in todo
    modifies {m} + Objs(s.kids[subKey])
    ensures AllResolve(l, Doc(s).fields[subKey]) ==> ok
    ensures ok ==> Going(l, s, next, todo - {subKey}) && Holds(next)
    ensures ok ==> forall o | o in Objs(next) :: o in Objs(cur) || fresh(o)
    decreases s.kids[subKey], 4
  {
    hide Separate, Holds, Objs, Val;
    Under(cur, subKey);
    ok, next := ParseValueReferenceInObject(l, subKey, m.entries[subKey], m, cur);
    if ok { GoingOn(l, s, cur, next, todo, subKey); }
  }
}
