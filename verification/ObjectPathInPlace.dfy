/**
 addField and removeField as they change the decoded object's own maps (controllers/util/util.go),
 on the heap of MergeInPlace.
 */
module ObjectPathInPlace {
  import opened Json
  import opened MergeInPlace
  import opened ObjectPath
  import opened Uninstall

  // ---------------------------------------------------------------------------------------
  // Replacing one part of a decoded document

  /** Below key, the document changed to kid on the heap; everything else is as it was. */
  lemma KidReplaced(s: Snap, key: string, kid: Snap, extra: set<GoMap>)
    requires s.SDict? && Separate(s) && Decoded(kid) && key in s.kids
    requires extra !! Objs(s) && Objs(kid) <= Objs(s.kids[key]) + extra
    requires s.m.entries.Keys == s.kids.Keys && s.m.entries[key] == Val(kid)
    requires forall k | k in s.kids && k != key :: s.m.entries[k] == Val(s.kids[k]) && Holds(s.kids[k])
    ensures Decoded(WithKid(s, key, kid)) && Objs(WithKid(s, key, kid)) <= Objs(s) + extra
    ensures Doc(WithKid(s, key, kid)) == Obj(Doc(s).fields[key := Doc(kid)])
  {
    WithKidSeparate(s, key, kid, extra);
    WithKidHolds(s, key, kid);
  }

  /** One element of a list changed to item. */
  lemma ItemReplaced(s: Snap, i: nat, item: Snap, extra: set<GoMap>)
    requires s.SList? && Separate(s) && i < |s.items| && Separate(item) && Val(item) == Val(s.items[i])
    requires extra !! Objs(s) && Objs(item) <= Objs(s.items[i]) + extra
    ensures var t := SList(s.items[i := item]);
      Separate(t) && Objs(t) <= Objs(s) + extra && Val(t) == Val(s) && Doc(t) == Arr(Doc(s).items[i := Doc(item)])
  {
    var t := SList(s.items[i := item]);
    forall j | 0 <= j < |s.items| ensures Objs(s.items[j]) <= Objs(s) { ItemFacts(s, j); }
    assert Val(t).items == Val(s).items;
    assert Doc(t).items == Doc(s).items[i := Doc(item)];
  }

  lemma EmptyObject(m: GoMap)
    requires m.entries == map[]
    ensures var v := SDict(m, map[]); Decoded(v) && Objs(v) == {m} && Doc(v) == Obj(map[]) && Val(v) == Dict(m)
  {
    assert Doc(SDict(m, map[])).fields == map[];
  }

  lemma EmptyList()
    ensures Decoded(SList([])) && Objs(SList([])) == {} && Doc(SList([])) == Arr([]) && Val(SList([])) == List([])
  {
    assert Doc(SList([])).items == [] && Val(SList([])).items == [];
  }

  lemma Kinds(s: Snap)
    requires Separate(s)
    ensures (Doc(s).Obj? <==> s.SDict?) && (Val(s).Dict? <==> s.SDict?) && (s.SDict? ==> Val(s).m == s.m && s.m in Objs(s))
    ensures (Doc(s).Arr? <==> s.SList?) && (Val(s).List? <==> s.SList?)
  {
  }

  /** What a decoded object holds under a key, on the heap and in the document. */
  lemma Under(s: Snap, key: string)
    requires s.SDict? && Decoded(s)
    ensures Doc(s).Obj? && s.m in Objs(s)
    ensures (key in s.m.entries <==> key in s.kids) && (key in Doc(s).fields <==> key in s.kids)
    ensures key in s.kids ==> s.m.entries[key] == Val(s.kids[key]) && Doc(s).fields[key] == Doc(s.kids[key])
    ensures key in s.kids ==> Doc(s).fields[key := Doc(s.kids[key])] == Doc(s).fields
    ensures key in s.kids ==> Decoded(s.kids[key]) && s.m !in Objs(s.kids[key]) && Objs(s.kids[key]) <= Objs(s)
    ensures key in s.kids ==> var kid := s.kids[key];
      && (Doc(kid).Obj? <==> kid.SDict?) && (Val(kid).Dict? <==> kid.SDict?) && (kid.SDict? ==> Val(kid).m == kid.m)
      && (Doc(kid).Arr? <==> kid.SList?) && (Val(kid).List? <==> kid.SList?)
  {
    if key in s.kids {
      assert Doc(s).fields[key := Doc(s).fields[key]] == Doc(s).fields;
      Kinds(s.kids[key]);
    }
  }

  lemma WithKidDecoded(s: Snap, key: string, v: Snap)
    requires s.SDict? && Separate(s) && Decoded(v) && (Objs(v) <= Objs(Kid(s, key)) || Objs(v) !! Objs(s))
    requires s.m.entries.Keys == s.kids.Keys + {key} && s.m.entries[key] == Val(v)
    requires forall k | k in s.kids && k != key :: s.m.entries[k] == Val(s.kids[k]) && Holds(s.kids[k])
    ensures Decoded(WithKid(s, key, v)) && Objs(WithKid(s, key, v)) <= Objs(s) + Objs(v)
    ensures Doc(WithKid(s, key, v)) == Obj(Doc(s).fields[key := Doc(v)])
  {
    WithKidSeparate(s, key, v, if Objs(v) !! Objs(s) then Objs(v) else {});
    WithKidHolds(s, key, v);
  }

  /** obj[key] = value. */
  method Assign(obj: GoMap, key: string, value: Value, ghost s: Snap, ghost v: Snap) returns (ghost t: Snap)
    requires s.SDict? && s.m == obj && Decoded(s) && Val(v) == value && Decoded(v)
    requires Objs(v) <= Objs(Kid(s, key)) || Objs(v) !! Objs(s)
    requires obj !in Objs(v)
    modifies obj
    ensures t == WithKid(s, key, v) && Decoded(t) && Objs(t) <= Objs(s) + Objs(v)
    ensures Doc(t) == Obj(Doc(s).fields[key := Doc(v)])
  {
    MapsExist(s);
    MapsExist(v);
    obj.entries := obj.entries[key := value];
    t := WithKid(s, key, v);
    WithKidDecoded(s, key, v);
  }

  /** The object under the key, made first where there is none. */
  method EnsureMapAt(obj: GoMap, key: string, ghost s: Snap) returns (m: GoMap, ghost t: Snap)
    requires s.SDict? && s.m == obj && Decoded(s)
    modifies obj
    ensures t.SDict? && t.m == obj && Decoded(t) && key in t.kids && t.kids[key].SDict? && t.kids[key].m == m
    ensures Doc(t) == Obj(Doc(s).fields[key := Obj(ObjectAt(Doc(s).fields, key))])
    ensures Doc(t.kids[key]) == Obj(ObjectAt(Doc(s).fields, key))
    ensures forall o | o in Objs(t) :: o in Objs(s) || fresh(o)
  {
    hide Separate, Holds, Objs;
    MapsExist(s);
    Under(s, key);
    if key in obj.entries && obj.entries[key].Dict? {
      m, t := obj.entries[key].m, s;
    } else {
      m := new GoMap();
      EmptyObject(m);
      t := Assign(obj, key, Dict(m), s, SDict(m, map[]));
    }
  }

  /** The list under the key, made first where there is none. */
  method EnsureListAt(obj: GoMap, key: string, ghost s: Snap) returns (items: seq<Value>, ghost t: Snap)
    requires s.SDict? && s.m == obj && Decoded(s)
    modifies obj
    ensures t.SDict? && t.m == obj && Decoded(t) && key in t.kids && Val(t.kids[key]) == List(items)
    ensures Doc(t) == Obj(Doc(s).fields[key := Arr(ListAt(Doc(s).fields, key))])
    ensures Doc(t.kids[key]) == Arr(ListAt(Doc(s).fields, key))
    ensures Objs(t) <= Objs(s)
  {
    hide Separate, Holds, Objs;
    MapsExist(s);
    Under(s, key);
    if key in obj.entries && obj.entries[key].List? {
      items, t := obj.entries[key].items, s;
    } else {
      EmptyList();
      items := [];
      t := Assign(obj, key, List([]), s, SList([]));
    }
  }

  /** That list, given one new object where the index is beyond it; not ok when the index is
      further beyond or its element is no object. */
  method EnsureItemAt(obj: GoMap, key: string, index: nat, ghost s: Snap)
    returns (ok: bool, items: seq<Value>, ghost t: Snap)
    requires s.SDict? && s.m == obj && Decoded(s)
    modifies obj
    ensures var had := ItemsFor(Doc(s).fields, key, index);
      && (ok <==> index < |had| && had[index].Obj?)
      && (ok ==> Doc(t) == Obj(Doc(s).fields[key := Arr(had)]))
    ensures ok ==> t.SDict? && t.m == obj && Decoded(t) && key in t.kids && Val(t.kids[key]) == List(items)
    ensures ok ==> Doc(t.kids[key]) == Arr(ItemsFor(Doc(s).fields, key, index))
    ensures ok ==> index < |items| && items[index].Dict?
    ensures ok ==> forall o | o in Objs(t) :: o in Objs(s) || fresh(o)
  {
    hide Separate, Holds, Objs, Doc, Val;
    MapsExist(s);
    Under(s, key);
    items, t := EnsureListAt(obj, key, s);
    ListLike(t, key, items);
    ghost var f := Doc(s).fields;
    if index >= |items| {
      var m := new GoMap();
      items, t := Append(obj, key, items, m, t);
      ListLike(t, key, items);
      assert f[key := Arr(ListAt(f, key))][key := Doc(t.kids[key])] == f[key := Doc(t.kids[key])];
    }
    ok := index < |items| && items[index].Dict?;
  }

  lemma ListLike(s: Snap, key: string, items: seq<Value>)
    requires s.SDict? && Decoded(s) && key in s.kids && Val(s.kids[key]) == List(items)
    ensures s.kids[key].SList? && Doc(s.kids[key]).Arr? && |items| == |s.kids[key].items| == |Doc(s.kids[key]).items|
    ensures forall i | 0 <= i < |items| :: items[i] == Val(s.kids[key].items[i])
    ensures forall i | 0 <= i < |items| :: items[i].Dict? <==> s.kids[key].items[i].SDict?
    ensures forall i | 0 <= i < |items| :: items[i].Dict? ==> s.kids[key].items[i].m == items[i].m
    ensures forall i | 0 <= i < |items| :: items[i].Dict? <==> Doc(s.kids[key]).items[i].Obj?
    ensures Doc(s).Obj? && key in Doc(s).fields && Doc(s).fields[key] == Doc(s.kids[key])
  {
    KidDecoded(s, key);
    forall i | 0 <= i < |items| ensures (items[i].Dict? <==> s.kids[key].items[i].SDict?) && (items[i].Dict? <==> Doc(s.kids[key]).items[i].Obj?) {
      ItemFacts(s.kids[key], i);
    }
  }

  /** What stands in the list when addField looks at the index. */
  function ItemsFor(f: Fields, key: string, index: nat): seq<Json> {
    var had := ListAt(f, key);
    if index >= |had| then had + [Obj(map[])] else had
  }

  method Append(obj: GoMap, key: string, items: seq<Value>, m: GoMap, ghost s: Snap)
    returns (now: seq<Value>, ghost t: Snap)
    requires s.SDict? && s.m == obj && Decoded(s) && key in s.kids && Val(s.kids[key]) == List(items)
    requires m !in Objs(s) && m.entries == map[]
    modifies obj
    ensures t.SDict? && t.m == obj && Decoded(t) && key in t.kids && now == items + [Dict(m)] && Val(t.kids[key]) == List(now)
    ensures Doc(t.kids[key]) == Arr(Doc(s.kids[key]).items + [Obj(map[])])
    ensures Doc(t) == Obj(Doc(s).fields[key := Doc(t.kids[key])])
    ensures Objs(t) <= Objs(s) + {m}
  {
    hide Doc, Val;
    MapsExist(s);
    Under(s, key);
    now := items + [Dict(m)];
    ghost var list := SList(s.kids[key].items + [SDict(m, map[])]);
    Appended(s.kids[key], m);
    assert Val(list).items == now;
    obj.entries := obj.entries[key := List(now)];
    t := WithKid(s, key, list);
    KidReplaced(s, key, list, {m});
  }

  lemma Appended(s: Snap, m: GoMap)
    requires s.SList? && Decoded(s) && m !in Objs(s) && m.entries == map[]
    ensures var t := SList(s.items + [SDict(m, map[])]);
      && Decoded(t) && Objs(t) <= Objs(s) + {m}
      && Val(t) == List(Val(s).items + [Dict(m)]) && Doc(s).Arr? && Doc(t) == Arr(Doc(s).items + [Obj(map[])])
  {
    var t := SList(s.items + [SDict(m, map[])]);
    EmptyObject(m);
    forall j | 0 <= j < |t.items|
      ensures Decoded(t.items[j]) && Objs(t.items[j]) <= if j < |s.items| then Objs(s) else {m}
    {
      if j < |s.items| {
        ItemFacts(s, j);
        ItemDecoded(s, j);
      }
    }
    assert Val(t).items == Val(s).items + [Dict(m)];
    assert Doc(t).items == Doc(s).items + [Obj(map[])];
  }

  lemma Overwrite(f: Fields, key: string, x: Json, y: Json)
    ensures f[key := x][key := y] == f[key := y]
  {
  }

  /** One step of Add. */
  lemma AddSteps(f: Fields, path: seq<Segment>, value: Json)
    ensures path == [] ==> Add(f, path, value) == None
    ensures path != [] && path[0].Item? ==>
      var items, i := ItemsFor(f, path[0].name, path[0].index), path[0].index;
      if i < |items| && items[i].Obj? then
        var sub := Add(items[i].fields, path[1..], value);
        Add(f, path, value) == if sub.None? then None else Some(f[path[0].name := Arr(items[i := Obj(sub.value)])])
      else Add(f, path, value) == None
    ensures path != [] && path[0].Field? ==>
      var sub := Add(ObjectAt(f, path[0].name), path[1..], value);
      Add(f, path, value) ==
        if |path| == 1 then Some(f[path[0].name := value])
        else if sub.None? then None else Some(f[path[0].name := Obj(sub.value)])
  {
  }

  lemma RestApart(s: Snap, i: nat)
    requires s.SList? && Separate(s) && i < |s.items|
    ensures Objs(Rest(s.items, i)) !! Objs(s.items[i]) && Objs(Rest(s.items, i)) <= Objs(s)
  {
    forall j | 0 <= j < |s.items| && j != i ensures Objs(s.items[j]) !! Objs(s.items[i]) && Objs(s.items[j]) <= Objs(s) {
      ItemFacts(s, j);
    }
  }

  /** addField: goes through exactly when Add does, and leaves the object it leaves. */
  method AddField(obj: GoMap, fields: seq<Segment>, value: Value, ghost s: Snap, ghost v: Snap)
    returns (ok: bool, ghost t: Snap)
    requires s.SDict? && s.m == obj && Decoded(s)
    requires Val(v) == value && Decoded(v) && Objs(v) !! Objs(s)
    modifies Objs(s)
    ensures ok <==> Add(Doc(s).fields, fields, Doc(v)).Some?
    ensures ok ==> t.SDict? && t.m == obj && Decoded(t) && Doc(t) == Obj(Add(Doc(s).fields, fields, Doc(v)).value)
    ensures ok ==> forall o | o in Objs(t) :: o in Objs(s) || o in Objs(v) || fresh(o)
    decreases |fields|
  {
    t := s;
    if |fields| == 0 { return false, t; }
    if fields[0].Item? {
      ok, t := AddAtItem(obj, fields, value, s, v);
    } else if |fields| == 1 {
      AddSteps(Doc(s).fields, fields, Doc(v));
      t := Assign(obj, fields[0].name, value, s, v);
      ok := true;
    } else {
      ok, t := AddAtKey(obj, fields, value, s, v);
    }
  }

  method AddAtItem(obj: GoMap, fields: seq<Segment>, value: Value, ghost s: Snap, ghost v: Snap)
    returns (ok: bool, ghost t: Snap)
    requires s.SDict? && s.m == obj && Decoded(s)
    requires Val(v) == value && Decoded(v) && Objs(v) !! Objs(s)
    requires |fields| > 0 && fields[0].Item?
    modifies Objs(s)
    ensures ok <==> Add(Doc(s).fields, fields, Doc(v)).Some?
    ensures ok ==> t.SDict? && t.m == obj && Decoded(t) && Doc(t) == Obj(Add(Doc(s).fields, fields, Doc(v)).value)
    ensures ok ==> forall o | o in Objs(t) :: o in Objs(s) || o in Objs(v) || fresh(o)
    decreases |fields|, 1
  {
    hide Separate, Holds, Objs, Doc, Val, Add, ItemsFor;
    var name := fields[0].name;
    MapsExist(v);
    MapsExist(s);
    Under(s, name);
    ghost var f := Doc(s).fields;
    AddSteps(f, fields, Doc(v));
    var items;
    ok, items, t := EnsureItemAt(obj, name, fields[0].index, s);
    if ok {
      ghost var had := Doc(t.kids[name]);
      Under(t, name);
      ok, t := AddBelowItem(obj, items, fields, value, t, v);
      if ok {
        Overwrite(f, name, had, Doc(t).fields[name]);
      }
    }
  }

  method AddAtKey(obj: GoMap, fields: seq<Segment>, value: Value, ghost s: Snap, ghost v: Snap)
    returns (ok: bool, ghost t: Snap)
    requires s.SDict? && s.m == obj && Decoded(s)
    requires Val(v) == value && Decoded(v) && Objs(v) !! Objs(s)
    requires |fields| > 1 && fields[0].Field?
    modifies Objs(s)
    ensures ok <==> Add(Doc(s).fields, fields, Doc(v)).Some?
    ensures ok ==> t.SDict? && t.m == obj && Decoded(t) && Doc(t) == Obj(Add(Doc(s).fields, fields, Doc(v)).value)
    ensures ok ==> forall o | o in Objs(t) :: o in Objs(s) || o in Objs(v) || fresh(o)
    decreases |fields|, 1
  {
    hide Separate, Holds, Objs, Doc, Val, Add, ObjectAt;
    var name := fields[0].name;
    MapsExist(v);
    MapsExist(s);
    Under(s, name);
    ghost var f := Doc(s).fields;
    AddSteps(f, fields, Doc(v));
    var m;
    m, t := EnsureMapAt(obj, name, s);
    Under(t, name);
    ghost var had := Doc(t.kids[name]);
    ok, t := AddBelowKey(obj, m, fields, value, t, v);
    if ok {
      Overwrite(f, name, had, Doc(t).fields[name]);
    }
  }

  method AddBelowKey(obj: GoMap, m: GoMap, fields: seq<Segment>, value: Value, ghost s: Snap, ghost v: Snap)
    returns (ok: bool, ghost t: Snap)
    requires s.SDict? && s.m == obj && Decoded(s)
    requires Val(v) == value && Decoded(v) && Objs(v) !! Objs(s)
    requires |fields| > 1 && fields[0].name in s.kids && s.kids[fields[0].name].SDict? && s.kids[fields[0].name].m == m
    modifies Objs(s.kids[fields[0].name])
    ensures var sub := Add(Doc(s.kids[fields[0].name]).fields, fields[1..], Doc(v));
      && (ok <==> sub.Some?)
      && (ok ==> t.SDict? && t.m == obj && Decoded(t) && Doc(t) == Obj(Doc(s).fields[fields[0].name := Obj(sub.value)]))
    ensures ok ==> forall o | o in Objs(t) :: o in Objs(s) || o in Objs(v) || fresh(o)
    decreases |fields|, 0
  {
    var key := fields[0].name;
    MapsExist(s);
    KidDecoded(s, key);
    KidObjs(s, key);
    OthersApart(s, key);
    ghost var kid;
    ok, kid := AddField(m, fields[1..], value, s.kids[key], v);
    t := s;
    if ok {
      t := WithKid(s, key, kid);
      KidReplaced(s, key, kid, Objs(kid) - Objs(s.kids[key]));
    }
  }

  method AddBelowItem(obj: GoMap, items: seq<Value>, fields: seq<Segment>, value: Value, ghost s: Snap, ghost v: Snap)
    returns (ok: bool, ghost t: Snap)
    requires s.SDict? && s.m == obj && Decoded(s)
    requires Val(v) == value && Decoded(v) && Objs(v) !! Objs(s)
    requires |fields| > 0 && fields[0].Item? && fields[0].name in s.kids && Val(s.kids[fields[0].name]) == List(items)
    requires fields[0].index < |items| && items[fields[0].index].Dict?
    requires Doc(s.kids[fields[0].name]).Arr? && fields[0].index < |Doc(s.kids[fields[0].name]).items|
    requires Doc(s.kids[fields[0].name]).items[fields[0].index].Obj?
    modifies Objs(s.kids[fields[0].name])
    ensures var list := Doc(s.kids[fields[0].name]).items;
      var sub := Add(list[fields[0].index].fields, fields[1..], Doc(v));
      && (ok <==> sub.Some?)
      && (ok ==> t.SDict? && t.m == obj && Decoded(t))
      && (ok ==> Doc(t) == Obj(Doc(s).fields[fields[0].name := Arr(list[fields[0].index := Obj(sub.value)])]))
    ensures ok ==> forall o | o in Objs(t) :: o in Objs(s) || o in Objs(v) || fresh(o)
    decreases |fields|, 0
  {
    var key, i := fields[0].name, fields[0].index;
    hide Separate, Objs, Doc, Val;
    ghost var list := s.kids[key];
    MapsExist(s);
    Under(s, key);
    OthersApart(s, key);
    ListLike(s, key, items);
    ItemFacts(list, i);
    ItemDecoded(list, i);
    RestHolds(list.items, i);
    RestApart(list, i);
    ghost var item;
    ok, item := AddField(items[i].m, fields[1..], value, list.items[i], v);
    t := s;
    if ok {
      ghost var extra := Objs(item) - Objs(list.items[i]);
      ItemReplaced(list, i, item, extra);
      WithItemHolds(list.items, i, item);
      ghost var now := SList(list.items[i := item]);
      t := WithKid(s, key, now);
      KidReplaced(s, key, now, extra);
    }
  }

  lemma WithoutKid(s: Snap, key: string)
    requires s.SDict? && Separate(s)
    requires s.m.entries.Keys == s.kids.Keys - {key}
    requires forall k | k in s.kids && k != key :: s.m.entries[k] == Val(s.kids[k]) && Holds(s.kids[k])
    ensures var t := SDict(s.m, s.kids - {key});
      Decoded(t) && Objs(t) <= Objs(s) && Doc(t) == Obj(Doc(s).fields - {key})
  {
    hide Separate, Holds, Objs, Doc, Val;
    FewerDoc(s, key);
    FewerSeparate(s, key);
    FewerHolds(s, key);
  }

  lemma FewerDoc(s: Snap, key: string)
    requires s.SDict?
    ensures Doc(SDict(s.m, s.kids - {key})) == Obj(Doc(s).fields - {key})
  {
    assert Doc(SDict(s.m, s.kids - {key})).fields == Doc(s).fields - {key};
  }

  lemma FewerSeparate(s: Snap, key: string)
    requires s.SDict? && Separate(s)
    ensures var t := SDict(s.m, s.kids - {key}); Separate(t) && Objs(t) <= Objs(s)
  {
  }

  lemma FewerHolds(s: Snap, key: string)
    requires s.SDict? && s.m.entries.Keys == s.kids.Keys - {key}
    requires forall k | k in s.kids && k != key :: s.m.entries[k] == Val(s.kids[k]) && Holds(s.kids[k])
    ensures Holds(SDict(s.m, s.kids - {key}))
  {
  }

  /** delete(obj, key). */
  method Delete(obj: GoMap, key: string, ghost s: Snap) returns (ghost t: Snap)
    requires s.SDict? && s.m == obj && Decoded(s)
    modifies obj
    ensures t == SDict(obj, s.kids - {key}) && Decoded(t) && Objs(t) <= Objs(s)
    ensures Doc(t) == Obj(Doc(s).fields - {key})
  {
    MapsExist(s);
    obj.entries := obj.entries - {key};
    t := SDict(s.m, s.kids - {key});
    WithoutKid(s, key);
  }

  /** One step of Remove. */
  lemma RemoveSteps(f: Fields, path: seq<Segment>)
    ensures path == [] ==> Remove(f, path) == None
    ensures path != [] && path[0].Item? ==>
      var items, i := ListAt(f, path[0].name), path[0].index;
      if i < |items| && items[i].Obj? then
        var sub := Remove(items[i].fields, path[1..]);
        Remove(f, path) == if sub.None? then None else Some(f[path[0].name := Arr(items[i := Obj(sub.value)])])
      else Remove(f, path) == if i < |items| then None else Some(f)
    ensures path != [] && path[0].Field? && |path| == 1 ==> Remove(f, path) == Some(f - {path[0].name})
    ensures path != [] && path[0].Field? && |path| > 1 ==>
      var name := path[0].name;
      if name in f && f[name].Obj? then
        var sub := Remove(f[name].fields, path[1..]);
        Remove(f, path) == if sub.None? then None else Some(f[name := Obj(sub.value)])
      else Remove(f, path) == Some(f)
  {
  }

  /** removeField: goes through exactly when Remove does, and leaves the object it leaves. */
  method RemoveField(obj: GoMap, fields: seq<Segment>, ghost s: Snap) returns (ok: bool, ghost t: Snap)
    requires s.SDict? && s.m == obj && Decoded(s)
    modifies Objs(s)
    ensures ok <==> Remove(Doc(s).fields, fields).Some?
    ensures ok ==> t.SDict? && t.m == obj && Decoded(t) && Doc(t) == Obj(Remove(Doc(s).fields, fields).value)
    ensures ok ==> Objs(t) <= Objs(s)
    decreases |fields|
  {
    hide Separate, Holds, Objs, Doc, Val, Remove;
    t := s;
    if |fields| == 0 {
      Under(s, "");
      RemoveSteps(Doc(s).fields, fields);
      return false, t;
    }
    var name := fields[0].name;
    MapsExist(s);
    Under(s, name);
    RemoveSteps(Doc(s).fields, fields);
    if fields[0].Item? {
      if !(name in obj.entries && obj.entries[name].List?) { return true, t; }
      var items := obj.entries[name].items;
      ListLike(s, name, items);
      if fields[0].index >= |items| { return true, t; }
      if !items[fields[0].index].Dict? { return false, t; }
      ok, t := RemoveBelowItem(obj, items, fields, s);
    } else if |fields| == 1 {
      t := Delete(obj, name, s);
      ok := true;
    } else {
      if !(name in obj.entries && obj.entries[name].Dict?) { return true, t; }
      ok, t := RemoveBelowKey(obj, obj.entries[name].m, fields, s);
    }
  }

  method RemoveBelowKey(obj: GoMap, m: GoMap, fields: seq<Segment>, ghost s: Snap) returns (ok: bool, ghost t: Snap)
    requires s.SDict? && s.m == obj && Decoded(s)
    requires |fields| > 1 && fields[0].name in s.kids && s.kids[fields[0].name].SDict? && s.kids[fields[0].name].m == m
    modifies Objs(s.kids[fields[0].name])
    ensures var sub := Remove(Doc(s.kids[fields[0].name]).fields, fields[1..]);
      && (ok <==> sub.Some?)
      && (ok ==> t.SDict? && t.m == obj && Decoded(t) && Doc(t) == Obj(Doc(s).fields[fields[0].name := Obj(sub.value)]))
    ensures ok ==> Objs(t) <= Objs(s)
    decreases |fields|, 0
  {
    var key := fields[0].name;
    MapsExist(s);
    KidDecoded(s, key);
    KidObjs(s, key);
    OthersApart(s, key);
    ghost var kid;
    ok, kid := RemoveField(m, fields[1..], s.kids[key]);
    t := s;
    if ok {
      t := WithKid(s, key, kid);
      KidReplaced(s, key, kid, {});
    }
  }

  method RemoveBelowItem(obj: GoMap, items: seq<Value>, fields: seq<Segment>, ghost s: Snap)
    returns (ok: bool, ghost t: Snap)
    requires s.SDict? && s.m == obj && Decoded(s)
    requires |fields| > 0 && fields[0].Item? && fields[0].name in s.kids && Val(s.kids[fields[0].name]) == List(items)
    requires fields[0].index < |items| && items[fields[0].index].Dict?
    requires Doc(s.kids[fields[0].name]).Arr? && fields[0].index < |Doc(s.kids[fields[0].name]).items|
    requires Doc(s.kids[fields[0].name]).items[fields[0].index].Obj?
    modifies Objs(s.kids[fields[0].name])
    ensures var list := Doc(s.kids[fields[0].name]).items;
      var sub := Remove(list[fields[0].index].fields, fields[1..]);
      && (ok <==> sub.Some?)
      && (ok ==> t.SDict? && t.m == obj && Decoded(t))
      && (ok ==> Doc(t) == Obj(Doc(s).fields[fields[0].name := Arr(list[fields[0].index := Obj(sub.value)])]))
    ensures ok ==> Objs(t) <= Objs(s)
    decreases |fields|, 0
  {
    hide Separate, Objs, Doc, Val;
    var key, i := fields[0].name, fields[0].index;
    ghost var list := s.kids[key];
    MapsExist(s);
    Under(s, key);
    OthersApart(s, key);
    ListLike(s, key, items);
    ItemFacts(list, i);
    ItemDecoded(list, i);
    RestHolds(list.items, i);
    RestApart(list, i);
    ghost var item;
    ok, item := RemoveField(items[i].m, fields[1..], list.items[i]);
    t := s;
    if ok {
      Kinds(item);
      Kinds(list.items[i]);
      assert Objs(item) <= Objs(list.items[i]) + {};
      ItemReplaced(list, i, item, {});
      WithItemHolds(list.items, i, item);
      ghost var now := SList(list.items[i := item]);
      t := WithKid(s, key, now);
      assert Objs(now) <= Objs(s.kids[key]) + {};
      KidReplaced(s, key, now, {});
    }
  }
}
