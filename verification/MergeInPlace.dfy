/**
 The deep merge as controllers/util/merge.go performs it: decoded documents are Go maps on
 the heap, and the changed document's own maps are assigned into while its keys are visited
 in whatever order the runtime picks.

 A snapshot describes a decoded document: which map objects it is made of and what they
 hold. Holds says the heap agrees with a snapshot, Separate that no map occurs in it twice.
 */
module MergeInPlace {
  import opened Json
  import opened Merge

  datatype Value = Nil | Leaf(j: Json) | List(items: seq<Value>) | Dict(m: GoMap)

  class GoMap {
    var entries: map<string, Value>

    constructor ()
      ensures entries == map[]
    {
      entries := map[];
    }
  }

  function LookupValue(entries: map<string, Value>, key: string): Value {
    if key in entries then entries[key] else Nil
  }

  datatype Snap = SNil | SLeaf(j: Json) | SList(items: seq<Snap>) | SDict(m: GoMap, kids: map<string, Snap>)

  ghost function Kid(s: Snap, key: string): Snap
    requires s.SDict?
  {
    if key in s.kids then s.kids[key] else SNil
  }

  ghost function Val(s: Snap): Value {
    match s
    case SNil => Nil
    case SLeaf(j) => Leaf(j)
    case SList(items) => List(seq(|items|, i requires 0 <= i < |items| => Val(items[i])))
    case SDict(m, _) => Dict(m)
  }

  ghost function Doc(s: Snap): Json {
    match s
    case SNil => Null
    case SLeaf(j) => j
    case SList(items) => Arr(seq(|items|, i requires 0 <= i < |items| => Doc(items[i])))
    case SDict(_, kids) => Obj(map k | k in kids :: Doc(kids[k]))
  }

  ghost function Objs(s: Snap): set<GoMap> {
    match s
    case SNil => {}
    case SLeaf(_) => {}
    case SList(items) => set i, o | 0 <= i < |items| && o in Objs(items[i]) :: o
    case SDict(m, kids) => {m} + (set k, o | k in kids && o in Objs(kids[k]) :: o)
  }

  ghost predicate Separate(s: Snap) {
    match s
    case SNil => true
    case SLeaf(j) => j.Scalar() && j != Null
    case SList(items) =>
      && (forall i | 0 <= i < |items| :: Separate(items[i]))
      && (forall i, j | 0 <= i < j < |items| :: Objs(items[i]) !! Objs(items[j]))
    case SDict(m, kids) =>
      && (forall k | k in kids :: Separate(kids[k]) && m !in Objs(kids[k]))
      && (forall k, l | k in kids && l in kids && k != l :: Objs(kids[k]) !! Objs(kids[l]))
  }

  ghost predicate Holds(s: Snap)
    reads Objs(s)
  {
    match s
    case SNil => true
    case SLeaf(_) => true
    case SList(items) => forall i | 0 <= i < |items| :: Holds(items[i])
    case SDict(m, kids) =>
      && m.entries.Keys == kids.Keys
      && (forall k | k in kids :: m.entries[k] == Val(kids[k]) && Holds(kids[k]))
  }

  /** A decoded document: separate maps, and the heap holds it. */
  ghost predicate Decoded(s: Snap)
    reads Objs(s)
  {
    Separate(s) && Holds(s)
  }

  ghost function WithKid(s: Snap, key: string, kid: Snap): Snap
    requires s.SDict?
  {
    SDict(s.m, s.kids[key := kid])
  }

  /** Replacing one entry of a separate snapshot by something made of that entry's maps and
      of maps foreign to the snapshot keeps it separate. */
  lemma WithKidSeparate(s: Snap, key: string, kid: Snap, extra: set<GoMap>)
    requires s.SDict? && Separate(s) && Separate(kid)
    requires extra !! Objs(s)
    requires Objs(kid) <= Objs(Kid(s, key)) + extra
    ensures Separate(WithKid(s, key, kid))
    ensures Objs(WithKid(s, key, kid)) <= Objs(s) + extra
    ensures Doc(WithKid(s, key, kid)) == Obj(Doc(s).fields[key := Doc(kid)])
  {
    hide Holds, Val;
    var t := WithKid(s, key, kid);
    assert forall k, o | k in s.kids && o in Objs(s.kids[k]) :: o in Objs(s);
    assert Doc(t).fields == Doc(s).fields[key := Doc(kid)];
  }

  /** An entry of a decoded map is itself decoded. */
  lemma KidDecoded(s: Snap, key: string)
    requires s.SDict? && Decoded(s)
    ensures Decoded(Kid(s, key))
    ensures LookupValue(s.m.entries, key) == Val(Kid(s, key))
    ensures s.m !in Objs(Kid(s, key))
  {
  }

  lemma {:induction false} MapsExist(s: Snap)
    ensures forall o | o in Objs(s) :: allocated(o)
    decreases s
  {
    match s
    case SList(items) =>
      forall i | 0 <= i < |items| ensures forall o | o in Objs(items[i]) :: allocated(o) { MapsExist(items[i]); }
    case SDict(_, kids) =>
      forall k | k in kids ensures forall o | o in Objs(kids[k]) :: allocated(o) { MapsExist(kids[k]); }
    case _ =>
  }

  /** The heap holds s with one entry replaced. */
  lemma WithKidHolds(s: Snap, key: string, kid: Snap)
    requires s.SDict?
    requires s.m.entries.Keys == s.kids.Keys + {key}
    requires s.m.entries[key] == Val(kid) && Holds(kid)
    requires forall k | k in s.kids && k != key :: s.m.entries[k] == Val(s.kids[k]) && Holds(s.kids[k])
    ensures Holds(WithKid(s, key, kid))
  {
  }

  // ---------------------------------------------------------------------------------------
  // equality.Semantic.DeepEqual on decoded documents

  function DeepEqual(a: Value, b: Value, ghost sa: Snap, ghost sb: Snap): (eq: bool)
    requires Decoded(sa) && Decoded(sb) && Val(sa) == a && Val(sb) == b
    reads Objs(sa), Objs(sb)
    ensures eq <==> Doc(sa) == Doc(sb)
    decreases sa
  {
    DocsEqual(sa, sb);
    match (a, b)
    case (Dict(m), Dict(n)) =>
      && m.entries.Keys == n.entries.Keys
      && (forall k | k in m.entries.Keys :: DeepEqual(m.entries[k], n.entries[k], sa.kids[k], sb.kids[k]))
    case (List(xs), List(ys)) =>
      && |xs| == |ys|
      && (forall i | 0 <= i < |xs| :: DeepEqual(xs[i], ys[i], sa.items[i], sb.items[i]))
    case (Leaf(x), Leaf(y)) => x == y
    case (Nil, Nil) => true
    case _ => false
  }

  lemma DocsEqual(s: Snap, t: Snap)
    ensures s.SDict? && t.SDict? ==>
      (Doc(s) == Doc(t) <==> s.kids.Keys == t.kids.Keys && forall k | k in s.kids :: Doc(s.kids[k]) == Doc(t.kids[k]))
    ensures s.SList? && t.SList? ==>
      (Doc(s) == Doc(t) <==> |s.items| == |t.items| && forall i | 0 <= i < |s.items| :: Doc(s.items[i]) == Doc(t.items[i]))
  {
    if s.SDict? && t.SDict? {
      var f, g := Doc(s).fields, Doc(t).fields;
      assert f.Keys == s.kids.Keys && g.Keys == t.kids.Keys;
      assert f == g <==> f.Keys == g.Keys && forall k | k in f :: f[k] == g[k];
    }
    if s.SList? && t.SList? {
      var f, g := Doc(s).items, Doc(t).items;
      assert |f| == |s.items| && |g| == |t.items|;
      assert forall i | 0 <= i < |f| :: f[i] == Doc(s.items[i]);
      assert forall i | 0 <= i < |g| :: g[i] == Doc(t.items[i]);
      assert f == g <==> |f| == |g| && forall i | 0 <= i < |f| :: f[i] == g[i];
    }
  }

  // ---------------------------------------------------------------------------------------
  // MergeCR's loop and checkKeyBeforeMerging

  /** What assigning the merge of one default into one key leaves in the final map. */
  ghost function MergeKey(f: map<string, Json>, key: string, d: Json): map<string, Json> {
    var v := MergeValue(d, Lookup(f, key));
    if key in f || v != Null then f[key := v] else f
  }

  /** The final map once the defaults of the keys in done have been merged into c. */
  ghost function MergeSome(d: map<string, Json>, c: map<string, Json>, done: set<string>): map<string, Json> {
    map k | k in c.Keys + d.Keys && (k in c || (k in done && d[k] != Null)) ::
      if k in done && k in d then MergeValue(d[k], Lookup(c, k)) else c[k]
  }

  lemma MergeSomeStep(d: map<string, Json>, c: map<string, Json>, done: set<string>, key: string)
    requires key in d && key !in done
    ensures MergeKey(MergeSome(d, c, done), key, d[key]) == MergeSome(d, c, done + {key})
  {
    var m, n := MergeSome(d, c, done), MergeSome(d, c, done + {key});
    assert Lookup(m, key) == Lookup(c, key);
    MergeIsNull(d[key], Lookup(c, key));
    assert MergeKey(m, key, d[key]).Keys == n.Keys;
  }

  lemma MergeSomeAll(d: map<string, Json>, c: map<string, Json>)
    ensures Obj(MergeSome(d, c, d.Keys)) == MergeValue(Obj(d), Obj(c))
    ensures MergeSome(d, c, {}) == c
  {
    assert MergeSome(d, c, d.Keys) == MergeValue(Obj(d), Obj(c)).fields;
  }

  lemma SafeByKey(d: map<string, Json>, c: map<string, Json>)
    ensures Safe(Obj(d), Obj(c)) <==> forall k | k in d :: Safe(d[k], Lookup(c, k))
  {
  }

  /** Where the loop over the default keys stands: sr describes the final map, the keys in
      todo have not been looked at, all others are merged. */
  ghost predicate Progress(sd: Snap, sc: Snap, sr: Snap, todo: set<string>)
    requires sd.SDict? && sc.SDict?
  {
    var df, cf := Doc(sd).fields, Doc(sc).fields;
    && todo <= sd.kids.Keys
    && sr.SDict? && sr.m == sc.m && Separate(sr)
    && Objs(sr) <= Objs(sc) + Objs(sd)
    && (forall k | k in todo :: Objs(sd.kids[k]) !! Objs(sr))
    && (forall k | k in todo :: Kid(sr, k) == Kid(sc, k))
    && Doc(sr).fields == MergeSome(df, cf, df.Keys - todo)
    && (forall k | k in df && k !in todo :: Safe(df[k], Lookup(cf, k)))
  }

  lemma ProgressStart(sd: Snap, sc: Snap)
    requires sd.SDict? && sc.SDict? && Separate(sc) && Objs(sd) !! Objs(sc)
    ensures Progress(sd, sc, sc, sd.kids.Keys)
  {
    MergeSomeAll(Doc(sd).fields, Doc(sc).fields);
    forall k | k in sd.kids ensures Objs(sd.kids[k]) !! Objs(sc) { KidObjs(sd, k); }
    assert Doc(sd).fields.Keys - sd.kids.Keys == {};
  }

  lemma ProgressStep(sd: Snap, sc: Snap, sr: Snap, todo: set<string>, key: string, sn: Snap)
    requires sd.SDict? && sc.SDict? && Separate(sd)
    requires Progress(sd, sc, sr, todo) && key in todo
    requires KeyMerged(key, sd.kids[key], sr, sn)
    requires Safe(Doc(sd.kids[key]), Doc(Kid(sr, key)))
    ensures Progress(sd, sc, sn, todo - {key})
  {
    KidObjs(sd, key);
    ProgressDocs(Doc(sd).fields, Doc(sc).fields, Doc(sr).fields, todo, key);
    ProgressKey(sd, sc, sr, todo, key);
    KidObjs(sc, key);
    assert Doc(sd.kids[key]) == Doc(sd).fields[key];
  }

  lemma ProgressDocs(d: map<string, Json>, c: map<string, Json>, f: map<string, Json>, todo: set<string>, key: string)
    requires key in d && key in todo && f == MergeSome(d, c, d.Keys - todo)
    ensures MergeKey(f, key, d[key]) == MergeSome(d, c, d.Keys - (todo - {key}))
  {
    MergeSomeStep(d, c, d.Keys - todo, key);
    assert d.Keys - (todo - {key}) == d.Keys - todo + {key};
  }

  /** The key about to be merged still holds what it held at the start. */
  lemma ProgressKey(sd: Snap, sc: Snap, sr: Snap, todo: set<string>, key: string)
    requires sd.SDict? && sc.SDict?
    requires Progress(sd, sc, sr, todo) && key in todo
    ensures Doc(Kid(sr, key)) == Doc(Kid(sc, key))
    ensures Objs(sd.kids[key]) !! Objs(sr)
    ensures !Safe(Doc(sd.kids[key]), Doc(Kid(sr, key))) ==> !Safe(Doc(sd), Doc(sc))
  {
    KidObjs(sc, key);
    SafeByKey(Doc(sd).fields, Doc(sc).fields);
    assert Doc(sd.kids[key]) == Doc(sd).fields[key];
  }

  lemma ProgressEnd(sd: Snap, sc: Snap, sr: Snap)
    requires sd.SDict? && sc.SDict?
    requires Progress(sd, sc, sr, {})
    ensures Doc(sr) == MergeValue(Doc(sd), Doc(sc)) && Safe(Doc(sd), Doc(sc))
  {
    var df, cf := Doc(sd).fields, Doc(sc).fields;
    assert df.Keys - {} == df.Keys;
    MergeSomeAll(df, cf);
    SafeByKey(df, cf);
  }

  lemma KidObjs(s: Snap, key: string)
    requires s.SDict?
    ensures Objs(Kid(s, key)) <= Objs(s)
    ensures Doc(Kid(s, key)) == Lookup(Doc(s).fields, key)
  {
  }

  /** Merges every default entry into c, one key at a time in any order. Fails exactly when a
      type assertion would. */
  method MergeKeys(d: GoMap, c: GoMap, ghost sd: Snap, ghost sc: Snap)
    returns (ok: bool, ghost sr: Snap)
    requires sd.SDict? && sd.m == d && sc.SDict? && sc.m == c
    requires Decoded(sd) && Decoded(sc) && Objs(sd) !! Objs(sc)
    modifies Objs(sc)
    ensures ok <==> Safe(Doc(sd), Doc(sc))
    ensures ok ==> sr.SDict? && sr.m == c && Decoded(sr) && Objs(sr) <= Objs(sc) + Objs(sd)
    ensures ok ==> Doc(sr) == MergeValue(Doc(sd), Doc(sc))
    decreases sd, 0, 1
  {
    var todo := d.entries.Keys;
    sr := sc;
    ProgressStart(sd, sc);
    while todo != {}
      invariant Progress(sd, sc, sr, todo)
      invariant Holds(sd) && Holds(sr)
      decreases todo
    {
      var key :| key in todo;
      KidObjs(sc, key);
      ok, sr := MergeOneKey(key, d, c, sd, sc, sr, todo);
      if !ok { return; }
      todo := todo - {key};
    }
    ProgressEnd(sd, sc, sr);
    ok := true;
  }

  /** The same, noting that documents made of other maps are untouched. */
  method MergeKeysKeeping(d: GoMap, c: GoMap, ghost sd: Snap, ghost sc: Snap, ghost keep: Snap, ghost keepToo: Snap)
    returns (ok: bool, ghost sr: Snap)
    requires sd.SDict? && sd.m == d && sc.SDict? && sc.m == c
    requires Decoded(sd) && Decoded(sc) && Objs(sd) !! Objs(sc)
    requires Holds(keep) && Objs(keep) !! Objs(sc) && Holds(keepToo) && Objs(keepToo) !! Objs(sc)
    modifies Objs(sc)
    ensures Holds(keep) && Holds(keepToo)
    ensures ok <==> Safe(Doc(sd), Doc(sc))
    ensures ok ==> sr.SDict? && sr.m == c && Decoded(sr) && Objs(sr) <= Objs(sc) + Objs(sd)
    ensures ok ==> Doc(sr) == MergeValue(Doc(sd), Doc(sc))
    decreases sd, 0, 2
  {
    MapsExist(keep);
    MapsExist(keepToo);
    ok, sr := MergeKeys(d, c, sd, sc);
  }

  /** One round of that loop. */
  method MergeOneKey(key: string, d: GoMap, c: GoMap, ghost sd: Snap, ghost sc: Snap, ghost before: Snap,
                     ghost todo: set<string>)
    returns (ok: bool, ghost sr: Snap)
    requires sd.SDict? && sd.m == d && sc.SDict? && sc.m == c
    requires Decoded(sd) && Objs(sd) !! Objs(sc)
    requires Progress(sd, sc, before, todo) && Holds(before) && key in todo
    modifies {c} + Objs(Kid(sc, key))
    ensures ok ==> Progress(sd, sc, sr, todo - {key}) && Holds(sd) && Holds(sr)
    ensures !ok ==> !Safe(Doc(sd), Doc(sc))
    decreases sd, 0, 0
  {
    OneKeyReady(key, sd, sc, before, todo);
    ok, sr := CheckKeyKeeping(key, d.entries[key], LookupValue(c.entries, key), c, sd.kids[key], before, sd);
    if ok { ProgressStep(sd, sc, before, todo, key, sr); }
  }

  lemma OneKeyReady(key: string, sd: Snap, sc: Snap, before: Snap, todo: set<string>)
    requires sd.SDict? && sc.SDict? && Decoded(sd) && Objs(sd) !! Objs(sc)
    requires Progress(sd, sc, before, todo) && Holds(before) && key in todo
    ensures key in sd.m.entries && sd.m.entries[key] == Val(sd.kids[key])
    ensures Decoded(sd.kids[key]) && Objs(sd.kids[key]) !! Objs(before)
    ensures Kid(before, key) == Kid(sc, key)
    ensures Objs(sd) !! {sc.m} + Objs(Kid(sc, key))
    ensures !Safe(Doc(sd.kids[key]), Doc(Kid(sc, key))) ==> !Safe(Doc(sd), Doc(sc))
  {
    KidDecoded(sd, key);
    KidObjs(sc, key);
    ProgressKey(sd, sc, before, todo, key);
  }

  /** sr describes the final map after the default sd has been merged into its key: that
      key holds the merge, everything else is as before. */
  ghost predicate KeyMerged(key: string, sd: Snap, sf: Snap, sr: Snap)
    requires sf.SDict?
  {
    && sr.SDict? && sr.m == sf.m && Separate(sr)
    && Objs(sr) <= Objs(sf) + Objs(sd)
    && (forall k | k != key :: Kid(sr, k) == Kid(sf, k))
    && Doc(sr).fields == MergeKey(Doc(sf).fields, key, Doc(sd))
  }

  lemma KeyMergedBy(key: string, sd: Snap, sf: Snap, kid: Snap)
    requires sf.SDict? && Separate(sf) && Separate(kid) && Objs(sd) !! Objs(sf)
    requires Objs(kid) <= Objs(Kid(sf, key)) + Objs(sd)
    requires Doc(kid) == MergeValue(Doc(sd), Doc(Kid(sf, key)))
    requires Doc(kid) != Null || key in sf.kids
    ensures KeyMerged(key, sd, sf, WithKid(sf, key, kid))
  {
    hide Holds, Val, Safe, MergeValue, Separate;
    KidObjs(sf, key);
    WithKidSeparate(sf, key, kid, Objs(sd));
  }

  lemma KeyMergedUnchanged(key: string, sd: Snap, sf: Snap)
    requires sf.SDict? && Separate(sf)
    requires MergeValue(Doc(sd), Doc(Kid(sf, key))) == Doc(Kid(sf, key))
    ensures KeyMerged(key, sd, sf, sf)
  {
    KidObjs(sf, key);
    var f := Doc(sf).fields;
    if key in f { assert f[key := f[key]] == f; }
  }

  /** Between values of different kinds the changed one stands. */
  lemma KindsApart(key: string, sd: Snap, sf: Snap)
    requires sf.SDict? && Separate(sf) && Separate(sd) && !Kid(sf, key).SNil?
    requires !(sd.SDict? && Kid(sf, key).SDict?) && !(sd.SList? && Kid(sf, key).SList?)
    ensures KeyMerged(key, sd, sf, sf)
    ensures Safe(Doc(sd), Doc(Kid(sf, key)))
  {
    KeyMergedUnchanged(key, sd, sf);
  }

  lemma OthersApart(s: Snap, key: string)
    requires s.SDict? && Separate(s)
    ensures forall k | k in s.kids && k != key :: Objs(s.kids[k]) !! Objs(Kid(s, key)) && Objs(s.kids[k]) <= Objs(s)
  {
  }

  /** Merges one default into one key of the final map, which holds changedMap there. Fails
      exactly when a type assertion would. */
  method CheckKeyBeforeMerging(key: string, defaultMap: Value, changedMap: Value, finalMap: GoMap, ghost sd: Snap,
                               ghost sf: Snap)
    returns (ok: bool, ghost sr: Snap)
    requires sf.SDict? && sf.m == finalMap
    requires Decoded(sd) && Decoded(sf) && Objs(sd) !! Objs(sf)
    requires Val(sd) == defaultMap
    requires changedMap == LookupValue(finalMap.entries, key)
    modifies {finalMap} + Objs(Kid(sf, key))
    ensures ok <==> Safe(Doc(sd), Doc(Kid(sf, key)))
    ensures ok ==> KeyMerged(key, sd, sf, sr) && Holds(sr)
    decreases sd, 1
  {
    ok, sr := true, sf;
    KidDecoded(sf, key);
    KidObjs(sf, key);
    var same := DeepEqual(defaultMap, changedMap, sd, Kid(sf, key));
    if same {
      SafeSelf(Doc(sd));
      MergeSelf(Doc(sd));
      KeyMergedUnchanged(key, sd, sf);
    } else if defaultMap.Dict? {
      if changedMap.Nil? {
        sr := SetKey(key, defaultMap, finalMap, sd, sf);
      } else if changedMap.Dict? {
        ok, sr := MergeDictAt(key, defaultMap.m, changedMap.m, sd, sf);
      } else {
        KindsApart(key, sd, sf);
      }
    } else if defaultMap.List? {
      if changedMap.Nil? {
        sr := SetKey(key, defaultMap, finalMap, sd, sf);
      } else if changedMap.List? {
        ok, sr := MergeListAt(key, defaultMap.items, changedMap.items, sd, sf);
      } else {
        KindsApart(key, sd, sf);
      }
    } else if changedMap.Nil? {
      sr := SetKey(key, defaultMap, finalMap, sd, sf);
    } else {
      KindsApart(key, sd, sf);
    }
  }

  /** The same, noting that a document made of other maps is untouched. */
  method CheckKeyKeeping(key: string, defaultMap: Value, changedMap: Value, finalMap: GoMap, ghost sd: Snap,
                         ghost sf: Snap, ghost keep: Snap)
    returns (ok: bool, ghost sr: Snap)
    requires sf.SDict? && sf.m == finalMap
    requires Decoded(sd) && Decoded(sf) && Objs(sd) !! Objs(sf)
    requires Val(sd) == defaultMap
    requires changedMap == LookupValue(finalMap.entries, key)
    requires Holds(keep) && Objs(keep) !! {finalMap} + Objs(Kid(sf, key))
    modifies {finalMap} + Objs(Kid(sf, key))
    ensures Holds(keep)
    ensures ok <==> Safe(Doc(sd), Doc(Kid(sf, key)))
    ensures ok ==> KeyMerged(key, sd, sf, sr) && Holds(sr)
    decreases sd, 2
  {
    MapsExist(keep);
    ok, sr := CheckKeyBeforeMerging(key, defaultMap, changedMap, finalMap, sd, sf);
  }

  /** finalMap[key] = defaultMap: from here on the final map shares the default's own maps. */
  method SetKey(key: string, defaultMap: Value, finalMap: GoMap, ghost sd: Snap, ghost sf: Snap)
    returns (ghost sr: Snap)
    requires sf.SDict? && sf.m == finalMap
    requires Decoded(sd) && Decoded(sf) && Objs(sd) !! Objs(sf)
    requires Val(sd) == defaultMap && !sd.SNil? && Kid(sf, key).SNil?
    modifies finalMap
    ensures KeyMerged(key, sd, sf, sr) && Holds(sr)
  {
    MapsExist(sd);
    MapsExist(sf);
    finalMap.entries := finalMap.entries[key := defaultMap];
    sr := WithKid(sf, key, sd);
    WithKidHolds(sf, key, sd);
    KeyMergedBy(key, sd, sf, sd);
  }

  /** The object case: the loop over the default object's keys, assigning into finalMap[key]. */
  method MergeDictAt(key: string, d: GoMap, c: GoMap, ghost sd: Snap, ghost sf: Snap)
    returns (ok: bool, ghost sr: Snap)
    requires sf.SDict? && Kid(sf, key).SDict? && Kid(sf, key).m == c && sd.SDict? && sd.m == d
    requires Decoded(sd) && Decoded(sf) && Objs(sd) !! Objs(sf)
    modifies Objs(Kid(sf, key))
    ensures ok <==> Safe(Doc(sd), Doc(Kid(sf, key)))
    ensures ok ==> KeyMerged(key, sd, sf, sr) && Holds(sr)
    decreases sd, 0, 2
  {
    MapsExist(sf);
    KidDecoded(sf, key);
    KidObjs(sf, key);
    OthersApart(sf, key);
    sr := sf;
    ghost var kid;
    ok, kid := MergeKeys(d, c, sd, Kid(sf, key));
    if ok {
      sr := WithKid(sf, key, kid);
      WithKidHolds(sf, key, kid);
      KeyMergedBy(key, sd, sf, kid);
    }
  }

  /** The list case: elements are merged index by index as far as both lists go. */
  method MergeListAt(key: string, d: seq<Value>, c: seq<Value>, ghost sd: Snap, ghost sf: Snap)
    returns (ok: bool, ghost sr: Snap)
    requires sf.SDict? && Val(Kid(sf, key)) == List(c) && Val(sd) == List(d)
    requires Decoded(sd) && Decoded(sf) && Objs(sd) !! Objs(sf)
    modifies Objs(Kid(sf, key))
    ensures ok <==> Safe(Doc(sd), Doc(Kid(sf, key)))
    ensures ok ==> KeyMerged(key, sd, sf, sr) && Holds(sr)
    decreases sd, 0, 3
  {
    MapsExist(sf);
    KidDecoded(sf, key);
    KidObjs(sf, key);
    OthersApart(sf, key);
    sr := sf;
    ghost var kid;
    ok, kid := MergeLists(d, c, sd, Kid(sf, key));
    if ok {
      sr := WithKid(sf, key, kid);
      WithKidHolds(sf, key, kid);
      KeyMergedBy(key, sd, sf, kid);
    }
  }

  /** r describes what merging default element d into element c leaves. */
  ghost predicate ItemMerged(d: Snap, c: Snap, r: Snap) {
    && Separate(r) && Val(r) == Val(c) && Objs(r) <= Objs(c) + Objs(d)
    && ElementSafe(Doc(d), Doc(c)) && Doc(r) == MergeElement(Doc(d), Doc(c))
  }

  /** Where the loop over the list indices stands: elements below i are merged. */
  ghost predicate ListProgress(ds: seq<Snap>, cs: seq<Snap>, cur: seq<Snap>, i: nat) {
    && |cur| == |cs|
    && (forall j | 0 <= j < |cs| ::
        if j < i && j < |ds| then ItemMerged(ds[j], cs[j], cur[j]) else cur[j] == cs[j])
  }

  /** What the merge makes of a list element, and when its type assertion holds. */
  ghost function MergeElement(d: Json, c: Json): Json {
    if d.Obj? && c.Obj? then MergeValue(d, c) else c
  }

  ghost predicate ElementSafe(d: Json, c: Json) {
    d.Obj? && d.fields != map[] ==> c.Obj? && Safe(d, c)
  }

  lemma ListProgressEnd(sd: Snap, sc: Snap, cur: seq<Snap>)
    requires sd.SList? && sc.SList? && Separate(sd) && Separate(sc) && Objs(sd) !! Objs(sc)
    requires ListProgress(sd.items, sc.items, cur, |sd.items|)
    ensures Separate(SList(cur)) && Objs(SList(cur)) <= Objs(sc) + Objs(sd)
    ensures Val(SList(cur)) == Val(sc)
    ensures Doc(SList(cur)) == MergeValue(Doc(sd), Doc(sc))
    ensures Safe(Doc(sd), Doc(sc))
  {
    ListObjs(sd, sc, cur);
    ListDocs(sd, sc, cur);
  }

  /** What a merged or untouched element may be made of. */
  ghost function Reach(ds: seq<Snap>, cs: seq<Snap>, j: nat): set<GoMap>
    requires j < |cs|
  {
    Objs(cs[j]) + if j < |ds| then Objs(ds[j]) else {}
  }

  lemma ReachApart(sd: Snap, sc: Snap, j: nat)
    requires sd.SList? && sc.SList? && Separate(sd) && Separate(sc) && Objs(sd) !! Objs(sc)
    requires j < |sc.items|
    ensures Reach(sd.items, sc.items, j) <= Objs(sc) + Objs(sd)
    ensures forall k | 0 <= k < |sc.items| && k != j :: Reach(sd.items, sc.items, j) !! Reach(sd.items, sc.items, k)
  {
    hide Holds, Doc, Val;
    ItemFacts(sc, j);
    if j < |sd.items| { ItemFacts(sd, j); }
    forall k | 0 <= k < |sc.items| && k != j
      ensures Reach(sd.items, sc.items, j) !! Reach(sd.items, sc.items, k)
    {
      ItemFacts(sc, k);
      if k < |sd.items| { ItemFacts(sd, k); }
    }
  }

  lemma ListObjs(sd: Snap, sc: Snap, cur: seq<Snap>)
    requires sd.SList? && sc.SList? && Separate(sd) && Separate(sc) && Objs(sd) !! Objs(sc)
    requires ListProgress(sd.items, sc.items, cur, |sd.items|)
    ensures Separate(SList(cur)) && Objs(SList(cur)) <= Objs(sc) + Objs(sd)
  {
    hide Holds, Doc, Val, Safe, ElementSafe;
    forall j | 0 <= j < |cur|
      ensures Separate(cur[j]) && Objs(cur[j]) <= Objs(sc) + Objs(sd)
      ensures Objs(cur[j]) <= Reach(sd.items, sc.items, j)
    {
      ItemFacts(sc, j);
      ReachApart(sd, sc, j);
    }
    forall j, k | 0 <= j < k < |cur|
      ensures Objs(cur[j]) !! Objs(cur[k])
    {
      ReachApart(sd, sc, j);
    }
  }

  lemma ListDocs(sd: Snap, sc: Snap, cur: seq<Snap>)
    requires sd.SList? && sc.SList? && Separate(sd) && Separate(sc)
    requires ListProgress(sd.items, sc.items, cur, |sd.items|)
    ensures Val(SList(cur)) == Val(sc)
    ensures Doc(SList(cur)) == MergeValue(Doc(sd), Doc(sc))
    ensures Safe(Doc(sd), Doc(sc))
  {
    var ds, cs, m := Doc(sd).items, Doc(sc).items, MergeValue(Doc(sd), Doc(sc)).items;
    forall j | 0 <= j < |cs|
      ensures Doc(cur[j]) == m[j] && Val(cur[j]) == Val(sc.items[j])
      ensures j < |ds| ==> ElementSafe(ds[j], cs[j])
    {
      ItemFacts(sc, j);
      if j < |ds| { ItemFacts(sd, j); }
    }
    assert Val(SList(cur)).items == Val(sc).items;
    assert Doc(SList(cur)).items == m;
  }

  lemma ItemFacts(s: Snap, i: nat)
    requires s.SList? && Separate(s) && i < |s.items|
    ensures Separate(s.items[i]) && Objs(s.items[i]) <= Objs(s)
    ensures Val(s).items[i] == Val(s.items[i]) && Doc(s).items[i] == Doc(s.items[i])
  {
  }

  lemma ItemDecoded(s: Snap, i: nat)
    requires s.SList? && Decoded(s) && i < |s.items|
    ensures Decoded(s.items[i])
  {
  }

  /** A list snapshot with one element blanked out. */
  ghost function Rest(cur: seq<Snap>, i: nat): Snap
    requires i < |cur|
  {
    SList(cur[i := SNil])
  }

  /** Element i is still the changed list's own and shares no map with the other elements. */
  lemma ListProgressApart(sd: Snap, sc: Snap, cur: seq<Snap>, i: nat)
    requires sd.SList? && sc.SList? && Separate(sd) && Separate(sc) && Objs(sd) !! Objs(sc)
    requires ListProgress(sd.items, sc.items, cur, i) && i < |sc.items|
    ensures cur[i] == sc.items[i]
    ensures Objs(Rest(cur, i)) !! Objs(sc.items[i]) && Objs(Rest(cur, i)) <= Objs(sc) + Objs(sd)
  {
    forall j | 0 <= j < |cur| && j != i
      ensures Objs(cur[j]) !! Objs(sc.items[i]) && Objs(cur[j]) <= Objs(sc) + Objs(sd)
    {
      ReachApart(sd, sc, j);
      assert Objs(cur[j]) <= Reach(sd.items, sc.items, j);
    }
  }

  lemma RestHolds(cur: seq<Snap>, i: nat)
    requires i < |cur| && Holds(SList(cur))
    ensures Holds(Rest(cur, i)) && Holds(cur[i])
  {
  }

  lemma WithItemHolds(cur: seq<Snap>, i: nat, kid: Snap)
    requires i < |cur| && Holds(Rest(cur, i)) && Holds(kid)
    ensures Holds(SList(cur[i := kid]))
  {
    forall j | 0 <= j < |cur| && j != i ensures Holds(cur[j]) {
      assert Holds(cur[i := SNil][j]);
    }
  }

  lemma UnsafeElement(sd: Snap, sc: Snap, i: nat)
    requires sd.SList? && sc.SList? && i < |sd.items| && i < |sc.items|
    requires !ElementSafe(Doc(sd.items[i]), Doc(sc.items[i]))
    ensures !Safe(Doc(sd), Doc(sc))
  {
    assert Doc(sd).items[i] == Doc(sd.items[i]) && Doc(sc).items[i] == Doc(sc.items[i]);
  }

  /** An element with no default object to merge in stays; a default object with keys and a
      changed element that is no object make the assertion fail. */
  lemma NoMapElement(d: Snap, c: Snap)
    requires Separate(d) && Separate(c) && !(d.SDict? && c.SDict?)
    ensures if d.SDict? && d.kids.Keys != {} then !ElementSafe(Doc(d), Doc(c)) else ItemMerged(d, c, c)
  {
    if d.SDict? { assert Doc(d).fields.Keys == d.kids.Keys; }
  }

  lemma MapElement(d: Snap, c: Snap, r: Snap, ok: bool)
    requires d.SDict? && c.SDict?
    requires ok <==> Safe(Doc(d), Doc(c))
    requires ok ==> r.SDict? && r.m == c.m && Separate(r) && Objs(r) <= Objs(c) + Objs(d)
    requires ok ==> Doc(r) == MergeValue(Doc(d), Doc(c))
    ensures if ok then ItemMerged(d, c, r) else !ElementSafe(Doc(d), Doc(c))
  {
  }

  lemma ListProgressSkip(sd: Snap, sc: Snap, cur: seq<Snap>, i: nat)
    requires sd.SList? && sc.SList? && Separate(sd) && Separate(sc)
    requires ListProgress(sd.items, sc.items, cur, i) && i < |sd.items|
    requires sd.items[i].SDict? ==> |sc.items| <= i
    ensures ListProgress(sd.items, sc.items, cur, i + 1)
  {
    if i < |sc.items| { NoMapElement(sd.items[i], sc.items[i]); }
  }

  /** One element: changedMapRef[i] is asserted to be a map as soon as the default has a key. */
  method MergeElementAt(i: nat, d: GoMap, c: Value, ghost sd: Snap, ghost sc: Snap, ghost cur: seq<Snap>)
    returns (ok: bool, ghost next: seq<Snap>)
    requires sd.SList? && sc.SList? && i < |sd.items| && i < |sc.items|
    requires sd.items[i].SDict? && sd.items[i].m == d && Val(sc.items[i]) == c
    requires Decoded(sd) && Separate(sc) && Objs(sd) !! Objs(sc)
    requires ListProgress(sd.items, sc.items, cur, i) && Holds(SList(cur))
    modifies Objs(sc.items[i])
    ensures ok ==> ListProgress(sd.items, sc.items, next, i + 1) && Holds(sd) && Holds(SList(next))
    ensures !ok ==> !Safe(Doc(sd), Doc(sc))
    decreases sd, 0, 1
  {
    hide Separate, Objs, Doc, ItemMerged, Safe;
    ElementReady(i, sd, sc, cur);
    ok := true;
    ghost var kid := sc.items[i];
    if c.Dict? {
      ok, kid := MergeKeysKeeping(d, c.m, sd.items[i], sc.items[i], sd, Rest(cur, i));
      MapElement(sd.items[i], sc.items[i], kid, ok);
    } else {
      NoMapElement(sd.items[i], sc.items[i]);
      ok := d.entries.Keys == {};
    }
    next := cur[i := kid];
    if ok {
      WithItemHolds(cur, i, kid);
    } else {
      UnsafeElement(sd, sc, i);
    }
  }

  lemma ElementReady(i: nat, sd: Snap, sc: Snap, cur: seq<Snap>)
    requires sd.SList? && sc.SList? && i < |sd.items| && i < |sc.items|
    requires Decoded(sd) && Separate(sc) && Objs(sd) !! Objs(sc)
    requires ListProgress(sd.items, sc.items, cur, i) && Holds(SList(cur))
    ensures Decoded(sd.items[i]) && Decoded(sc.items[i]) && Holds(Rest(cur, i))
    ensures Objs(sd.items[i]) !! Objs(sc.items[i])
    ensures Objs(sd) !! Objs(sc.items[i]) && Objs(Rest(cur, i)) !! Objs(sc.items[i])
  {
    ItemFacts(sd, i);
    ItemFacts(sc, i);
    ItemDecoded(sd, i);
    ListProgressApart(sd, sc, cur, i);
    RestHolds(cur, i);
  }

  method MergeLists(d: seq<Value>, c: seq<Value>, ghost sd: Snap, ghost sc: Snap)
    returns (ok: bool, ghost sr: Snap)
    requires sd.SList? && sc.SList? && Val(sc) == List(c) && Val(sd) == List(d)
    requires Decoded(sd) && Decoded(sc) && Objs(sd) !! Objs(sc)
    modifies Objs(sc)
    ensures ok <==> Safe(Doc(sd), Doc(sc))
    ensures ok ==> Decoded(sr) && Val(sr) == Val(sc) && Objs(sr) <= Objs(sc) + Objs(sd)
    ensures ok ==> Doc(sr) == MergeValue(Doc(sd), Doc(sc))
    decreases sd, 0, 2
  {
    ghost var cur := sc.items;
    sr := sc;
    MapsExist(sd);
    MapsExist(sc);
    for i := 0 to |d|
      invariant ListProgress(sd.items, sc.items, cur, i)
      invariant Holds(sd) && Holds(SList(cur))
    {
      if d[i].Dict? && |c| > i {
        ok, cur := MergeElementAt(i, d[i].m, c[i], sd, sc, cur);
        if !ok { return; }
      } else {
        ListProgressSkip(sd, sc, cur, i);
      }
    }
    ListProgressEnd(sd, sc, cur);
    ok, sr := true, SList(cur);
  }
}
