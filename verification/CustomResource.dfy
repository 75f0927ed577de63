/**
 MergeCR on the bytes it is given, and the double merge updateCustomResource repeats on every
 reconcile (controllers/util/merge.go, controllers/operandrequest/reconcile_operand.go).
 */
module CustomResource {
  import opened Json
  import opened Merge
  import opened MergeInPlace

  /** A byte slice handed to MergeCR: empty, not a JSON document, or a JSON document. */
  datatype Raw = NoBytes | Malformed | Bytes(doc: Json)

  /** A Go map variable: decoding null leaves it nil. */
  datatype MapVar = NilMap | Entries(fields: map<string, Json>)

  /** A nil map or failed type assertion stops the pass; otherwise there is a value. */
  datatype Outcome<+T> = Panic | Done(value: T)

  /** json.Unmarshal into an empty map: anything but an object leaves it empty, null makes it nil. */
  function Decode(raw: Raw): MapVar {
    match raw
    case Bytes(Null) => NilMap
    case Bytes(Obj(f)) => Entries(f)
    case _ => Entries(map[])
  }

  function ToJson(m: MapVar): Json {
    match m
    case NilMap => Null
    case Entries(f) => Obj(f)
  }

  function MergeCR(defaultCR: Raw, changedCR: Raw): Outcome<MapVar> {
    if defaultCR.NoBytes? && changedCR.NoBytes? then Done(Entries(map[]))
    else if changedCR.NoBytes? then Done(Decode(defaultCR))
    else if defaultCR.NoBytes? then Done(Decode(changedCR))
    else MergeMaps(Decode(defaultCR), Decode(changedCR))
  }

  function MergeMaps(d: MapVar, c: MapVar): Outcome<MapVar> {
    match (d, c)
    case (NilMap, _) => Done(c)
    case (Entries(df), NilMap) => if forall k | k in df :: df[k] == Null then Done(NilMap) else Panic
    case (Entries(df), Entries(cf)) =>
      if Safe(Obj(df), Obj(cf)) then Done(Entries(MergeValue(Obj(df), Obj(cf)).fields)) else Panic
  }

  /** The spec one updateCustomResource pass writes, from the alm-example, the spec found in the
      cluster (Null when there is none) and the OperandConfig's bytes. */
  function Pass(alm: MapVar, spec: Json, config: Raw): Outcome<Json> {
    match MergeCR(Bytes(ToJson(alm)), Bytes(spec))
    case Panic => Panic
    case Done(updated) =>
      match MergeCR(Bytes(ToJson(updated)), config)
      case Panic => Panic
      case Done(m) => Done(ToJson(m))
  }

  /** What n passes in a row leave. */
  function Passes(alm: MapVar, spec: Json, config: Raw, n: nat): Outcome<Json> {
    if n == 0 then Done(spec)
    else
      match Passes(alm, spec, config, n - 1)
      case Panic => Panic
      case Done(s) => Pass(alm, s, config)
  }

  // ---------------------------------------------------------------------------------------
  // Convergence on documents

  /** The double merge: config over existing over the alm-example. */
  function Double(a: Json, e: Json, c: Json): Json {
    MergeValue(MergeValue(a, e), c)
  }

  /** A second pass only adds defaults that the first one could not place, a third adds nothing. */
  lemma DoubleConverges(a: Json, e: Json, c: Json)
    ensures Double(a, Double(a, e, c), c) == MergeValue(a, Double(a, e, c))
    ensures Double(a, Double(a, Double(a, e, c), c), c) == Double(a, Double(a, e, c), c)
  {
    var g := Double(a, e, c);
    MergeSameChangeTwice(MergeValue(a, e), c);
    MergeKeepsCarried(a, g, c);
    MergeSameDefaultTwice(a, g);
  }

  /** Where the config replaces an existing value by one of another kind, or a list element
      beyond the existing list or in place of a non-object, the alm-example has nothing to add
      to what the config says there. */
  predicate SettlesAtOnce(a: Json, e: Json, c: Json)
    decreases c
  {
    match (c, e)
    case (Null, _) => true
    case (_, Null) => true
    case (Obj(cf), Obj(ef)) =>
      a.Obj? ==> forall k | k in a.fields && k in cf :: SettlesAtOnce(a.fields[k], Lookup(ef, k), cf[k])
    case (Arr(cs), Arr(es)) =>
      a.Arr? ==> forall i | 0 <= i < |cs| && i < |a.items| && a.items[i].Obj? && cs[i].Obj? ::
        if i < |es| && es[i].Obj? then SettlesAtOnce(a.items[i], es[i], cs[i])
        else MergeValue(a.items[i], cs[i]) == cs[i]
    case _ => MergeValue(a, c) == c
  }

  lemma {:induction false} DefaultsPlacedAtOnce(a: Json, e: Json, c: Json)
    ensures MergeValue(a, Double(a, e, c)) == Double(a, e, c) <==> SettlesAtOnce(a, e, c)
    decreases c
  {
    var g := Double(a, e, c);
    match (c, e)
    case (Null, _) =>
      MergeSameDefaultTwice(a, e);
    case (_, Null) =>
      MergeSameDefaultTwice(a, c);
    case (Obj(cf), Obj(ef)) =>
      if a.Obj? { DefaultsPlacedAtOnceObj(a, e, c); }
    case (Arr(cs), Arr(es)) =>
      if a.Arr? { DefaultsPlacedAtOnceArr(a, e, c); }
    case _ =>
  }

  /** Filling defaults into an object that already has all their keys changes it only where a
      single key's merge does. */
  lemma FilledByKey(af: map<string, Json>, g: map<string, Json>)
    requires forall k | k in af && af[k] != Null :: k in g
    ensures MergeValue(Obj(af), Obj(g)) == Obj(g) <==>
            forall k | k in af :: MergeValue(af[k], Lookup(g, k)) == Lookup(g, k)
  {
    var h := MergeValue(Obj(af), Obj(g)).fields;
    assert h.Keys == g.Keys;
    assert h == g <==> forall k | k in g :: h[k] == g[k];
  }

  /** The double merge of objects, key by key. */
  lemma DoubleByKey(af: map<string, Json>, ef: map<string, Json>, cf: map<string, Json>)
    ensures var g := Double(Obj(af), Obj(ef), Obj(cf));
      && g.Obj?
      && (forall k | k in af && af[k] != Null :: k in g.fields)
      && (forall k | k in af :: Lookup(g.fields, k) == Double(af[k], Lookup(ef, k), Lookup(cf, k)))
  {
    var m := MergeValue(Obj(af), Obj(ef)).fields;
    forall k | k in af
      ensures Lookup(m, k) == MergeValue(af[k], Lookup(ef, k))
      ensures af[k] != Null ==> k in m && m[k] != Null
    {
      MergeIsNull(af[k], Lookup(ef, k));
    }
  }

  lemma {:induction false} DefaultsPlacedAtOnceObj(a: Json, e: Json, c: Json)
    requires a.Obj? && e.Obj? && c.Obj?
    ensures MergeValue(a, Double(a, e, c)) == Double(a, e, c) <==> SettlesAtOnce(a, e, c)
    decreases c, 0
  {
    var af, ef, cf := a.fields, e.fields, c.fields;
    DoubleByKey(af, ef, cf);
    var g := Double(a, e, c).fields;
    FilledByKey(af, g);
    forall k | k in af
      ensures MergeValue(af[k], Lookup(g, k)) == Lookup(g, k) <==>
              (k in cf ==> SettlesAtOnce(af[k], Lookup(ef, k), cf[k]))
    {
      if k in cf {
        DefaultsPlacedAtOnce(af[k], Lookup(ef, k), cf[k]);
      } else {
        MergeSameDefaultTwice(af[k], Lookup(ef, k));
      }
    }
  }

  lemma {:induction false} DefaultsPlacedAtOnceArr(a: Json, e: Json, c: Json)
    requires a.Arr? && e.Arr? && c.Arr?
    ensures MergeValue(a, Double(a, e, c)) == Double(a, e, c) <==> SettlesAtOnce(a, e, c)
    decreases c, 0
  {
    var as', es, cs := a.items, e.items, c.items;
    var m := MergeValue(a, e).items;
    var g := MergeValue(Arr(m), c).items;
    var h := MergeValue(a, Arr(g)).items;
    forall i | 0 <= i < |cs|
      ensures h[i] == g[i] <==>
        (i < |as'| && as'[i].Obj? && cs[i].Obj? ==>
          if i < |es| && es[i].Obj? then SettlesAtOnce(as'[i], es[i], cs[i])
          else MergeValue(as'[i], cs[i]) == cs[i])
    {
      if i < |as'| && as'[i].Obj? && cs[i].Obj? && i < |es| && es[i].Obj? {
        DefaultsPlacedAtOnce(as'[i], es[i], cs[i]);
      }
    }
    assert h == g <==> forall i | 0 <= i < |cs| :: h[i] == g[i];
  }

  /** Exactly when one pass is enough. */
  lemma OnePassIsEnough(a: Json, e: Json, c: Json)
    ensures Double(a, Double(a, e, c), c) == Double(a, e, c) <==> SettlesAtOnce(a, e, c)
  {
    DoubleConverges(a, e, c);
    DefaultsPlacedAtOnce(a, e, c);
  }

  /** One pass is not enough, for compatible trees of the same types, whenever the alm-example has
      defaults for a list element of the config and the cluster's list is still empty: they find no
      place in the first pass. */
  lemma SecondPassNeeded(key: string, ax: Json, cx: Json)
    requires ax.Obj? && cx.Obj? && Compatible(ax, cx) && MergeValue(ax, cx) != cx
    ensures var a, e, c := Obj(map[key := Arr([ax])]), Obj(map[key := Arr([])]), Obj(map[key := Arr([cx])]);
      && Compatible(a, e) && Compatible(a, c) && Compatible(e, c)
      && Double(a, Double(a, e, c), c) != Double(a, e, c)
  {
    hide MergeValue, Double, SettlesAtOnce, Compatible;
    var al, el, cl := Arr([ax]), Arr([]), Arr([cx]);
    OneElement(ax, cx);
    OneEntry(key, al, el);
    OneEntry(key, al, cl);
    OneEntry(key, el, cl);
    OneEntrySettles(key, al, el, cl);
    OnePassIsEnough(Obj(map[key := al]), Obj(map[key := el]), Obj(map[key := cl]));
  }

  lemma OneElement(ax: Json, cx: Json)
    requires ax.Obj? && cx.Obj? && Compatible(ax, cx)
    ensures Compatible(Arr([ax]), Arr([cx])) && Compatible(Arr([ax]), Arr([])) && Compatible(Arr([]), Arr([cx]))
    ensures SettlesAtOnce(Arr([ax]), Arr([]), Arr([cx])) ==> MergeValue(ax, cx) == cx
  {
    var al, cl := Arr([ax]), Arr([cx]);
    assert al.items[0] == ax && cl.items[0] == cx;
  }

  lemma OneEntry(key: string, x: Json, y: Json)
    ensures Compatible(Obj(map[key := x]), Obj(map[key := y])) <==> Compatible(x, y)
  {
    var xs, ys := map[key := x], map[key := y];
    assert key in xs && key in ys && xs[key] == x && ys[key] == y;
  }

  lemma OneEntrySettles(key: string, a: Json, e: Json, c: Json)
    requires e != Null
    ensures SettlesAtOnce(Obj(map[key := a]), Obj(map[key := e]), Obj(map[key := c])) <==> SettlesAtOnce(a, e, c)
  {
    hide MergeValue;
    var al, el, cl := map[key := a], map[key := e], map[key := c];
    assert key in al && key in cl && al[key] == a && cl[key] == c && Lookup(el, key) == e;
  }

  /** For instance a flag in the example and an empty object in the config. */
  lemma SecondPassCanBeNeeded(key: string, flag: string) returns (a: Json, e: Json, c: Json)
    ensures Compatible(a, e) && Compatible(a, c) && Compatible(e, c)
    ensures Double(a, Double(a, e, c), c) != Double(a, e, c)
  {
    var ax, cx := Obj(map[flag := Bool(true)]), Obj(map[]);
    assert flag in ax.fields && ax.fields[flag] != Null;
    assert flag in MergeValue(ax, cx).fields;
    SecondPassNeeded(key, ax, cx);
    a, e, c := Obj(map[key := Arr([ax])]), Obj(map[key := Arr([])]), Obj(map[key := Arr([cx])]);
  }

  // ---------------------------------------------------------------------------------------
  // Convergence of updateCustomResource itself

  /** On objects a pass is the double merge, and it stops exactly when a type assertion fails. */
  lemma PassIsDouble(alm: map<string, Json>, spec: map<string, Json>, config: map<string, Json>)
    ensures Pass(Entries(alm), Obj(spec), Bytes(Obj(config))) ==
      if Safe(Obj(alm), Obj(spec)) && Safe(MergeValue(Obj(alm), Obj(spec)), Obj(config))
      then Done(Double(Obj(alm), Obj(spec), Obj(config))) else Panic
  {
    hide Safe;
  }

  /** MergeCR on bytes: without bytes on one side the other side's document is the result; bytes that hold no
      object count as an empty one; null leaves a nil map, into which a non-null default cannot be put;
      objects are merged, unless an assertion fails. */
  lemma MergeCRMeans(d: Raw, c: Raw, df: map<string, Json>, cf: map<string, Json>)
    ensures MergeCR(NoBytes, NoBytes) == Done(Entries(map[]))
    ensures MergeCR(Bytes(Obj(df)), NoBytes) == Done(Entries(df)) && MergeCR(NoBytes, Bytes(Obj(cf))) == Done(Entries(cf))
    ensures MergeCR(Bytes(Obj(df)), Bytes(Obj(cf))) ==
      if Safe(Obj(df), Obj(cf)) then Done(Entries(MergeValue(Obj(df), Obj(cf)).fields)) else Panic
    ensures MergeCR(Bytes(Null), NoBytes) == Done(NilMap) && MergeCR(NoBytes, Bytes(Null)) == Done(NilMap)
    ensures MergeCR(Bytes(Null), Bytes(Obj(cf))) == Done(Entries(cf)) && MergeCR(Bytes(Null), Bytes(Null)) == Done(NilMap)
    ensures MergeCR(Bytes(Obj(df)), Bytes(Null)) == if forall k | k in df :: df[k] == Null then Done(NilMap) else Panic
    ensures c.Malformed? || (c.Bytes? && !c.doc.Obj? && c.doc != Null) ==> MergeCR(d, c) == MergeCR(d, Bytes(Obj(map[])))
    ensures d.Malformed? || (d.Bytes? && !d.doc.Obj? && d.doc != Null) ==> MergeCR(d, c) == MergeCR(Bytes(Obj(map[])), c)
  {
    hide Safe, MergeValue;
  }

  /** The document says nothing along the path of keys. */
  predicate Silent(c: Json, path: seq<Step>)
    decreases |path|
  {
    c == Null || (path != [] && path[0].Key? && c.Obj? && Silent(Lookup(c.fields, path[0].key), path[1..]))
  }

  /** There what stood stands. */
  lemma {:induction false} MergeSilent(d: Json, c: Json, path: seq<Step>)
    requires Silent(c, path) && At(d, path) != Null
    ensures At(MergeValue(d, c), path) == At(d, path)
    decreases |path|
  {
    if c != Null && d.Obj? {
      var k := path[0].key;
      MergeSilent(Lookup(d.fields, k), Lookup(c.fields, k), path[1..]);
    }
  }

  /** Config over existing over alm-example: after a pass a scalar of the config stands; one of the existing
      spec stands where the config is silent; a value of the alm-example where both are. */
  lemma PassPriorities(alm: map<string, Json>, spec: map<string, Json>, config: map<string, Json>, path: seq<Step>)
    requires Pass(Entries(alm), Obj(spec), Bytes(Obj(config))).Done?
    ensures var r := Pass(Entries(alm), Obj(spec), Bytes(Obj(config))).value;
      var a, e, c := At(Obj(alm), path), At(Obj(spec), path), At(Obj(config), path);
      && (c != Null && c.Scalar() ==> At(r, path) == c)
      && (e != Null && e.Scalar() && Silent(Obj(config), path) ==> At(r, path) == e)
      && (a != Null && Silent(Obj(spec), path) && Silent(Obj(config), path) ==> At(r, path) == a)
  {
    hide Safe, MergeValue;
    var a, e, c := Obj(alm), Obj(spec), Obj(config);
    PassIsDouble(alm, spec, config);
    var m := MergeValue(a, e);
    if At(c, path) != Null && At(c, path).Scalar() { ChangedScalarSurvives(m, c, path); }
    if At(e, path) != Null && At(e, path).Scalar() && Silent(c, path) {
      ChangedScalarSurvives(a, e, path);
      MergeSilent(m, c, path);
    }
    if At(a, path) != Null && Silent(e, path) && Silent(c, path) {
      MergeSilent(a, e, path);
      MergeSilent(m, c, path);
    }
  }

  /** A nil map of defaults acts like an empty one. */
  lemma NilDefault(c: MapVar)
    ensures MergeMaps(NilMap, c) == MergeMaps(Entries(map[]), c)
  {
    if c.Entries? {
      assert MergeValue(Obj(map[]), Obj(c.fields)).fields == c.fields;
    }
  }

  /** After the first pass the spec carries every choice of the config. */
  lemma PassCarriesConfig(alm: MapVar, spec: Json, config: Raw)
    requires Pass(alm, spec, config).Done?
    requires !config.NoBytes? && Decode(config).Entries?
    ensures var s := Pass(alm, spec, config).value;
      s.Obj? && MergeValue(s, Obj(Decode(config).fields)) == s
  {
    var c := Obj(Decode(config).fields);
    var u := MergeCR(Bytes(ToJson(alm)), Bytes(spec)).value;
    if u.NilMap? {
      MergeSelf(c);
    } else {
      MergeSameChangeTwice(Obj(u.fields), c);
    }
  }

  /** A pass over a spec that already carries the config only fills in the alm-example, and a
      further pass then changes nothing. */
  lemma PassOverCarried(alm: MapVar, g: Json, config: Raw)
    requires g.Obj? && !config.NoBytes? && Decode(config).Entries?
    requires MergeValue(g, Obj(Decode(config).fields)) == g
    requires Pass(alm, g, config).Done?
    ensures Pass(alm, Pass(alm, g, config).value, config) == Pass(alm, g, config)
  {
    var a, c := Obj(if alm.NilMap? then map[] else alm.fields), Obj(Decode(config).fields);
    assert Decode(Bytes(ToJson(alm))) == alm && Decode(Bytes(g)) == Entries(g.fields);
    NilDefault(Entries(g.fields));
    var h := MergeValue(a, g);
    assert MergeCR(Bytes(ToJson(alm)), Bytes(g)) == Done(Entries(h.fields));
    MergeKeepsCarried(a, g, c);
    assert Pass(alm, g, config) == Done(h);
    SafeAgain(a, g);
    MergeSameDefaultTwice(a, g);
    NilDefault(Entries(h.fields));
    assert MergeCR(Bytes(ToJson(alm)), Bytes(h)) == Done(Entries(h.fields));
  }

  /** Without a config the pass fills in the alm-example, once. */
  lemma PassWithoutConfig(alm: MapVar, spec: Json)
    requires Pass(alm, spec, NoBytes).Done?
    ensures Pass(alm, Pass(alm, spec, NoBytes).value, NoBytes) == Pass(alm, spec, NoBytes)
  {
    var a := Obj(if alm.NilMap? then map[] else alm.fields);
    var e := Decode(Bytes(spec));
    NilDefault(e);
    if e.Entries? {
      var h := MergeValue(a, Obj(e.fields));
      assert Pass(alm, spec, NoBytes) == Done(h);
      SafeAgain(a, Obj(e.fields));
      MergeSameDefaultTwice(a, Obj(e.fields));
      NilDefault(Entries(h.fields));
    }
  }

  /** Whatever the alm-example, the spec in the cluster and the OperandConfig bytes: once two
      passes have gone through, every later pass goes through and writes the same spec. */
  lemma {:induction false} TwoPassesReachAFixedSpec(alm: MapVar, spec: Json, config: Raw, n: nat)
    requires Passes(alm, spec, config, 2).Done? && n >= 2
    ensures Passes(alm, spec, config, n) == Passes(alm, spec, config, 2)
    decreases n
  {
    if n > 2 {
      TwoPassesReachAFixedSpec(alm, spec, config, n - 1);
      assert Passes(alm, spec, config, 1) == Pass(alm, spec, config);
      SecondPassIsFixed(alm, spec, config);
    }
  }

  lemma SecondPassIsFixed(alm: MapVar, spec: Json, config: Raw)
    requires Pass(alm, spec, config).Done? && Pass(alm, Pass(alm, spec, config).value, config).Done?
    ensures var s2 := Pass(alm, Pass(alm, spec, config).value, config).value;
      Pass(alm, s2, config) == Done(s2)
  {
    var s1 := Pass(alm, spec, config).value;
    if config.NoBytes? {
      PassWithoutConfig(alm, spec);
    } else if Decode(config).Entries? {
      PassCarriesConfig(alm, spec, config);
      PassOverCarried(alm, s1, config);
    } else {
      assert s1 == Null;
    }
  }

  /** One pass over pairwise compatible documents is safe and leaves them pairwise compatible. */
  lemma CompatiblePass(a: Json, e: Json, c: Json)
    requires Compatible(a, e) && Compatible(a, c) && Compatible(e, c)
    ensures Safe(a, e) && Safe(MergeValue(a, e), c)
    ensures Compatible(a, Double(a, e, c)) && Compatible(Double(a, e, c), c)
  {
    var m := MergeValue(a, e);
    CompatibleIsSafe(a, e);
    CompatibleWithMerge(a, e, c);
    CompatibleIsSafe(m, c);
    CompatibleIsReflexive(a);
    CompatibleIsReflexive(c);
    CompatibleIsSymmetric(a, e);
    CompatibleIsSymmetric(a, c);
    CompatibleWithMerge(a, e, a);
    CompatibleWithMerge(m, c, a);
    CompatibleWithMerge(m, c, c);
    CompatibleIsSymmetric(Double(a, e, c), a);
  }

  /** With pairwise compatible documents no pass ever stops. */
  lemma {:induction false} CompatiblePassesNeverStop(alm: map<string, Json>, spec: map<string, Json>,
                                                     config: map<string, Json>, n: nat)
    requires Compatible(Obj(alm), Obj(spec)) && Compatible(Obj(alm), Obj(config)) && Compatible(Obj(spec), Obj(config))
    ensures var r := Passes(Entries(alm), Obj(spec), Bytes(Obj(config)), n);
      r.Done? && r.value.Obj? && Compatible(Obj(alm), r.value) && Compatible(r.value, Obj(config))
    decreases n
  {
    if n > 0 {
      CompatiblePassesNeverStop(alm, spec, config, n - 1);
      var e := Passes(Entries(alm), Obj(spec), Bytes(Obj(config)), n - 1).value;
      CompatiblePass(Obj(alm), e, Obj(config));
      PassIsDouble(alm, e.fields, config);
    }
  }

  // ---------------------------------------------------------------------------------------
  // The merge as MergeCR runs it on the decoded documents

  ghost function MapOf(s: Snap): MapVar
    requires s.SDict? || s.SNil?
  {
    if s.SNil? then NilMap else Entries(Doc(s).fields)
  }

  /** A Go map variable and the document it holds. */
  ghost predicate Holding(m: GoMap?, s: Snap)
    reads Objs(s)
  {
    Decoded(s) && if m == null then s.SNil? else s.SDict? && s.m == m
  }

  /** MergeCR's loop: reading a nil map gives nil, assigning to one panics. */
  method MergeDecoded(d: GoMap?, c: GoMap?, ghost sd: Snap, ghost sc: Snap) returns (ok: bool, ghost sr: Snap)
    requires Holding(d, sd) && Holding(c, sc) && Objs(sd) !! Objs(sc)
    modifies Objs(sc)
    ensures ok <==> MergeMaps(MapOf(sd), MapOf(sc)).Done?
    ensures ok ==> Holding(c, sr) && MergeMaps(MapOf(sd), MapOf(sc)) == Done(MapOf(sr))
  {
    sr := sc;
    if d == null { return true, sc; }
    if c != null {
      ok, sr := MergeKeys(d, c, sd, sc);
      return;
    }
    MapsExist(sd);
    var todo := d.entries.Keys;
    while todo != {}
      invariant Decoded(sd) && todo <= d.entries.Keys
      invariant forall k | k in d.entries && k !in todo :: Doc(sd).fields[k] == Null
      decreases todo
    {
      var key :| key in todo;
      KidDecoded(sd, key);
      if !d.entries[key].Nil? {
        assert Doc(sd).fields[key] != Null;
        return false, sc;
      }
      todo := todo - {key};
    }
    assert Doc(sd).fields.Keys == d.entries.Keys;
    ok := true;
  }
}
