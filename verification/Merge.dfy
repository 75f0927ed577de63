/**
 The deep merge of controllers/util/merge.go as a function on documents, and its laws.
 MergeValue(d, c) is the value a key holds afterwards when the default tree has d there
 and the changed tree has c.
 */
module Merge {
  import opened Json

  function MergeValue(d: Json, c: Json): Json
    decreases d
  {
    match (d, c)
    case (_, Null) => d
    case (Obj(df), Obj(cf)) =>
      Obj(map k | k in df.Keys + cf.Keys && (k in cf || df[k] != Null) ::
        if k in df then MergeValue(df[k], Lookup(cf, k)) else cf[k])
    case (Arr(ds), Arr(cs)) =>
      Arr(seq(|cs|, i requires 0 <= i < |cs| =>
        if i < |ds| && ds[i].Obj? && cs[i].Obj? then MergeValue(ds[i], cs[i]) else cs[i]))
    case _ => c
  }

  /** A merge is null only when both sides are. */
  lemma MergeIsNull(d: Json, c: Json)
    ensures MergeValue(d, c) == Null <==> d == Null && c == Null
  {
  }

  /** Equal trees merge to themselves, so skipping them (as the code does) changes nothing. */
  lemma {:induction false} MergeSelf(c: Json)
    ensures MergeValue(c, c) == c
    decreases c
  {
    match c
    case Obj(f) =>
      forall k | k in f ensures MergeValue(f[k], f[k]) == f[k] { MergeSelf(f[k]); }
      assert MergeValue(c, c).fields == f;
    case Arr(s) =>
      forall i | 0 <= i < |s| && s[i].Obj? ensures MergeValue(s[i], s[i]) == s[i] { MergeSelf(s[i]); }
      assert MergeValue(c, c).items == s;
    case _ =>
  }

  /** Filling in the same defaults twice is the same as once. */
  lemma {:induction false} MergeSameDefaultTwice(d: Json, c: Json)
    ensures MergeValue(d, MergeValue(d, c)) == MergeValue(d, c)
    decreases d
  {
    var m := MergeValue(d, c);
    match (d, c)
    case (_, Null) =>
      MergeSelf(d);
    case (Obj(df), Obj(cf)) =>
      forall k | k in m.fields && k in df
        ensures MergeValue(df[k], m.fields[k]) == m.fields[k]
      {
        MergeSameDefaultTwice(df[k], Lookup(cf, k));
      }
      assert MergeValue(d, m).fields == m.fields;
    case (Arr(ds), Arr(cs)) =>
      forall i | 0 <= i < |cs| && i < |ds| && ds[i].Obj? && cs[i].Obj?
        ensures MergeValue(ds[i], m.items[i]) == m.items[i]
      {
        MergeSameDefaultTwice(ds[i], cs[i]);
      }
      assert MergeValue(d, m).items == m.items;
    case _ =>
  }

  /** An object whose every entry absorbs what c has there absorbs c. */
  lemma AbsorbedByKey(m: map<string, Json>, c: map<string, Json>)
    requires c.Keys <= m.Keys && forall k | k in m :: (k in c || m[k] != Null) && MergeValue(m[k], Lookup(c, k)) == m[k]
    ensures MergeValue(Obj(m), Obj(c)) == Obj(m)
  {
    assert MergeValue(Obj(m), Obj(c)).fields == m;
  }

  /** And a list, element by element. */
  lemma AbsorbedByElement(m: seq<Json>, c: seq<Json>)
    requires |m| == |c| && forall i | 0 <= i < |c| :: if m[i].Obj? && c[i].Obj? then MergeValue(m[i], c[i]) == m[i] else m[i] == c[i]
    ensures MergeValue(Arr(m), Arr(c)) == Arr(m)
  {
    assert MergeValue(Arr(m), Arr(c)).items == m;
  }

  /** Once a tree has been overridden by c, overriding it by c again changes nothing. */
  lemma {:induction false} MergeSameChangeTwice(x: Json, c: Json)
    ensures MergeValue(MergeValue(x, c), c) == MergeValue(x, c)
    decreases x
  {
    var m := MergeValue(x, c);
    match (x, c)
    case (_, Null) =>
    case (Obj(xf), Obj(cf)) =>
      forall k | k in m.fields
        ensures MergeValue(m.fields[k], Lookup(cf, k)) == m.fields[k]
      {
        if k in xf {
          MergeSameChangeTwice(xf[k], Lookup(cf, k));
        } else {
          MergeSelf(cf[k]);
        }
      }
      forall k | k in m.fields ensures k in cf || m.fields[k] != Null {
        if k in xf { MergeIsNull(xf[k], Lookup(cf, k)); }
      }
      AbsorbedByKey(m.fields, cf);
    case (Arr(xs), Arr(cs)) =>
      forall i | 0 <= i < |cs|
        ensures if m.items[i].Obj? && cs[i].Obj? then MergeValue(m.items[i], cs[i]) == m.items[i] else m.items[i] == cs[i]
      {
        if i < |xs| && xs[i].Obj? && cs[i].Obj? {
          MergeSameChangeTwice(xs[i], cs[i]);
        } else {
          assert m.items[i] == cs[i];
          MergeSelf(cs[i]);
        }
      }
      AbsorbedByElement(m.items, cs);
    case _ =>
      MergeSelf(c);
  }

  /** When e already carries every choice of c, filling defaults into e does not undo that. */
  lemma {:induction false} MergeKeepsCarried(a: Json, e: Json, c: Json)
    requires MergeValue(e, c) == e
    ensures MergeValue(MergeValue(a, e), c) == MergeValue(a, e)
    decreases e, 1
  {
    if e.Obj? && c.Obj? && a.Obj? {
      MergeKeepsCarriedObj(a, e, c);
    } else if e.Arr? && c.Arr? && a.Arr? {
      MergeKeepsCarriedArr(a, e, c);
    }
  }

  lemma {:induction false} MergeKeepsCarriedObj(a: Json, e: Json, c: Json)
    requires a.Obj? && e.Obj? && c.Obj?
    requires MergeValue(e, c) == e
    ensures MergeValue(MergeValue(a, e), c) == MergeValue(a, e)
    decreases e, 0
  {
    var af, ef, cf := a.fields, e.fields, c.fields;
    var m := MergeValue(a, e).fields;
    assert ef == MergeValue(e, c).fields;
    forall k | k in m
      ensures MergeValue(m[k], Lookup(cf, k)) == m[k]
    {
      if k in ef {
        assert MergeValue(ef[k], Lookup(cf, k)) == ef[k];
        if k in af { MergeKeepsCarried(af[k], ef[k], Lookup(cf, k)); }
      } else {
        assert k !in cf;
      }
    }
    var n := MergeValue(Obj(m), c).fields;
    assert forall k | k in cf :: k in MergeValue(e, c).fields;
    assert cf.Keys <= m.Keys;
    forall k | k in m && k !in cf
      ensures m[k] != Null
    {
      if k in ef { assert k in MergeValue(e, c).fields && ef[k] != Null; }
      if k in af { MergeIsNull(af[k], Lookup(ef, k)); }
    }
    assert n.Keys == m.Keys;
    assert n == m;
  }

  lemma {:induction false} MergeKeepsCarriedArr(a: Json, e: Json, c: Json)
    requires a.Arr? && e.Arr? && c.Arr?
    requires MergeValue(e, c) == e
    ensures MergeValue(MergeValue(a, e), c) == MergeValue(a, e)
    decreases e, 0
  {
    var as', es, cs := a.items, e.items, c.items;
    var m := MergeValue(a, e).items;
    var n := MergeValue(Arr(m), c).items;
    assert es == MergeValue(e, c).items;
    forall i | 0 <= i < |cs|
      ensures n[i] == m[i]
    {
      assert es[i] == MergeValue(e, c).items[i];
      if i < |as'| && as'[i].Obj? && es[i].Obj? && cs[i].Obj? {
        MergeKeepsCarried(as'[i], es[i], cs[i]);
      }
    }
    assert n == m;
  }

  // ---------------------------------------------------------------------------------------
  // What survives, what is filled in, and where it comes from

  /** A path the merge can follow: it never looks into a list that is itself a list element. */
  predicate Followable(path: seq<Step>) {
    forall i | 0 <= i < |path| - 1 :: path[i].Index? ==> path[i + 1].Key?
  }

  /** Every non-null scalar of the changed tree is found unchanged at its own path. */
  lemma {:induction false} ChangedScalarSurvives(d: Json, c: Json, path: seq<Step>)
    requires At(c, path) != Null && At(c, path).Scalar()
    ensures At(MergeValue(d, c), path) == At(c, path)
    decreases |path|
  {
    if path != [] {
      match (path[0], c)
      case (Key(k), Obj(cf)) =>
        if d.Obj? && k in d.fields {
          ChangedScalarSurvives(d.fields[k], Lookup(cf, k), path[1..]);
        }
      case (Index(i), Arr(cs)) =>
        if d.Arr? && i < |d.items| && d.items[i].Obj? && cs[i].Obj? {
          ChangedScalarSurvives(d.items[i], cs[i], path[1..]);
        }
      case _ =>
    }
  }

  /** Lists keep the length they have in the changed tree. */
  lemma {:induction false} ChangedListLengthSurvives(d: Json, c: Json, path: seq<Step>)
    requires At(c, path).Arr?
    ensures At(MergeValue(d, c), path).Arr?
    ensures |At(MergeValue(d, c), path).items| == |At(c, path).items|
    decreases |path|
  {
    if path != [] {
      match (path[0], c)
      case (Key(k), Obj(cf)) =>
        if d.Obj? && k in d.fields {
          ChangedListLengthSurvives(d.fields[k], Lookup(cf, k), path[1..]);
        }
      case (Index(i), Arr(cs)) =>
        if d.Arr? && i < |d.items| && d.items[i].Obj? && cs[i].Obj? {
          ChangedListLengthSurvives(d.items[i], cs[i], path[1..]);
        }
      case _ =>
    }
  }

  /** Below aligned objects the merge acts as if it had been called there. */
  lemma {:induction false} MergeIsLocal(d: Json, c: Json, path: seq<Step>)
    requires Followable(path)
    requires At(d, path).Obj? && At(c, path).Obj?
    ensures At(MergeValue(d, c), path) == MergeValue(At(d, path), At(c, path))
    decreases |path|
  {
    if path != [] {
      match path[0]
      case Key(k) =>
        MergeIsLocal(Lookup(d.fields, k), Lookup(c.fields, k), path[1..]);
      case Index(i) =>
        if |path| > 1 { assert path[1].Key?; }
        MergeIsLocal(d.items[i], c.items[i], path[1..]);
    }
  }

  /** A default whose key the changed object leaves out, or holds null at, is filled in whole;
      a null default is never added. */
  lemma {:induction false} DefaultIsFilledIn(d: Json, c: Json, path: seq<Step>, key: string)
    requires Followable(path)
    requires At(d, path).Obj? && At(c, path).Obj?
    requires Lookup(At(c, path).fields, key) == Null
    ensures At(MergeValue(d, c), path).Obj?
    ensures Lookup(At(MergeValue(d, c), path).fields, key) == Lookup(At(d, path).fields, key)
    ensures key in At(MergeValue(d, c), path).fields <==>
            key in At(c, path).fields || Lookup(At(d, path).fields, key) != Null
  {
    MergeIsLocal(d, c, path);
  }

  /** Nothing is invented: every scalar of the result stands at that path in one of the inputs. */
  lemma {:induction false} ScalarsHaveAnOrigin(d: Json, c: Json, path: seq<Step>)
    ensures var r := At(MergeValue(d, c), path);
      r.Scalar() ==> r == At(c, path) || (r == At(d, path) && !(At(c, path).Scalar() && At(c, path) != Null))
    decreases |path|
  {
    if path != [] {
      match (path[0], d, c)
      case (Key(k), Obj(df), Obj(cf)) =>
        if k in df { ScalarsHaveAnOrigin(df[k], Lookup(cf, k), path[1..]); }
      case (Index(i), Arr(ds), Arr(cs)) =>
        if i < |ds| && i < |cs| && ds[i].Obj? && cs[i].Obj? {
          ScalarsHaveAnOrigin(ds[i], cs[i], path[1..]);
        }
      case _ =>
    }
  }

  // ---------------------------------------------------------------------------------------
  // The unchecked type assertions on list elements

  /** The merge of d into c meets no failing type assertion: wherever a default list element
      is a non-empty object, the element it is merged into is an object too. */
  predicate Safe(d: Json, c: Json)
    decreases d
  {
    match (d, c)
    case (Obj(df), Obj(cf)) => forall k | k in df :: Safe(df[k], Lookup(cf, k))
    case (Arr(ds), Arr(cs)) =>
      forall i | 0 <= i < |ds| && i < |cs| && ds[i].Obj? ::
        ds[i].fields == map[] || (cs[i].Obj? && Safe(ds[i], cs[i]))
    case _ => true
  }

  /** Two lists stand there, and an element that the merge would look into as an object is none. */
  predicate FailsAt(d: Json, c: Json, path: seq<Step>, i: nat) {
    && Followable(path + [Index(i)])
    && At(d, path).Arr? && At(c, path).Arr? && i < |At(d, path).items| && i < |At(c, path).items|
    && At(d, path).items[i].Obj? && At(d, path).items[i].fields != map[] && !At(c, path).items[i].Obj?
  }

  /** An assertion fails exactly where there is such a place. */
  lemma UnsafeExactly(d: Json, c: Json)
    ensures !Safe(d, c) <==> exists path, i :: FailsAt(d, c, path, i)
  {
    if !Safe(d, c) { var path, i := UnsafePlace(d, c); }
    if path, i :| FailsAt(d, c, path, i) { FailingIsUnsafe(d, c, path, i); }
  }

  lemma {:induction false} UnsafePlace(d: Json, c: Json) returns (path: seq<Step>, i: nat)
    requires !Safe(d, c)
    ensures FailsAt(d, c, path, i)
    decreases d
  {
    match (d, c)
    case (Obj(df), Obj(cf)) =>
      var k :| k in df && !Safe(df[k], Lookup(cf, k));
      var rest;
      rest, i := UnsafePlace(df[k], Lookup(cf, k));
      path := [Key(k)] + rest;
      assert path[1..] == rest && path + [Index(i)] == [Key(k)] + (rest + [Index(i)]);
      FollowableMore(Key(k), rest + [Index(i)]);
    case (Arr(ds), Arr(cs)) =>
      var j :| 0 <= j < |ds| && j < |cs| && ds[j].Obj? && ds[j].fields != map[] && !(cs[j].Obj? && Safe(ds[j], cs[j]));
      if cs[j].Obj? {
        var rest;
        rest, i := UnsafePlace(ds[j], cs[j]);
        path := [Index(j)] + rest;
        assert path[1..] == rest && path + [Index(i)] == [Index(j)] + (rest + [Index(i)]);
        assert rest != [];
        assert (rest + [Index(i)])[0] == rest[0];
        FollowableMore(Index(j), rest + [Index(i)]);
      } else {
        path, i := [], j;
      }
  }

  lemma FollowableMore(step: Step, path: seq<Step>)
    requires Followable(path) && (step.Index? && path != [] ==> path[0].Key?)
    ensures Followable([step] + path)
  {
  }

  lemma {:induction false} FailingIsUnsafe(d: Json, c: Json, path: seq<Step>, i: nat)
    requires FailsAt(d, c, path, i)
    ensures !Safe(d, c)
    decreases |path|
  {
    if path != [] {
      var more := path + [Index(i)];
      assert more[0] == path[0] && more[1..] == path[1..] + [Index(i)];
      match path[0]
      case Key(k) =>
        FailingIsUnsafe(Lookup(d.fields, k), Lookup(c.fields, k), path[1..], i);
      case Index(j) =>
        assert more[1].Key?;
        assert |path| > 1 && path[1] == more[1];
        FailingIsUnsafe(d.items[j], c.items[j], path[1..], i);
    }
  }

  /** Aligned list elements are objects together or not at all, at every depth. */
  predicate Compatible(x: Json, y: Json)
    decreases x
  {
    match (x, y)
    case (Obj(xf), Obj(yf)) => forall k | k in xf && k in yf :: Compatible(xf[k], yf[k])
    case (Arr(xs), Arr(ys)) =>
      forall i | 0 <= i < |xs| && i < |ys| ::
        (xs[i].Obj? <==> ys[i].Obj?) && (xs[i].Obj? ==> Compatible(xs[i], ys[i]))
    case _ => true
  }

  lemma {:induction false} SafeSelf(c: Json)
    ensures Safe(c, c)
    decreases c
  {
    match c
    case Obj(f) => forall k | k in f ensures Safe(f[k], f[k]) { SafeSelf(f[k]); }
    case Arr(s) => forall i | 0 <= i < |s| && s[i].Obj? ensures Safe(s[i], s[i]) { SafeSelf(s[i]); }
    case _ =>
  }

  /** Merging the same defaults again cannot fail where it went through once. */
  lemma {:induction false} SafeAgain(d: Json, c: Json)
    requires Safe(d, c)
    ensures Safe(d, MergeValue(d, c))
    decreases d
  {
    var m := MergeValue(d, c);
    match (d, c)
    case (_, Null) => SafeSelf(d);
    case (Obj(df), Obj(cf)) =>
      forall k | k in df ensures Safe(df[k], Lookup(m.fields, k)) {
        SafeAgain(df[k], Lookup(cf, k));
      }
    case (Arr(ds), Arr(cs)) =>
      forall i | 0 <= i < |ds| && i < |cs| && ds[i].Obj? && ds[i].fields != map[]
        ensures m.items[i].Obj? && Safe(ds[i], m.items[i])
      {
        SafeAgain(ds[i], cs[i]);
      }
    case _ =>
  }

  lemma {:induction false} CompatibleIsSymmetric(x: Json, y: Json)
    ensures Compatible(x, y) <==> Compatible(y, x)
    decreases x
  {
    match (x, y)
    case (Obj(xf), Obj(yf)) =>
      forall k | k in xf && k in yf ensures Compatible(xf[k], yf[k]) <==> Compatible(yf[k], xf[k]) {
        CompatibleIsSymmetric(xf[k], yf[k]);
      }
    case (Arr(xs), Arr(ys)) =>
      forall i | 0 <= i < |xs| && i < |ys| ensures Compatible(xs[i], ys[i]) <==> Compatible(ys[i], xs[i]) {
        CompatibleIsSymmetric(xs[i], ys[i]);
      }
    case _ =>
  }

  lemma {:induction false} CompatibleIsReflexive(x: Json)
    ensures Compatible(x, x)
    decreases x
  {
    match x
    case Obj(f) => forall k | k in f ensures Compatible(f[k], f[k]) { CompatibleIsReflexive(f[k]); }
    case Arr(s) => forall i | 0 <= i < |s| ensures Compatible(s[i], s[i]) { CompatibleIsReflexive(s[i]); }
    case _ =>
  }

  lemma {:induction false} CompatibleIsSafe(d: Json, c: Json)
    requires Compatible(d, c)
    ensures Safe(d, c)
    decreases d
  {
    match (d, c)
    case (Obj(df), Obj(cf)) =>
      forall k | k in df ensures Safe(df[k], Lookup(cf, k)) {
        if k in cf { CompatibleIsSafe(df[k], cf[k]); }
      }
    case (Arr(ds), Arr(cs)) =>
      forall i | 0 <= i < |ds| && i < |cs| && ds[i].Obj? ensures cs[i].Obj? && Safe(ds[i], cs[i]) {
        CompatibleIsSafe(ds[i], cs[i]);
      }
    case _ =>
  }

  /** Compatibility is closed under merging. */
  lemma {:induction false} CompatibleWithMerge(x: Json, y: Json, z: Json)
    requires Compatible(x, y) && Compatible(x, z) && Compatible(y, z)
    ensures Compatible(MergeValue(x, y), z)
    decreases x
  {
    match (x, y, z)
    case (Obj(xf), Obj(yf), Obj(zf)) =>
      var m := MergeValue(x, y).fields;
      forall k | k in m && k in zf ensures Compatible(m[k], zf[k]) {
        if k in xf && k in yf {
          CompatibleWithMerge(xf[k], yf[k], zf[k]);
        } else if k in yf {
          assert m[k] == yf[k];
        } else {
          assert m[k] == MergeValue(xf[k], Null) == xf[k];
        }
      }
    case (Arr(xs), Arr(ys), Arr(zs)) =>
      var m := MergeValue(x, y).items;
      forall i | 0 <= i < |m| && i < |zs| && m[i].Obj? ensures Compatible(m[i], zs[i]) {
        if i < |xs| && xs[i].Obj? && ys[i].Obj? { CompatibleWithMerge(xs[i], ys[i], zs[i]); }
      }
    case _ =>
  }
}
