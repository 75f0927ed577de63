/**
 updateK8sResource (controllers/operandrequest/reconcile_operand.go): overwrite the
 configured sections when the config's hash is new, deep-merge when it is known, then put the
 annotations and labels on.
 */
module K8sResource {
  import opened Json
  import opened Merge

  const HASHED_DATA := "operator.ibm.com/operand-depoyment-lifecycle-manager.hashedData"

  /** What the API server guarantees of an object's metadata. */
  predicate WellFormed(res: map<string, Json>) {
    && "metadata" in res && res["metadata"].Obj?
    && StringMap(res["metadata"].fields, "annotations")
    && StringMap(res["metadata"].fields, "labels")
  }

  predicate StringMap(meta: map<string, Json>, field: string) {
    field in meta ==> meta[field].Obj? && forall k | k in meta[field].fields :: meta[field].fields[k].Str?
  }

  function Strings(meta: map<string, Json>, field: string): map<string, Json>
    requires StringMap(meta, field)
  {
    if field in meta then meta[field].fields else map[]
  }

  function ToStrings(entries: map<string, string>): map<string, Json> {
    map k | k in entries :: Str(entries[k])
  }

  /** A config's own metadata section, if it has one, is of that shape too. */
  predicate ConfigWellFormed(config: map<string, Json>) {
    "metadata" in config ==> WellFormed(config)
  }

  /** Sets entries of a string map in metadata and keeps the others. */
  function EnsureIn(meta: map<string, Json>, field: string, entries: map<string, string>): map<string, Json>
    requires StringMap(meta, field)
  {
    meta[field := Obj(Strings(meta, field) + ToStrings(entries))]
  }

  /** EnsureAnnotation and EnsureLabel. */
  function Ensure(res: map<string, Json>, field: string, entries: map<string, string>): (r: map<string, Json>)
    requires WellFormed(res) && field in {"annotations", "labels"}
    ensures WellFormed(r)
  {
    res["metadata" := Obj(EnsureIn(res["metadata"].fields, field, entries))]
  }

  /** Annotations, then labels. */
  function EnsureBoth(res: map<string, Json>, annotations: map<string, string>, labels: map<string, string>): (r: map<string, Json>)
    requires WellFormed(res)
    ensures WellFormed(r)
  {
    Ensure(Ensure(res, "annotations", annotations), "labels", labels)
  }

  /** The hash annotation of the object in the cluster, empty when there is none. */
  function ClusterHash(res: map<string, Json>): string
    requires WellFormed(res)
  {
    var annotations := Strings(res["metadata"].fields, "annotations");
    if HASHED_DATA in annotations then annotations[HASHED_DATA].s else ""
  }

  // ---------------------------------------------------------------------------------------
  // Merging metadata

  predicate AllStrings(f: map<string, Json>) {
    forall k | k in f :: f[k].Str?
  }

  /** String maps merge to their union, the changed one winning. */
  lemma StringMapsMerge(d: map<string, Json>, c: map<string, Json>)
    requires AllStrings(d) && AllStrings(c)
    ensures MergeValue(Obj(d), Obj(c)) == Obj(d + c) && Safe(Obj(d), Obj(c))
  {
    assert MergeValue(Obj(d), Obj(c)).fields == d + c;
  }

  lemma StringMapFieldMerge(d: map<string, Json>, c: map<string, Json>, field: string)
    requires StringMap(d, field) && StringMap(c, field)
    ensures var m := MergeValue(Obj(d), Obj(c)).fields;
      && StringMap(m, field) && Strings(m, field) == Strings(d, field) + Strings(c, field)
      && (field in d ==> field in m && Safe(d[field], Lookup(c, field)))
  {
    if field in d && field in c { StringMapsMerge(d[field].fields, c[field].fields); }
  }

  lemma MergeWellFormed(res: map<string, Json>, config: map<string, Json>)
    requires WellFormed(res) && ConfigWellFormed(config)
    ensures var m := MergeValue(Obj(res), Obj(config)).fields;
      && WellFormed(m) && m["metadata"] == MergeValue(res["metadata"], Lookup(config, "metadata"))
  {
    if "metadata" in config {
      StringMapFieldMerge(res["metadata"].fields, config["metadata"].fields, "annotations");
      StringMapFieldMerge(res["metadata"].fields, config["metadata"].fields, "labels");
    }
  }

  // ---------------------------------------------------------------------------------------
  // One update

  datatype Update = Stopped | Updated(res: map<string, Json>)

  /** The object before annotations and labels are put on: overwritten section by section when the
      hash is new, deep-merged when it is known. */
  function Base(res: map<string, Json>, config: map<string, Json>, hash: string): (x: map<string, Json>)
    requires WellFormed(res) && ConfigWellFormed(config)
    ensures WellFormed(x)
  {
    if ClusterHash(res) != hash then res + config
    else
      MergeWellFormed(res, config);
      MergeValue(Obj(res), Obj(config)).fields
  }

  function Written(res: map<string, Json>, hash: string, annotations: map<string, string>): map<string, string>
    requires WellFormed(res)
  {
    if ClusterHash(res) != hash then annotations[HASHED_DATA := hash] else annotations
  }

  /** One update; it stops when a type assertion inside the merge fails. */
  function Apply(res: map<string, Json>, config: map<string, Json>, hash: string,
                 annotations: map<string, string>, labels: map<string, string>): (r: Update)
    requires WellFormed(res) && ConfigWellFormed(config)
    ensures r.Updated? ==> WellFormed(r.res)
  {
    if ClusterHash(res) == hash && !Safe(Obj(res), Obj(config)) then Stopped
    else Updated(EnsureBoth(Base(res, config, hash), Written(res, hash, annotations), labels))
  }

  // ---------------------------------------------------------------------------------------
  // What an update leaves, section by section

  /** New hash: each section of the config stands as it is there, each other as it was. */
  predicate SectionsOverwritten(res: map<string, Json>, config: map<string, Json>, now: map<string, Json>) {
    && now.Keys == res.Keys + config.Keys
    && forall k | k in now && k != "metadata" :: now[k] == if k in config then config[k] else res[k]
  }

  /** Known hash: each section is the merge of what stood there and what the config says; nulls the config
      does not ask for are gone. */
  ghost predicate SectionsMerged(res: map<string, Json>, config: map<string, Json>, now: map<string, Json>) {
    && (forall k :: k in now <==> k in config || (k in res && res[k] != Null))
    && forall k | k in now && k != "metadata" :: now[k] == if k in res then MergeValue(res[k], Lookup(config, k)) else config[k]
  }

  /** The entries are set in a string map of the metadata and the other entries are kept. */
  predicate EntriesSet(was: map<string, Json>, now: map<string, Json>, entries: map<string, string>) {
    && now.Keys == was.Keys + entries.Keys
    && forall k | k in now :: now[k] == if k in entries then Str(entries[k]) else was[k]
  }

  /** The metadata: what either branch makes of it, with the annotations and labels set. */
  predicate MetadataWritten(base: map<string, Json>, now: Json, annotations: map<string, string>, labels: map<string, string>)
    requires StringMap(base, "annotations") && StringMap(base, "labels")
  {
    && now.Obj? && StringMap(now.fields, "annotations") && StringMap(now.fields, "labels")
    && now.fields.Keys == base.Keys + {"annotations", "labels"}
    && (forall k | k in base && k != "annotations" && k != "labels" :: now.fields[k] == base[k])
    && EntriesSet(Strings(base, "annotations"), Strings(now.fields, "annotations"), annotations)
    && EntriesSet(Strings(base, "labels"), Strings(now.fields, "labels"), labels)
  }

  /** All of it; a new hash is recorded over whatever the caller's annotations say. */
  ghost predicate UpdateLeaves(res: map<string, Json>, config: map<string, Json>, hash: string, annotations: map<string, string>,
                         labels: map<string, string>, now: map<string, Json>)
    requires WellFormed(res) && ConfigWellFormed(config)
  {
    if ClusterHash(res) != hash then
      && SectionsOverwritten(res, config, now) && "metadata" in now
      && MetadataWritten(if "metadata" in config then config["metadata"].fields else res["metadata"].fields, now["metadata"],
                         annotations[HASHED_DATA := hash], labels)
    else
      && SectionsMerged(res, config, now) && "metadata" in now
      && var base := MergeValue(res["metadata"], Lookup(config, "metadata"));
         base.Obj? && StringMap(base.fields, "annotations") && StringMap(base.fields, "labels")
         && MetadataWritten(base.fields, now["metadata"], annotations, labels)
  }

  /** An update stops exactly when the hash is known and the merge meets a failing assertion, and leaves that
      otherwise. */
  lemma UpdateIsExactly(res: map<string, Json>, config: map<string, Json>, hash: string,
                        annotations: map<string, string>, labels: map<string, string>)
    requires WellFormed(res) && ConfigWellFormed(config)
    ensures Apply(res, config, hash, annotations, labels).Updated? <==> ClusterHash(res) == hash ==> Safe(Obj(res), Obj(config))
    ensures Apply(res, config, hash, annotations, labels).Updated? ==>
      UpdateLeaves(res, config, hash, annotations, labels, Apply(res, config, hash, annotations, labels).res)
  {
    hide ClusterHash, Safe, EnsureBoth, MetaBoth, MetadataWritten, SectionsMerged, SectionsOverwritten, MergeValue;
    if Apply(res, config, hash, annotations, labels).Updated? {
      var x, written := Base(res, config, hash), Written(res, hash, annotations);
      MergeWellFormed(res, config);
      BothIsMetaBoth(x, written, labels);
      MetadataIsWritten(x["metadata"].fields, written, labels);
      var meta := Obj(MetaBoth(x["metadata"].fields, written, labels));
      if ClusterHash(res) != hash {
        OverwriteIs(res, config, meta);
      } else {
        MergeIs(res, config, meta);
      }
    }
  }

  lemma OverwriteIs(res: map<string, Json>, config: map<string, Json>, meta: Json)
    requires "metadata" in res
    ensures SectionsOverwritten(res, config, (res + config)["metadata" := meta])
  {
  }

  lemma MergeIs(res: map<string, Json>, config: map<string, Json>, meta: Json)
    requires "metadata" in res && res["metadata"] != Null
    ensures SectionsMerged(res, config, MergeValue(Obj(res), Obj(config)).fields["metadata" := meta])
  {
  }

  lemma MetadataIsWritten(base: map<string, Json>, annotations: map<string, string>, labels: map<string, string>)
    requires StringMap(base, "annotations") && StringMap(base, "labels")
    ensures MetadataWritten(base, Obj(MetaBoth(base, annotations, labels)), annotations, labels)
  {
    hide MetaBoth;
  }

  /** The merge of a document with what it was merged into meets no failing assertion. */
  lemma {:induction false} SafeOverOwnResult(x: Json, c: Json)
    ensures Safe(MergeValue(x, c), c)
    decreases x
  {
    var m := MergeValue(x, c);
    match (x, c)
    case (_, Null) =>
    case (Obj(xf), Obj(cf)) =>
      forall k | k in m.fields ensures Safe(m.fields[k], Lookup(cf, k)) {
        if k in xf { SafeOverOwnResult(xf[k], Lookup(cf, k)); } else { SafeSelf(cf[k]); }
      }
    case (Arr(xs), Arr(cs)) =>
      forall i | 0 <= i < |cs| && m.items[i].Obj? ensures cs[i].Obj? && Safe(m.items[i], cs[i]) {
        if i < |xs| && xs[i].Obj? && cs[i].Obj? { SafeOverOwnResult(xs[i], cs[i]); } else { SafeSelf(cs[i]); }
      }
    case _ => SafeSelf(c);
  }

  /** The object has every section of the config, and merging it in again would change none. */
  predicate CarriesConfig(res: map<string, Json>, config: map<string, Json>) {
    forall k | k in config :: Carries(res, config, k)
  }

  predicate Carries(res: map<string, Json>, config: map<string, Json>, k: string)
    requires k in config
  {
    k in res && MergeValue(res[k], config[k]) == res[k] && Safe(res[k], config[k])
  }

  predicate NoStrayNull(res: map<string, Json>, config: map<string, Json>) {
    forall k | k in res && res[k] == Null :: k in config
  }

  lemma BaseCarriesConfig(res: map<string, Json>, config: map<string, Json>, hash: string)
    requires WellFormed(res) && ConfigWellFormed(config)
    ensures CarriesConfig(Base(res, config, hash), config)
    ensures NoStrayNull(Base(res, config, hash), config) <==> ClusterHash(res) == hash || NoStrayNull(res, config)
  {
    var x := Base(res, config, hash);
    forall k | k in config ensures Carries(x, config, k) {
      if ClusterHash(res) == hash && k in res {
        MergeSameChangeTwice(res[k], config[k]);
        SafeOverOwnResult(res[k], config[k]);
      } else {
        MergeSelf(config[k]);
        SafeSelf(config[k]);
      }
    }
    if ClusterHash(res) == hash {
      forall k | k in x && x[k] == Null ensures k in config {
        if k in res { MergeIsNull(res[k], Lookup(config, k)); }
      }
    } else if NoStrayNull(x, config) {
      forall k | k in res && res[k] == Null ensures k in config {}
    }
  }

  /** After an update by either branch the object carries every section of the config but metadata. */
  lemma UpdateCarriesConfig(res: map<string, Json>, config: map<string, Json>, hash: string,
                            annotations: map<string, string>, labels: map<string, string>)
    requires WellFormed(res) && ConfigWellFormed(config)
    requires Apply(res, config, hash, annotations, labels).Updated?
    ensures forall k | k in config && k != "metadata" :: Carries(Apply(res, config, hash, annotations, labels).res, config, k)
  {
    BaseCarriesConfig(res, config, hash);
    BothTouchMetadata(Base(res, config, hash), Written(res, hash, annotations), labels);
  }

  lemma BothTouchMetadata(res: map<string, Json>, annotations: map<string, string>, labels: map<string, string>)
    requires WellFormed(res)
    ensures var r := EnsureBoth(res, annotations, labels);
      r.Keys == res.Keys && forall k | k in res && k != "metadata" :: r[k] == res[k]
  {
  }

  /** Entries that are already there can be set again without effect, and only those. */
  lemma EnsureAgain(res: map<string, Json>, field: string, entries: map<string, string>)
    requires WellFormed(res) && field in {"annotations", "labels"} && field in res["metadata"].fields
    ensures Ensure(res, field, entries) == res <==>
            forall k | k in entries :: Lookup(Strings(res["metadata"].fields, field), k) == Str(entries[k])
  {
    var meta := res["metadata"].fields;
    var was := Strings(meta, field);
    var now := was + ToStrings(entries);
    if forall k | k in entries :: Lookup(was, k) == Str(entries[k]) {
      assert now == was;
      assert meta[field := Obj(now)] == meta;
      assert Ensure(res, field, entries) == res;
    }
    if Ensure(res, field, entries) == res {
      assert Ensure(res, field, entries)["metadata"] == res["metadata"];
      assert meta[field := Obj(now)] == meta;
      assert now == was;
      forall k | k in entries ensures Lookup(was, k) == Str(entries[k]) {
        assert now[k] == Str(entries[k]);
      }
    }
  }

  // ---------------------------------------------------------------------------------------
  // The second update

  function MetaBoth(meta: map<string, Json>, annotations: map<string, string>, labels: map<string, string>): (r: map<string, Json>)
    requires StringMap(meta, "annotations") && StringMap(meta, "labels")
    ensures StringMap(r, "annotations") && StringMap(r, "labels")
    ensures r.Keys == meta.Keys + {"annotations", "labels"}
    ensures Strings(r, "annotations") == Strings(meta, "annotations") + ToStrings(annotations)
    ensures Strings(r, "labels") == Strings(meta, "labels") + ToStrings(labels)
    ensures forall k | k in meta && k != "annotations" && k != "labels" :: r[k] == meta[k]
  {
    EnsureIn(EnsureIn(meta, "annotations", annotations), "labels", labels)
  }

  lemma BothIsMetaBoth(res: map<string, Json>, annotations: map<string, string>, labels: map<string, string>)
    requires WellFormed(res)
    ensures EnsureBoth(res, annotations, labels) == res["metadata" := Obj(MetaBoth(res["metadata"].fields, annotations, labels))]
  {
    assert res["metadata" := Null]["metadata" := Obj(MetaBoth(res["metadata"].fields, annotations, labels))] ==
      res["metadata" := Obj(MetaBoth(res["metadata"].fields, annotations, labels))];
  }

  /** The annotations of the config's own metadata. */
  function ConfigAnnotations(config: map<string, Json>): map<string, Json>
    requires ConfigWellFormed(config)
  {
    if "metadata" in config then Strings(config["metadata"].fields, "annotations") else map[]
  }

  /** The merge changes no annotation that was written and is not written again. */
  predicate KeepsWritten(own: map<string, Json>, annotations: map<string, string>, written: map<string, string>) {
    forall k | k in own && k in written && k !in annotations :: own[k] == Str(written[k])
  }

  /** Merging in the metadata a section carries and writing again changes nothing exactly when the merge
      changes no annotation that is not written again. */
  lemma MetaAgain(xm: map<string, Json>, cm: map<string, Json>, annotations: map<string, string>,
                  written: map<string, string>, labels: map<string, string>)
    requires StringMap(xm, "annotations") && StringMap(xm, "labels") && StringMap(cm, "annotations") && StringMap(cm, "labels")
    requires MergeValue(Obj(xm), Obj(cm)) == Obj(xm)
    requires forall k | k in annotations :: k in written && written[k] == annotations[k]
    ensures var rm := MetaBoth(xm, written, labels); var mm := MergeValue(Obj(rm), Obj(cm)).fields;
      && StringMap(mm, "annotations") && StringMap(mm, "labels")
      && (MetaBoth(mm, annotations, labels) == rm <==> KeepsWritten(Strings(cm, "annotations"), annotations, written))
  {
    hide Safe, MetaBoth, KeepsWritten, ToStrings;
    var rm := MetaBoth(xm, written, labels);
    var mm := MergeValue(Obj(rm), Obj(cm)).fields;
    StringMapFieldMerge(xm, cm, "annotations");
    StringMapFieldMerge(xm, cm, "labels");
    StringMapFieldMerge(rm, cm, "annotations");
    StringMapFieldMerge(rm, cm, "labels");
    MetaElsewhere(xm, cm, written, labels);
    LabelsAgain(Strings(xm, "labels"), Strings(cm, "labels"), labels);
    AnnotationsAgain(Strings(xm, "annotations"), Strings(cm, "annotations"), annotations, written);
    MetaSame(mm, rm, annotations, labels);
  }

  /** Where everything but the annotations comes out as it was, they decide. */
  lemma MetaSame(mm: map<string, Json>, rm: map<string, Json>, annotations: map<string, string>, labels: map<string, string>)
    requires StringMap(mm, "annotations") && StringMap(mm, "labels") && StringMap(rm, "annotations") && StringMap(rm, "labels")
    requires mm.Keys == rm.Keys && "annotations" in rm && "labels" in rm
    requires forall k | k in rm && k != "annotations" && k != "labels" :: mm[k] == rm[k]
    requires Strings(mm, "labels") + ToStrings(labels) == Strings(rm, "labels")
    ensures MetaBoth(mm, annotations, labels) == rm <==> Strings(mm, "annotations") + ToStrings(annotations) == Strings(rm, "annotations")
  {
    hide ToStrings;
    var fin := MetaBoth(mm, annotations, labels);
    assert fin["labels"] == rm["labels"];
    if Strings(fin, "annotations") == Strings(rm, "annotations") {
      assert fin["annotations"] == rm["annotations"];
      assert fin == rm;
    }
  }

  lemma LabelsAgain(lx: map<string, Json>, lc: map<string, Json>, labels: map<string, string>)
    requires lx + lc == lx
    ensures lx + ToStrings(labels) + lc + ToStrings(labels) == lx + ToStrings(labels)
  {
    forall k | k in lc ensures k in lx && lx[k] == lc[k] { assert (lx + lc)[k] == lc[k]; }
  }

  lemma AnnotationsAgain(ax: map<string, Json>, ac: map<string, Json>, annotations: map<string, string>, written: map<string, string>)
    requires ax + ac == ax
    requires forall k | k in annotations :: k in written && written[k] == annotations[k]
    ensures ax + ToStrings(written) + ac + ToStrings(annotations) == ax + ToStrings(written) <==> KeepsWritten(ac, annotations, written)
  {
    forall k | k in ac ensures k in ax && ax[k] == ac[k] { assert (ax + ac)[k] == ac[k]; }
    var was, now := ax + ToStrings(written), ax + ToStrings(written) + ac + ToStrings(annotations);
    if now == was {
      forall k | k in ac && k in written && k !in annotations ensures ac[k] == Str(written[k]) {
        assert now[k] == ac[k] && was[k] == Str(written[k]);
      }
    }
    assert now.Keys == was.Keys;
    if KeepsWritten(ac, annotations, written) {
      forall k | k in was ensures now[k] == was[k] {
        if k !in annotations && k in ac && k in written { assert ac[k] == Str(written[k]); }
      }
    }
  }

  /** Outside annotations and labels the merge leaves the metadata as it is. */
  lemma MetaElsewhere(xm: map<string, Json>, cm: map<string, Json>, written: map<string, string>, labels: map<string, string>)
    requires StringMap(xm, "annotations") && StringMap(xm, "labels") && StringMap(cm, "annotations") && StringMap(cm, "labels")
    requires MergeValue(Obj(xm), Obj(cm)) == Obj(xm)
    ensures var rm := MetaBoth(xm, written, labels); var mm := MergeValue(Obj(rm), Obj(cm)).fields;
      mm.Keys == rm.Keys && forall k | k in rm && k != "annotations" && k != "labels" :: mm[k] == rm[k]
  {
    hide Safe, ToStrings, EnsureIn;
    var rm := MetaBoth(xm, written, labels);
    var m, mm := MergeValue(Obj(xm), Obj(cm)).fields, MergeValue(Obj(rm), Obj(cm)).fields;
    assert m == xm;
    forall k ensures k in mm <==> k in rm {
      if k in xm { assert k in m; }
    }
    forall k | k in rm && k != "annotations" && k != "labels" ensures mm[k] == rm[k] {
      assert k in xm && m[k] == xm[k];
    }
  }

  /** The hash the object ends up with when the update merges: the caller's, else the config's own
      metadata's, else what it was. */
  function MergedHash(config: map<string, Json>, hash: string, annotations: map<string, string>): string
    requires ConfigWellFormed(config)
  {
    if HASHED_DATA in annotations then annotations[HASHED_DATA]
    else if HASHED_DATA in ConfigAnnotations(config) then ConfigAnnotations(config)[HASHED_DATA].s
    else hash
  }

  /** The hash an update leaves. */
  lemma HashLeft(res: map<string, Json>, config: map<string, Json>, hash: string,
                 annotations: map<string, string>, labels: map<string, string>)
    requires WellFormed(res) && ConfigWellFormed(config)
    requires Apply(res, config, hash, annotations, labels).Updated?
    ensures ClusterHash(Apply(res, config, hash, annotations, labels).res) ==
      if ClusterHash(res) == hash then MergedHash(config, hash, annotations) else hash
  {
    var x, written := Base(res, config, hash), Written(res, hash, annotations);
    BothIsMetaBoth(x, written, labels);
    if ClusterHash(res) == hash {
      MergeWellFormed(res, config);
      if "metadata" in config {
        StringMapFieldMerge(res["metadata"].fields, config["metadata"].fields, "annotations");
      }
    }
    HashIn(x["metadata"].fields, written, labels);
  }

  lemma HashIn(meta: map<string, Json>, written: map<string, string>, labels: map<string, string>)
    requires StringMap(meta, "annotations") && StringMap(meta, "labels")
    ensures var a, b := Strings(meta, "annotations"), Strings(MetaBoth(meta, written, labels), "annotations");
      if HASHED_DATA in written then HASHED_DATA in b && b[HASHED_DATA] == Str(written[HASHED_DATA])
      else (HASHED_DATA in b <==> HASHED_DATA in a) && (HASHED_DATA in a ==> b[HASHED_DATA] == a[HASHED_DATA])
  {
  }

  /** With its hash known, an object written over one that carries the config is updated to itself
      exactly when it has no stray null and the merge changes no annotation not written again. */
  lemma MergedToItself(x: map<string, Json>, config: map<string, Json>, hash: string, annotations: map<string, string>,
                       written: map<string, string>, labels: map<string, string>)
    requires WellFormed(x) && ConfigWellFormed(config) && CarriesConfig(x, config)
    requires forall k | k in annotations :: k in written && written[k] == annotations[k]
    requires ClusterHash(EnsureBoth(x, written, labels)) == hash
    ensures var r := EnsureBoth(x, written, labels);
      Apply(r, config, hash, annotations, labels) == Updated(r) <==>
        NoStrayNull(x, config) && KeepsWritten(ConfigAnnotations(config), annotations, written)
  {
    hide KeepsWritten, ClusterHash, StringMap, MergeValue, Safe, MetaBoth, EnsureBoth, Carries;
    var r := EnsureBoth(x, written, labels);
    BothIsMetaBoth(x, written, labels);
    MergeOver(x, config, written, labels);
    var m := Base(r, config, hash);
    BothIsMetaBoth(m, annotations, labels);
    MetadataMerges(x, config, annotations, written, labels);
    var fin := EnsureBoth(m, annotations, labels);
    assert Apply(r, config, hash, annotations, labels) == Updated(fin);
    assert fin["metadata"] == r["metadata"] <==> KeepsWritten(ConfigAnnotations(config), annotations, written);
    if NoStrayNull(x, config) {
      assert m.Keys == r.Keys;
      assert fin == r <==> fin["metadata"] == r["metadata"];
    } else {
      var k :| k in x && x[k] == Null && k !in config;
      assert k in r && k !in fin;
    }
  }

  /** Merging the config in again goes through, drops stray nulls and changes metadata only. */
  lemma MergeOver(x: map<string, Json>, config: map<string, Json>, written: map<string, string>, labels: map<string, string>)
    requires WellFormed(x) && ConfigWellFormed(config) && CarriesConfig(x, config)
    ensures var r := EnsureBoth(x, written, labels); var m := MergeValue(Obj(r), Obj(config)).fields;
      && Safe(Obj(r), Obj(config)) && WellFormed(m)
      && (forall k :: k in m <==> k in x && (x[k] != Null || k in config))
      && (forall k | k in m && k != "metadata" :: m[k] == r[k])
      && m["metadata"] == MergeValue(r["metadata"], Lookup(config, "metadata"))
  {
    hide EnsureBoth;
    var r := EnsureBoth(x, written, labels);
    BothIsMetaBoth(x, written, labels);
    MergeWellFormed(r, config);
    SectionsStay(x, r, config);
    forall k | k in r ensures Safe(r[k], Lookup(config, k)) {
      if k in config {
        assert Carries(x, config, k);
        if k == "metadata" { MetadataSafe(x["metadata"].fields, config["metadata"].fields, written, labels); }
      }
    }
  }

  /** Of the sections, merging the config in again drops stray nulls and changes metadata only. */
  lemma SectionsStay(x: map<string, Json>, r: map<string, Json>, config: map<string, Json>)
    requires CarriesConfig(x, config) && r.Keys == x.Keys && "metadata" in x && x["metadata"] != Null && r["metadata"] != Null
    requires forall k | k in r && k != "metadata" :: r[k] == x[k]
    ensures var m := MergeValue(Obj(r), Obj(config)).fields;
      && (forall k :: k in m <==> k in x && (x[k] != Null || k in config))
      && (forall k | k in m && k != "metadata" :: m[k] == r[k])
  {
    hide Safe;
    var m := MergeValue(Obj(r), Obj(config)).fields;
    forall k ensures k in m <==> k in x && (x[k] != Null || k in config) {
      if k in config { assert Carries(x, config, k); }
    }
    forall k | k in m && k != "metadata" ensures m[k] == r[k] {
      assert k in r && m[k] == MergeValue(r[k], Lookup(config, k));
      if k in config { assert Carries(x, config, k); }
    }
  }

  lemma MetadataSafe(xm: map<string, Json>, cm: map<string, Json>, written: map<string, string>, labels: map<string, string>)
    requires StringMap(xm, "annotations") && StringMap(xm, "labels") && StringMap(cm, "annotations") && StringMap(cm, "labels")
    requires Safe(Obj(xm), Obj(cm))
    ensures Safe(Obj(MetaBoth(xm, written, labels)), Obj(cm))
  {
    var rm := MetaBoth(xm, written, labels);
    StringMapFieldMerge(rm, cm, "annotations");
    StringMapFieldMerge(rm, cm, "labels");
    forall k | k in rm ensures Safe(rm[k], Lookup(cm, k)) {
      if k != "annotations" && k != "labels" { assert rm[k] == xm[k]; }
    }
  }

  lemma MetadataMerges(x: map<string, Json>, config: map<string, Json>, annotations: map<string, string>,
                       written: map<string, string>, labels: map<string, string>)
    requires WellFormed(x) && ConfigWellFormed(config) && CarriesConfig(x, config)
    requires forall k | k in annotations :: k in written && written[k] == annotations[k]
    ensures var rm := MetaBoth(x["metadata"].fields, written, labels);
      var mm := MergeValue(Obj(rm), Lookup(config, "metadata"));
      && mm.Obj? && StringMap(mm.fields, "annotations") && StringMap(mm.fields, "labels")
      && (MetaBoth(mm.fields, annotations, labels) == rm <==> KeepsWritten(ConfigAnnotations(config), annotations, written))
  {
    hide MetaBoth, KeepsWritten, Safe, ToStrings, StringMap;
    var xm := x["metadata"].fields;
    if "metadata" in config {
      assert Carries(x, config, "metadata");
      MetaAgain(xm, config["metadata"].fields, annotations, written, labels);
    } else {
      assert MergeValue(Obj(MetaBoth(xm, written, labels)), Null) == Obj(MetaBoth(xm, written, labels));
      MetaUnmerged(xm, annotations, written, labels);
    }
  }

  /** Without metadata of the config's own the same can be written again. */
  lemma MetaUnmerged(xm: map<string, Json>, annotations: map<string, string>, written: map<string, string>, labels: map<string, string>)
    requires StringMap(xm, "annotations") && StringMap(xm, "labels")
    requires forall k | k in annotations :: k in written && written[k] == annotations[k]
    ensures var rm := MetaBoth(xm, written, labels);
      MetaBoth(rm, annotations, labels) == rm && KeepsWritten(map[], annotations, written)
  {
    hide MetaBoth, ToStrings;
    var rm := MetaBoth(xm, written, labels);
    var l, a := Strings(xm, "labels"), Strings(xm, "annotations");
    assert l + map[] == l && a + map[] == a;
    LabelsAgain(l, map[], labels);
    AnnotationsAgain(a, map[], annotations, written);
    assert l + ToStrings(labels) + map[] == l + ToStrings(labels) && a + ToStrings(written) + map[] == a + ToStrings(written);
    MetaSame(rm, rm, annotations, labels);
  }

  /** A second update with the same inputs changes nothing exactly when neither the caller's annotations
      nor else the config's own metadata set the hash to something else, and the object the first one
      found had the hash already or no top-level null the config does not ask for. */
  lemma SecondUpdateChangesNothing(res: map<string, Json>, config: map<string, Json>, hash: string,
                                   annotations: map<string, string>, labels: map<string, string>)
    requires WellFormed(res) && ConfigWellFormed(config)
    requires Apply(res, config, hash, annotations, labels).Updated?
    ensures var r := Apply(res, config, hash, annotations, labels).res;
      Apply(r, config, hash, annotations, labels) == Updated(r) <==>
        MergedHash(config, hash, annotations) == hash && (ClusterHash(res) == hash || NoStrayNull(res, config))
  {
    hide Base, EnsureBoth, NoStrayNull, CarriesConfig, ClusterHash;
    var r := Apply(res, config, hash, annotations, labels).res;
    var x, written := Base(res, config, hash), Written(res, hash, annotations);
    HashLeft(res, config, hash, annotations, labels);
    BaseCarriesConfig(res, config, hash);
    if ClusterHash(r) != hash {
      HashLeft(r, config, hash, annotations, labels);
    } else if HASHED_DATA in annotations && annotations[HASHED_DATA] != hash {
      if Apply(r, config, hash, annotations, labels).Updated? { HashLeft(r, config, hash, annotations, labels); }
    } else {
      MergedToItself(x, config, hash, annotations, written, labels);
      assert KeepsWritten(ConfigAnnotations(config), annotations, written) <==> MergedHash(config, hash, annotations) == hash by {
        OnlyTheHash(config, hash, annotations, ClusterHash(res) != hash);
      }
    }
  }

  /** What is written beyond the caller's annotations is the hash, if anything. */
  lemma OnlyTheHash(config: map<string, Json>, hash: string, annotations: map<string, string>, isNew: bool)
    requires ConfigWellFormed(config) && (HASHED_DATA in annotations ==> annotations[HASHED_DATA] == hash)
    requires !isNew ==> MergedHash(config, hash, annotations) == hash
    ensures KeepsWritten(ConfigAnnotations(config), annotations, if isNew then annotations[HASHED_DATA := hash] else annotations) <==>
      MergedHash(config, hash, annotations) == hash
  {
    var own := ConfigAnnotations(config);
    if isNew && HASHED_DATA in own && HASHED_DATA !in annotations {
      assert own[HASHED_DATA].Str?;
      assert own[HASHED_DATA] == Str(hash) <==> own[HASHED_DATA].s == hash;
    }
  }

  /** A top-level null in the object that the config says nothing of survives the first update by
      overwriting and is dropped by the second. */
  lemma StrayNullIsDropped(hash: string) returns (res: map<string, Json>, config: map<string, Json>)
    requires hash != ""
    ensures WellFormed(res) && ConfigWellFormed(config)
    ensures var first := Apply(res, config, hash, map[], map[]);
      first.Updated? && Apply(first.res, config, hash, map[], map[]) != first
  {
    res, config := map["metadata" := Obj(map[]), "status" := Null], map["data" := Obj(map[])];
    assert "status" in res && res["status"] == Null && "status" !in config;
    assert ClusterHash(res) == "" && !NoStrayNull(res, config);
    SecondUpdateChangesNothing(res, config, hash, map[], map[]);
  }

  /** The path leads to an annotation or label the update writes. */
  predicate WrittenAt(path: seq<Step>, annotations: map<string, string>, labels: map<string, string>) {
    && |path| >= 3 && path[0] == Key("metadata") && path[2].Key?
    && ((path[1] == Key("annotations") && path[2].key in annotations) || (path[1] == Key("labels") && path[2].key in labels))
  }

  /** Every non-null scalar of the config stands in the updated object at its own path, but for the
      annotations and labels the update writes itself. */
  lemma ConfigScalarsHold(res: map<string, Json>, config: map<string, Json>, hash: string,
                          annotations: map<string, string>, labels: map<string, string>, path: seq<Step>)
    requires WellFormed(res) && ConfigWellFormed(config)
    requires Apply(res, config, hash, annotations, labels).Updated?
    requires At(Obj(config), path) != Null && At(Obj(config), path).Scalar()
    requires !WrittenAt(path, Written(res, hash, annotations), labels)
    ensures At(Obj(Apply(res, config, hash, annotations, labels).res), path) == At(Obj(config), path)
  {
    hide Apply, Base, CarriesConfig;
    var x, written := Base(res, config, hash), Written(res, hash, annotations);
    assert Apply(res, config, hash, annotations, labels).res == EnsureBoth(x, written, labels) by { ApplyIs(res, config, hash, annotations, labels); }
    BaseCarriesConfig(res, config, hash);
    var k := path[0].key;
    CarriedAt(x, config, k);
    ChangedScalarSurvives(x[k], config[k], path[1..]);
    BothIsMetaBoth(x, written, labels);
    if k == "metadata" { ScalarInMetadata(x["metadata"].fields, written, labels, path[1..]); }
  }

  lemma ApplyIs(res: map<string, Json>, config: map<string, Json>, hash: string,
                annotations: map<string, string>, labels: map<string, string>)
    requires WellFormed(res) && ConfigWellFormed(config)
    requires Apply(res, config, hash, annotations, labels).Updated?
    ensures Apply(res, config, hash, annotations, labels).res == EnsureBoth(Base(res, config, hash), Written(res, hash, annotations), labels)
  {
  }

  lemma CarriedAt(res: map<string, Json>, config: map<string, Json>, k: string)
    requires CarriesConfig(res, config) && k in config
    ensures Carries(res, config, k)
  {
  }

  /** A scalar in the metadata stays where the update does not write. */
  lemma ScalarInMetadata(meta: map<string, Json>, annotations: map<string, string>, labels: map<string, string>, path: seq<Step>)
    requires StringMap(meta, "annotations") && StringMap(meta, "labels")
    requires At(Obj(meta), path) != Null && At(Obj(meta), path).Scalar()
    requires !WrittenAt([Key("metadata")] + path, annotations, labels)
    ensures At(Obj(MetaBoth(meta, annotations, labels)), path) == At(Obj(meta), path)
  {
    var rm := MetaBoth(meta, annotations, labels);
    assert path != [] && path[0].Key?;
    var full := [Key("metadata")] + path;
    assert full[1] == path[0];
    var k := path[0].key;
    if k == "annotations" || k == "labels" {
      assert |path| >= 2 && path[1].Key? && full[2] == path[1];
      assert rm[k].fields == Strings(rm, k) && meta[k].fields == Strings(meta, k);
      assert At(rm[k], path[1..]) == At(Lookup(rm[k].fields, path[1].key), path[1..][1..]);
    }
  }

  // ---------------------------------------------------------------------------------------
  // The update on the unstructured object it works on

  class Resource {
    var content: map<string, Json>

    /** The hash-differs branch: one section after the other, in any order. */
    method Overwrite(config: map<string, Json>)
      modifies this
      ensures content == old(content) + config
    {
      var todo := config.Keys;
      while todo != {}
        invariant todo <= config.Keys
        invariant content == old(content) + (map k | k in config && k !in todo :: config[k])
        decreases todo
      {
        var k :| k in todo;
        content := content[k := config[k]];
        todo := todo - {k};
      }
      assert (map k | k in config && k !in todo :: config[k]) == config;
    }

    method EnsureEntries(field: string, entries: map<string, string>)
      requires WellFormed(content) && field in {"annotations", "labels"}
      modifies this
      ensures content == Ensure(old(content), field, entries)
    {
      var meta := content["metadata"].fields;
      var current := Strings(meta, field);
      ghost var before := current;
      var todo := entries.Keys;
      while todo != {}
        invariant todo <= entries.Keys && content == old(content)
        invariant current == before + (map k | k in entries && k !in todo :: Str(entries[k]))
        decreases todo
      {
        var k :| k in todo;
        current := current[k := Str(entries[k])];
        todo := todo - {k};
      }
      assert (map k | k in entries && k !in todo :: Str(entries[k])) == ToStrings(entries);
      content := content["metadata" := Obj(meta[field := Obj(current)])];
    }

    method UpdateK8sResource(config: map<string, Json>, hash: string, annotations: map<string, string>,
                             labels: map<string, string>)
      returns (ok: bool)
      requires WellFormed(content) && ConfigWellFormed(config)
      modifies this
      ensures ok <==> (ClusterHash(old(content)) == hash ==> Safe(Obj(old(content)), Obj(config)))
      ensures ok ==> UpdateLeaves(old(content), config, hash, annotations, labels, content)
      ensures ok <==> Apply(old(content), config, hash, annotations, labels).Updated?
      ensures ok ==> Updated(content) == Apply(old(content), config, hash, annotations, labels)
      ensures !ok ==> content == old(content)
    {
      hide UpdateLeaves;
      UpdateIsExactly(content, config, hash, annotations, labels);
      var newAnnotations := annotations;
      if ClusterHash(content) != hash {
        Overwrite(config);
        newAnnotations := newAnnotations[HASHED_DATA := hash];
      } else {
        if !Safe(Obj(content), Obj(config)) { return false; }
        MergeWellFormed(content, config);
        content := MergeValue(Obj(content), Obj(config)).fields;
      }
      EnsureEntries("annotations", newAnnotations);
      EnsureEntries("labels", labels);
      ok := true;
    }
  }
}
