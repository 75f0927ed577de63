/**
 The label protocol by which several OperandBindInfos share copies of a Secret or ConfigMap
 (controllers/operandbindinfo/operandbindinfo_controller.go, HasOtherManagers in
 controllers/util/util.go): copies take over the source's manager labels, and whoever cleans up
 last deletes.
 */
module BindInfo {

  const OPBI_TYPE_LABEL := "operator.ibm.com/managedBy-opbi"
  const ODLM_WATCHED_LABEL := "operator.ibm.com/watched-by-odlm"
  const BINDINFO := "/bindinfo"

  datatype Kind = Secret | ConfigMap | Route | Service

  /** What cleanupCopies lists; Routes and Services are only ever sources. */
  predicate Listable(kind: Kind) {
    kind.Secret? || kind.ConfigMap?
  }

  datatype ObjectKey = ObjectKey(kind: Kind, ns: string, name: string)

  type Labels = map<string, string>

  type Objects = map<ObjectKey, Labels>

  datatype Bind = Bind(ns: string, name: string)

  function LabelKey(b: Bind): string {
    b.ns + "." + b.name + BINDINFO
  }

  predicate HasSuffix(s: string, suffix: string) {
    |suffix| <= |s| && s[|s| - |suffix|..] == suffix
  }

  /** A label that marks a manager. */
  predicate Manager(labels: Labels, key: string) {
    key in labels && HasSuffix(key, BINDINFO) && labels[key] == "true"
  }

  predicate HasOtherManagers(labels: Labels, b: Bind) {
    exists key | key in labels :: Manager(labels, key) && key != LabelKey(b)
  }

  predicate Managed(labels: Labels, b: Bind) {
    LabelKey(b) in labels && labels[LabelKey(b)] == "true"
  }

  predicate OfType(labels: Labels, kind: string) {
    OPBI_TYPE_LABEL in labels && labels[OPBI_TYPE_LABEL] == kind
  }

  /** The labels a copy or its source gets. */
  function Marked(labels: Labels, b: Bind, source: Kind, role: string): Labels {
    var marked := labels[LabelKey(b) := "true"][OPBI_TYPE_LABEL := role];
    if Listable(source) then marked[ODLM_WATCHED_LABEL := "true"] else marked
  }

  /** Routes and Services are copied into ConfigMaps. */
  function CopyKind(source: Kind): Kind {
    if Listable(source) then source else ConfigMap
  }

  /** What cleaning up for b does to one object it is listed for: None when it is deleted. */
  datatype Cleaned = Deleted | Left(labels: Labels)

  function CleanLabels(labels: Labels, b: Bind): Cleaned {
    if OfType(labels, "copy") then
      if HasOtherManagers(labels, b) then Left(labels - {LabelKey(b)}) else Deleted
    else if OfType(labels, "original") then Left(labels - {LabelKey(b)})
    else Left(labels)
  }

  function CleanObject(objects: Objects, b: Bind, key: ObjectKey): Objects {
    if key !in objects then objects
    else
      match CleanLabels(objects[key], b)
      case Deleted => objects - {key}
      case Left(labels) => objects[key := labels]
  }

  function Listed(objects: Objects, b: Bind): set<ObjectKey> {
    set key | key in objects && Listable(key.kind) && Managed(objects[key], b)
  }

  /** Cleaning up every listed object of a set. */
  function CleanSome(objects: Objects, b: Bind, done: set<ObjectKey>): Objects {
    map key | key in objects && !(key in done && CleanLabels(objects[key], b).Deleted?) ::
      if key in done then CleanLabels(objects[key], b).labels else objects[key]
  }

  /** One after the other, in any order, is the same as all at once. */
  lemma CleanSomeStep(objects: Objects, b: Bind, done: set<ObjectKey>, key: ObjectKey)
    requires key !in done
    ensures CleanObject(CleanSome(objects, b, done), b, key) == CleanSome(objects, b, done + {key})
  {
    var now, next := CleanSome(objects, b, done), CleanSome(objects, b, done + {key});
    if key in objects {
      assert now[key] == objects[key];
      assert CleanObject(now, b, key).Keys == next.Keys;
    } else {
      assert now.Keys == next.Keys;
    }
  }

  // ---------------------------------------------------------------------------------------
  // The controller's two operations on the cluster

  /** The labels an object ends up with: b's, its role and, for Secrets and ConfigMaps, the watched label
      are set, and every other label is as it was read. */
  ghost predicate Carries(labels: Labels, read: Labels, b: Bind, source: Kind, role: string) {
    && LabelKey(b) in labels && labels[LabelKey(b)] == "true"
    && OPBI_TYPE_LABEL in labels && labels[OPBI_TYPE_LABEL] == role
    && (source == Secret || source == ConfigMap ==> ODLM_WATCHED_LABEL in labels && labels[ODLM_WATCHED_LABEL] == "true")
    && forall key | key != LabelKey(b) && key != OPBI_TYPE_LABEL && (key != ODLM_WATCHED_LABEL || source == Route || source == Service) ::
         (key in labels <==> key in read) && (key in read ==> labels[key] == read[key])
  }

  lemma MarkedCarries(labels: Labels, b: Bind, source: Kind, role: string)
    ensures Carries(Marked(labels, b, source, role), labels, b, source, role)
  {
    assert LabelKey(b)[|LabelKey(b)| - 1] == 'o';
    assert OPBI_TYPE_LABEL[|OPBI_TYPE_LABEL| - 1] == 'i' && ODLM_WATCHED_LABEL[|ODLM_WATCHED_LABEL| - 1] == 'm';
  }

  /** What the API server does during one copy: the source can be read if it is there, a copy can be made up
      from it, the copy is written, the source's labels are. */
  datatype CopyFate = CopyFate(readable: bool, complete: bool, copied: bool, labelled: bool)

  class Cluster {
    var objects: Objects

    /** copySecret, copyConfigmap, copyRoute and copyService; requeue asks for another try because the
        source is missing. The copy is written before its source is labelled, so a failure in between
        leaves the copy. Both keep every label the source was read with. */
    method Copy(kind: Kind, sourceName: string, targetName: string, sourceNs: string, targetNs: string, key: string,
                b: Bind, fate: CopyFate)
      returns (requeue: bool, ok: bool)
      modifies this
      ensures var name := if targetName != "" then targetName else b.name + "-" + sourceName;
        var idle := sourceName == "" || sourceNs == "" || targetNs == "" || (sourceName == targetName && sourceNs == targetNs)
          || (targetName == "" && !("public" <= key && '\n' !in key));
        var source, copy := ObjectKey(kind, sourceNs, sourceName), ObjectKey(CopyKind(kind), targetNs, name);
        var found := !idle && fate.readable && source in old(objects);
        var written := found && fate.complete && fate.copied;
        && (requeue <==> !idle && fate.readable && source !in old(objects))
        && (ok <==> idle || (fate.readable && (found ==> fate.complete && fate.copied && fate.labelled)))
        && (!idle ==> copy != source)
        && objects.Keys == old(objects).Keys + (if written then {copy} else {})
        && (forall k | k in old(objects) && !(written && (k == copy || (k == source && fate.labelled))) :: objects[k] == old(objects)[k])
        && (written ==> Carries(objects[copy], old(objects)[source], b, kind, "copy"))
        && (written && fate.labelled ==> Carries(objects[source], old(objects)[source], b, kind, "original"))
    {
      hide Carries, HasSuffix;
      if sourceName == "" || sourceNs == "" || targetNs == "" { return false, true; }
      if sourceName == targetName && sourceNs == targetNs { return false, true; }
      var target := targetName;
      if target == "" {
        if "public" <= key && '\n' !in key {
          target := b.name + "-" + sourceName;
        } else {
          return false, true;
        }
      }
      var source := ObjectKey(kind, sourceNs, sourceName);
      assert target == (if targetName != "" then targetName else b.name + "-" + sourceName);
      assert target == sourceName ==> targetNs != sourceNs by {
        if targetName == "" { assert |target| > |sourceName|; }
      }
      if !fate.readable { return false, false; }
      if source !in objects { return true, true; }
      ok := WriteBoth(source, ObjectKey(CopyKind(kind), targetNs, target), b, fate);
      return false, ok;
    }

    /** Makes up the copy from the source's labels and writes it, then the source. */
    method WriteBoth(source: ObjectKey, copy: ObjectKey, b: Bind, fate: CopyFate) returns (ok: bool)
      requires source in objects && copy != source
      modifies this
      ensures ok <==> fate.complete && fate.copied && fate.labelled
      ensures objects.Keys == old(objects).Keys + (if fate.complete && fate.copied then {copy} else {})
      ensures forall k | k in old(objects) && !(fate.complete && fate.copied && (k == copy || (k == source && fate.labelled))) ::
        objects[k] == old(objects)[k]
      ensures fate.complete && fate.copied ==> Carries(objects[copy], old(objects)[source], b, source.kind, "copy")
      ensures ok ==> Carries(objects[source], old(objects)[source], b, source.kind, "original")
    {
      hide Carries, HasSuffix;
      var read := objects[source];
      var labels := read;
      labels := labels[LabelKey(b) := "true"];
      labels := labels[OPBI_TYPE_LABEL := "copy"];
      if Listable(source.kind) { labels := labels[ODLM_WATCHED_LABEL := "true"]; }
      MarkedCarries(read, b, source.kind, "copy");
      MarkedCarries(read, b, source.kind, "original");
      if !fate.complete || !fate.copied { return false; }
      objects := objects[copy := labels];
      if !fate.labelled { return false; }
      objects := objects[source := Marked(read, b, source.kind, "original")];
      return true;
    }

    /** cleanupCopies: every listed object, Secrets first, each in any order, up to the first that the API
        server refuses to change. Succeeds exactly when the lists can be read and none is refused, and
        then all are cleaned. */
    method CleanupCopies(b: Bind, listed: bool, refused: set<ObjectKey>) returns (ok: bool, ghost done: set<ObjectKey>)
      modifies this
      ensures ok <==> listed && forall key | key in Listed(old(objects), b) && Touched(old(objects)[key]) :: key !in refused
      ensures done <= Listed(old(objects), b) && (ok ==> done == Listed(old(objects), b))
      ensures forall key | key in objects :: key in old(objects)
      ensures forall key | key in old(objects) :: var labels := old(objects)[key];
        if key in done && OfType(labels, "copy") && !HasOtherManagers(labels, b) then key !in objects
        else key in objects && objects[key] == if key in done && Touched(labels) then labels - {LabelKey(b)} else labels
      ensures forall key | key in done && Touched(old(objects)[key]) :: key !in refused
    {
      done := {};
      assert objects == CleanSome(objects, b, {});
      if !listed { return false, done; }
      var secrets := set key | key in objects && key.kind == Secret && Managed(objects[key], b);
      var configMaps := set key | key in objects && key.kind == ConfigMap && Managed(objects[key], b);
      assert secrets + configMaps == Listed(objects, b) && secrets !! configMaps;
      ok, done := CleanList(b, secrets, refused, old(objects), {});
      if ok { ok, done := CleanList(b, configMaps, refused, old(objects), done); }
    }

    method CleanList(b: Bind, list: set<ObjectKey>, refused: set<ObjectKey>, ghost start: Objects, ghost before: set<ObjectKey>)
      returns (ok: bool, ghost done: set<ObjectKey>)
      requires list !! before && objects == CleanSome(start, b, before) && list <= start.Keys
      modifies this
      ensures objects == CleanSome(start, b, done) && before <= done <= before + list
      ensures ok <==> forall key | key in list && Touched(start[key]) :: key !in refused
      ensures ok ==> done == before + list
      ensures forall key | key in done - before && Touched(start[key]) :: key !in refused
    {
      var todo := list;
      done := before;
      while todo != {}
        invariant todo <= list && done == before + (list - todo) && objects == CleanSome(start, b, done)
        invariant forall key | key in list - todo && Touched(start[key]) :: key !in refused
        decreases todo
      {
        var key :| key in todo;
        CleanSomeStep(start, b, done, key);
        var labels := objects[key];
        assert labels == start[key];
        if Touched(labels) && key in refused { return false, done; }
        if OfType(labels, "copy") {
          if HasOtherManagers(labels, b) {
            objects := objects[key := labels - {LabelKey(b)}];
          } else {
            objects := objects - {key};
          }
        } else if OfType(labels, "original") {
          objects := objects[key := labels - {LabelKey(b)}];
        }
        done := done + {key};
        todo := todo - {key};
      }
      ok := true;
    }
  }

  /** Cleaning up changes or deletes the object. */
  predicate Touched(labels: Labels) {
    OfType(labels, "copy") || OfType(labels, "original")
  }
}
