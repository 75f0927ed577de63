/**
 Whole runs of the copy protocol: OperandBindInfos come, copy and clean up, interleaved in any order.
 Each call to the API server is a step of its own. An update is refused when its object was written
 since it was read; a write of a copy and a delete are not.
 */
module CopiesProtocol {
  import opened Annotations
  import opened BindInfo

  /** What a bind info is at, one thing at a time. Copying remembers the labels its source was read
      with, Deleting the objects listed, with the labels they were listed with; outdated and stale
      say what was written since. */
  datatype Phase =
    | Idle
    | Copying(target: ObjectKey, read: Labels, written: bool, outdated: bool)
    | Deleting(todo: Objects, stale: set<ObjectKey>)

  /** created remembers which bind infos that are not being deleted have completed a copy of which target. */
  datatype State = State(objects: Objects, binds: map<Bind, Phase>, created: set<(Bind, ObjectKey)>)

  /** Each target is copied from one source, and no copy is copied on. */
  type Topology = t: map<ObjectKey, ObjectKey> | forall k | k in t :: Listable(k.kind) && t[k] !in t
    witness map[]

  datatype Event =
    | NewObject(key: ObjectKey, labels: Labels)
    | Touch(key: ObjectKey)
    | Join(b: Bind)
    | Read(b: Bind, target: ObjectKey)
    | WriteCopy(b: Bind)
    | WriteSource(b: Bind)
    | Abandon(b: Bind)
    | Begin(b: Bind)
    | Clean(b: Bind, key: ObjectKey)
    | Retry(b: Bind)
    | Finish(b: Bind)

  predicate Unlabelled(labels: Labels) {
    !OfType(labels, "copy") && forall key | key in labels :: !Manager(labels, key)
  }

  predicate IsCopying(s: State, b: Bind) {
    b in s.binds && s.binds[b].Copying?
  }

  predicate IsDeleting(s: State, b: Bind) {
    b in s.binds && s.binds[b].Deleting?
  }

  predicate IsLive(s: State, b: Bind) {
    b in s.binds && !s.binds[b].Deleting?
  }

  /** What cleaning up decides from the labels an object was listed with. */
  predicate Deletes(listed: Labels, b: Bind) {
    CleanLabels(listed, b).Deleted?
  }

  predicate Updates(listed: Labels, b: Bind) {
    CleanLabels(listed, b).Left? && Touched(listed)
  }

  function Copied(top: Topology, b: Bind, p: Phase): Labels
    requires p.Copying? && p.target in top
  {
    Marked(p.read, b, top[p.target].kind, "copy")
  }

  function Labelled(top: Topology, b: Bind, p: Phase): Labels
    requires p.Copying? && p.target in top
  {
    Marked(p.read, b, top[p.target].kind, "original")
  }

  /** A call that is refused or fails is no step: the one after it is Abandon or Retry. */
  predicate Enabled(top: Topology, s: State, e: Event) {
    match e
    case NewObject(key, labels) => key !in s.objects && Unlabelled(labels)
    case Touch(key) => key in s.objects
    case Join(b) => b !in s.binds && '.' !in b.ns
    case Read(b, target) => b in s.binds && s.binds[b] == Idle && target in top && top[target] in s.objects
    case WriteCopy(b) => IsCopying(s, b) && s.binds[b].target in top && !s.binds[b].written
    case WriteSource(b) =>
      IsCopying(s, b) && s.binds[b].target in top && s.binds[b].written && !s.binds[b].outdated && top[s.binds[b].target] in s.objects
    case Abandon(b) => IsCopying(s, b)
    case Begin(b) => b in s.binds && s.binds[b] == Idle
    case Clean(b, key) => IsDeleting(s, b) && key in s.binds[b].todo && CanClean(s, b, key)
    case Retry(b) => IsDeleting(s, b)
    case Finish(b) => IsDeleting(s, b) && s.binds[b].todo == map[]
  }

  /** A delete needs the object to be there, an update needs it to be as it was listed. */
  predicate CanClean(s: State, b: Bind, key: ObjectKey)
    requires IsDeleting(s, b) && key in s.binds[b].todo
  {
    var p := s.binds[b];
    && (Deletes(p.todo[key], b) ==> key in s.objects)
    && (Updates(p.todo[key], b) ==> key in s.objects && key !in p.stale)
  }

  /** What everybody remembers once key was written. */
  function Spoiled(top: Topology, p: Phase, key: ObjectKey): Phase {
    match p
    case Idle => p
    case Copying(target, _, _, outdated) => p.(outdated := outdated || (target in top && top[target] == key))
    case Deleting(_, stale) => p.(stale := stale + {key})
  }

  function Spoil(top: Topology, binds: map<Bind, Phase>, key: ObjectKey): map<Bind, Phase> {
    map b | b in binds :: Spoiled(top, binds[b], key)
  }

  /** Writing what is there already is no write. */
  function Put(top: Topology, s: State, key: ObjectKey, labels: Labels): State {
    if key in s.objects && s.objects[key] == labels then s
    else s.(objects := s.objects[key := labels], binds := Spoil(top, s.binds, key))
  }

  function Remove(top: Topology, s: State, key: ObjectKey): State {
    s.(objects := s.objects - {key}, binds := Spoil(top, s.binds, key))
  }

  function At(s: State, b: Bind, p: Phase): State {
    s.(binds := s.binds[b := p])
  }

  function ListedObjects(objects: Objects, b: Bind): Objects {
    map key | key in Listed(objects, b) :: objects[key]
  }

  /** One object of the list dealt with. */
  function CleanedUp(top: Topology, s: State, b: Bind, key: ObjectKey): State
    requires IsDeleting(s, b) && key in s.binds[b].todo
  {
    var listed := s.binds[b].todo[key];
    match CleanLabels(listed, b)
    case Deleted => Remove(top, s, key)
    case Left(labels) => if Touched(listed) then Put(top, s, key, labels) else s
  }

  function Next(top: Topology, s: State, e: Event): State
    requires Enabled(top, s, e)
  {
    match e
    case NewObject(key, labels) => Put(top, s, key, labels)
    case Touch(key) => s.(binds := Spoil(top, s.binds, key))
    case Join(b) => At(s, b, Idle)
    case Read(b, target) => At(s, b, Copying(target, s.objects[top[target]], false, false))
    case WriteCopy(b) =>
      var p := s.binds[b];
      At(Put(top, s, p.target, Copied(top, b, p)), b, p.(written := true))
    case WriteSource(b) =>
      var p := s.binds[b];
      At(Put(top, s, top[p.target], Labelled(top, b, p)), b, Idle).(created := s.created + {(b, p.target)})
    case Abandon(b) => At(s, b, Idle)
    case Begin(b) =>
      At(s, b, Deleting(ListedObjects(s.objects, b), {})).(created := set p | p in s.created && p.0 != b)
    case Clean(b, key) =>
      var p := s.binds[b];
      At(CleanedUp(top, s, b, key), b, p.(todo := p.todo - {key}))
    case Retry(b) => At(s, b, Deleting(ListedObjects(s.objects, b), {}))
    case Finish(b) => s.(binds := s.binds - {b})
  }

  // ---------------------------------------------------------------------------------------
  // Labels

  lemma LabelsDiffer(b: Bind, c: Bind)
    requires '.' !in b.ns && '.' !in c.ns
    ensures LabelKey(b) == LabelKey(c) <==> b == c
    ensures HasSuffix(LabelKey(b), BINDINFO)
    ensures LabelKey(b) != OPBI_TYPE_LABEL && LabelKey(b) != ODLM_WATCHED_LABEL
  {
    assert LabelKey(b)[|LabelKey(b)| - 1] == 'o';
    assert OPBI_TYPE_LABEL[|OPBI_TYPE_LABEL| - 1] == 'i' && ODLM_WATCHED_LABEL[|ODLM_WATCHED_LABEL| - 1] == 'm';
    if LabelKey(b) == LabelKey(c) {
      assert LabelKey(b) == b.ns + ['.'] + (b.name + BINDINFO) && LabelKey(c) == c.ns + ['.'] + (c.name + BINDINFO);
      SplitFirst(b.ns, b.name + BINDINFO, c.ns, c.name + BINDINFO, '.');
      assert (b.name + BINDINFO)[..|b.name|] == b.name;
    }
  }

  /** Marking adds one manager and keeps the others. */
  lemma MarkedManagers(labels: Labels, b: Bind, source: Kind, role: string)
    requires '.' !in b.ns
    ensures var marked := Marked(labels, b, source, role);
      && OfType(marked, role) && (forall r | OfType(marked, r) :: r == role)
      && forall key :: Manager(marked, key) <==> key == LabelKey(b) || Manager(labels, key)
  {
    LabelsDiffer(b, b);
    assert OPBI_TYPE_LABEL[|OPBI_TYPE_LABEL| - 1] == 'l' || OPBI_TYPE_LABEL[|OPBI_TYPE_LABEL| - 1] == 'i';
    assert !HasSuffix(OPBI_TYPE_LABEL, BINDINFO) && !HasSuffix(ODLM_WATCHED_LABEL, BINDINFO);
  }

  lemma ManagedIsManager(labels: Labels, b: Bind)
    requires '.' !in b.ns
    ensures Managed(labels, b) <==> Manager(labels, LabelKey(b))
  {
    LabelsDiffer(b, b);
  }

  /** The same for bind infos. */
  lemma MarkedManaged(labels: Labels, b: Bind, source: Kind, role: string, c: Bind)
    requires '.' !in b.ns && '.' !in c.ns
    ensures Managed(Marked(labels, b, source, role), c) <==> c == b || Managed(labels, c)
  {
    hide Marked, Managed, HasSuffix, LabelKey;
    MarkedManagers(labels, b, source, role);
    ManagedIsManager(labels, c);
    ManagedIsManager(Marked(labels, b, source, role), c);
    LabelsDiffer(b, c);
  }

  /** Cleaning for one bind info neither deletes what another manages nor takes its label. */
  lemma CleanKeepsOthers(labels: Labels, b: Bind, c: Bind)
    requires '.' !in b.ns && '.' !in c.ns && b != c && Managed(labels, c)
    ensures CleanLabels(labels, b).Left? && Managed(CleanLabels(labels, b).labels, c)
  {
    LabelsDiffer(b, c);
    LabelsDiffer(c, c);
    assert Manager(labels, LabelKey(c));
  }

  /** Cleaning leaves the type label as it is. */
  lemma CleanKeepsType(labels: Labels, b: Bind, role: string)
    requires '.' !in b.ns && CleanLabels(labels, b).Left?
    ensures OfType(CleanLabels(labels, b).labels, role) <==> OfType(labels, role)
  {
    LabelsDiffer(b, b);
  }

  // ---------------------------------------------------------------------------------------
  // What everybody remembers

  /** What is not stale is as it was read or listed; only copies are listed as copies. */
  ghost predicate Remembers(top: Topology, objects: Objects, b: Bind, p: Phase) {
    match p
    case Idle => true
    case Copying(target, read, _, outdated) =>
      target in top && (!outdated ==> top[target] in objects && objects[top[target]] == read)
    case Deleting(todo, stale) =>
      forall k | k in todo ::
        && Listable(k.kind) && Managed(todo[k], b) && (OfType(todo[k], "copy") ==> k in top)
        && (k !in stale ==> k in objects && objects[k] == todo[k])
  }

  ghost predicate WellFormed(top: Topology, s: State) {
    && (forall b | b in s.binds :: '.' !in b.ns && Remembers(top, s.objects, b, s.binds[b]))
    && (forall k | k in s.objects && k !in top :: !OfType(s.objects[k], "copy"))
    && (forall b, t | (b, t) in s.created :: IsLive(s, b) && t in top)
  }

  lemma PutIsWellFormed(top: Topology, s: State, key: ObjectKey, labels: Labels)
    requires WellFormed(top, s) && (key in top || !OfType(labels, "copy"))
    ensures WellFormed(top, Put(top, s, key, labels))
  {
    hide OfType, Managed, Listable;
    var r := Put(top, s, key, labels);
    forall b | b in r.binds ensures Remembers(top, r.objects, b, r.binds[b]) {
      assert Remembers(top, s.objects, b, s.binds[b]);
    }
  }

  lemma RemoveIsWellFormed(top: Topology, s: State, key: ObjectKey)
    requires WellFormed(top, s) && key in top
    ensures WellFormed(top, Remove(top, s, key))
  {
    hide OfType, Managed, Listable;
    var r := Remove(top, s, key);
    forall b | b in r.binds ensures Remembers(top, r.objects, b, r.binds[b]) {
      assert Remembers(top, s.objects, b, s.binds[b]);
    }
  }

  lemma AtIsWellFormed(top: Topology, s: State, b: Bind, p: Phase)
    requires WellFormed(top, s) && '.' !in b.ns && Remembers(top, s.objects, b, p)
    requires p.Deleting? ==> forall t :: (b, t) !in s.created
    ensures WellFormed(top, At(s, b, p))
  {
    hide OfType, Remembers;
  }

  lemma ListIsRemembered(top: Topology, s: State, b: Bind)
    requires WellFormed(top, s)
    ensures Remembers(top, s.objects, b, Deleting(ListedObjects(s.objects, b), {}))
  {
    hide Managed, OfType;
  }

  lemma CleanedUpIsWellFormed(top: Topology, s: State, b: Bind, key: ObjectKey)
    requires WellFormed(top, s) && Enabled(top, s, Clean(b, key))
    ensures WellFormed(top, CleanedUp(top, s, b, key))
    ensures forall k | k in s.objects && k !in top :: k in CleanedUp(top, s, b, key).objects
  {
    hide Managed, OfType, HasOtherManagers;
    var listed := s.binds[b].todo[key];
    match CleanLabels(listed, b)
    case Deleted =>
      RemoveIsWellFormed(top, s, key);
    case Left(labels) =>
      if Touched(listed) {
        CleanKeepsType(listed, b, "copy");
        PutIsWellFormed(top, s, key, labels);
      }
  }

  lemma CleanedUpBinds(top: Topology, s: State, b: Bind, key: ObjectKey)
    requires IsDeleting(s, b) && key in s.binds[b].todo
    ensures var r, p := CleanedUp(top, s, b, key), s.binds[b];
      r.created == s.created && b in r.binds && (r.binds[b] == p || r.binds[b] == p.(stale := p.stale + {key}))
  {
    hide CleanLabels, Touched;
  }

  lemma CleanIsWellFormed(top: Topology, s: State, b: Bind, key: ObjectKey)
    requires WellFormed(top, s) && Enabled(top, s, Clean(b, key))
    ensures WellFormed(top, Next(top, s, Clean(b, key)))
    ensures forall k | k in s.objects && k !in top :: k in Next(top, s, Clean(b, key)).objects
  {
    var p, r := s.binds[b], CleanedUp(top, s, b, key);
    CleanedUpIsWellFormed(top, s, b, key);
    CleanedUpBinds(top, s, b, key);
    hide Managed, OfType, CleanedUp, CanClean, Listable;
    assert Remembers(top, r.objects, b, p.(todo := p.todo - {key})) by { assert Remembers(top, r.objects, b, r.binds[b]); }
    assert forall t :: (b, t) !in s.created;
    AtIsWellFormed(top, r, b, p.(todo := p.todo - {key}));
  }

  lemma WriteIsWellFormed(top: Topology, s: State, e: Event)
    requires WellFormed(top, s) && Enabled(top, s, e) && (e.WriteCopy? || e.WriteSource?)
    ensures WellFormed(top, Next(top, s, e))
    ensures s.objects.Keys <= Next(top, s, e).objects.Keys
  {
    hide OfType, Managed, Marked;
    var b, p := e.b, s.binds[e.b];
    assert Remembers(top, s.objects, b, p);
    MarkedManagers(p.read, b, top[p.target].kind, "original");
    if e.WriteCopy? {
      var r := Put(top, s, p.target, Copied(top, b, p));
      PutIsWellFormed(top, s, p.target, Copied(top, b, p));
      AtIsWellFormed(top, r, b, p.(written := true));
    } else {
      var r := Put(top, s, top[p.target], Labelled(top, b, p));
      PutIsWellFormed(top, s, top[p.target], Labelled(top, b, p));
      AtIsWellFormed(top, r, b, Idle);
    }
  }

  /** Every step keeps that, and no original is ever deleted. */
  lemma StepIsWellFormed(top: Topology, s: State, e: Event)
    requires WellFormed(top, s) && Enabled(top, s, e)
    ensures WellFormed(top, Next(top, s, e))
    ensures forall k | k in s.objects && k !in top :: k in Next(top, s, e).objects
  {
    hide OfType, Managed, Manager, ListedObjects, Copied, Labelled, CleanedUp, Spoiled;
    match e
    case NewObject(key, labels) => assert !OfType(labels, "copy"); PutIsWellFormed(top, s, key, labels);
    case Touch(key) => TouchIsWellFormed(top, s, key);
    case Join(b) => AtIsWellFormed(top, s, b, Idle);
    case Read(b, target) => AtIsWellFormed(top, s, b, Copying(target, s.objects[top[target]], false, false));
    case WriteCopy(b) => WriteIsWellFormed(top, s, e);
    case WriteSource(b) => WriteIsWellFormed(top, s, e);
    case Abandon(b) => AtIsWellFormed(top, s, b, Idle);
    case Begin(b) =>
      ListIsRemembered(top, s, b);
      AtIsWellFormed(top, s.(created := set p | p in s.created && p.0 != b), b, Deleting(ListedObjects(s.objects, b), {}));
    case Clean(b, key) => CleanIsWellFormed(top, s, b, key);
    case Retry(b) =>
      ListIsRemembered(top, s, b);
      AtIsWellFormed(top, s, b, Deleting(ListedObjects(s.objects, b), {}));
    case Finish(b) =>
  }

  lemma TouchIsWellFormed(top: Topology, s: State, key: ObjectKey)
    requires WellFormed(top, s)
    ensures WellFormed(top, s.(binds := Spoil(top, s.binds, key)))
  {
    hide OfType, Managed, Listable;
    var r := s.(binds := Spoil(top, s.binds, key));
    forall b | b in r.binds ensures Remembers(top, r.objects, b, r.binds[b]) {
      assert Remembers(top, s.objects, b, s.binds[b]);
    }
  }

  // ---------------------------------------------------------------------------------------
  // Safety

  /** c relies on the copy: it has completed it, or has written it just now. */
  predicate Relies(s: State, c: Bind, target: ObjectKey) {
    (c, target) in s.created || (IsCopying(s, c) && s.binds[c].target == target && s.binds[c].written)
  }

  /** Everybody who relies on a copy is among its managers, so it is there; those who completed it are
      among its source's managers as well. */
  ghost predicate Safe(top: Topology, s: State) {
    && (forall c, t | Relies(s, c, t) :: t in s.objects && Managed(s.objects[t], c))
    && (forall c, t | (c, t) in s.created :: t in top && top[t] in s.objects && Managed(s.objects[top[t]], c))
  }

  /** No delete hits a copy somebody relies on, no write of a copy drops somebody who relies on it. */
  ghost predicate Timely(s: State, e: Event) {
    match e
    case Clean(b, key) =>
      IsDeleting(s, b) && key in s.binds[b].todo && Deletes(s.binds[b].todo[key], b) ==> forall c: Bind :: !Relies(s, c, key)
    case WriteCopy(b) =>
      IsCopying(s, b) ==> forall c: Bind | c != b && Relies(s, c, s.binds[b].target) :: Managed(s.binds[b].read, c)
    case _ => true
  }

  lemma ReliesIsLive(top: Topology, s: State, c: Bind, target: ObjectKey)
    requires WellFormed(top, s) && Relies(s, c, target)
    ensures IsLive(s, c) && '.' !in c.ns && target in top
  {
    if IsCopying(s, c) { assert Remembers(top, s.objects, c, s.binds[c]); }
  }

  /** r's objects carry all the managers of s's, and nobody new relies on anything. */
  lemma StaysSafe(top: Topology, s: State, r: State)
    requires Safe(top, s) && r.created <= s.created
    requires forall c, t | Relies(r, c, t) :: Relies(s, c, t)
    requires forall k | k in s.objects :: k in r.objects && r.objects[k] == s.objects[k]
    ensures Safe(top, r)
  {
    hide Relies, Managed;
  }

  lemma CopyIsSafeExactly(top: Topology, s: State, b: Bind)
    requires WellFormed(top, s) && Safe(top, s) && Enabled(top, s, WriteCopy(b))
    ensures Safe(top, Next(top, s, WriteCopy(b))) <==> Timely(s, WriteCopy(b))
  {
    hide Managed, Marked, Remembers;
    var p, r := s.binds[b], Next(top, s, WriteCopy(b));
    var copy := Copied(top, b, p);
    assert r.objects == s.objects[p.target := copy];
    assert forall c, t :: Relies(r, c, t) <==> Relies(s, c, t) || (c == b && t == p.target);
    forall c | c == b || Relies(s, c, p.target) ensures Managed(copy, c) <==> c == b || Managed(p.read, c) {
      if c != b { ReliesIsLive(top, s, c, p.target); }
      MarkedManaged(p.read, b, top[p.target].kind, "copy", c);
    }
    hide Relies;
    if Safe(top, r) {
      forall c: Bind | c != b && Relies(s, c, p.target) ensures Managed(p.read, c) {
        assert Relies(r, c, p.target);
      }
    }
  }

  lemma SourceIsSafe(top: Topology, s: State, b: Bind)
    requires WellFormed(top, s) && Safe(top, s) && Enabled(top, s, WriteSource(b))
    ensures Safe(top, Next(top, s, WriteSource(b)))
  {
    hide Managed, Marked;
    var p, r := s.binds[b], Next(top, s, WriteSource(b));
    assert Remembers(top, s.objects, b, p);
    assert r.objects == s.objects[top[p.target] := Labelled(top, b, p)];
    assert Relies(s, b, p.target);
    assert forall c, t | Relies(r, c, t) :: Relies(s, c, t);
    hide Remembers;
    LabelledIsSafe(top, s, r, b, p);
  }

  lemma LabelledIsSafe(top: Topology, s: State, r: State, b: Bind, p: Phase)
    requires WellFormed(top, s) && Safe(top, s) && p.Copying? && p.target in top && '.' !in b.ns && Relies(s, b, p.target)
    requires top[p.target] in s.objects && s.objects[top[p.target]] == p.read
    requires r.objects == s.objects[top[p.target] := Labelled(top, b, p)] && r.created == s.created + {(b, p.target)}
    requires forall c, t | Relies(r, c, t) :: Relies(s, c, t)
    ensures Safe(top, r)
  {
    hide Managed, Marked, Relies, Remembers;
    forall c, t | Relies(s, c, t) ensures IsLive(s, c) && '.' !in c.ns && t in top { ReliesIsLive(top, s, c, t); }
    forall c, t | (c, t) in r.created ensures Relies(s, c, t) && Managed(r.objects[top[t]], c) {
      if (c, t) in s.created { CreatedRelies(s, c, t); }
      MarkedManaged(p.read, b, top[p.target].kind, "original", c);
    }
  }

  lemma DeleteIsSafeExactly(top: Topology, s: State, r: State, key: ObjectKey)
    requires Safe(top, s) && key in top && r.objects == s.objects - {key} && r.created == s.created
    requires forall c, t :: Relies(r, c, t) <==> Relies(s, c, t)
    ensures Safe(top, r) <==> forall c: Bind :: !Relies(s, c, key)
  {
    hide Managed, Relies;
    if c :| Relies(s, c, key) { assert Relies(r, c, key); }
  }

  lemma UpdateIsSafe(top: Topology, s: State, r: State, b: Bind, key: ObjectKey)
    requires WellFormed(top, s) && Safe(top, s) && IsDeleting(s, b) && r.created == s.created
    requires key in s.objects && CleanLabels(s.objects[key], b).Left?
    requires r.objects == s.objects[key := CleanLabels(s.objects[key], b).labels]
    requires forall c, t :: Relies(r, c, t) <==> Relies(s, c, t)
    ensures Safe(top, r)
  {
    hide Managed, CleanLabels, Relies, Remembers;
    forall c, t | Relies(s, c, t) ensures IsLive(s, c) && '.' !in c.ns { ReliesIsLive(top, s, c, t); }
    forall c, t | (c, t) in s.created ensures Relies(s, c, t) { CreatedRelies(s, c, t); }
    forall c | IsLive(s, c) && '.' !in c.ns && Managed(s.objects[key], c) ensures Managed(r.objects[key], c) {
      CleanKeepsOthers(s.objects[key], b, c);
    }
  }

  lemma CreatedRelies(s: State, c: Bind, target: ObjectKey)
    requires (c, target) in s.created
    ensures Relies(s, c, target)
  {
  }

  lemma CleanIsSafeExactly(top: Topology, s: State, b: Bind, key: ObjectKey)
    requires WellFormed(top, s) && Safe(top, s) && Enabled(top, s, Clean(b, key))
    ensures Safe(top, Next(top, s, Clean(b, key))) <==> Timely(s, Clean(b, key))
  {
    hide Managed, Touched, CleanLabels, Safe;
    var r := Next(top, s, Clean(b, key));
    var listed := s.binds[b].todo[key];
    assert Remembers(top, s.objects, b, s.binds[b]);
    assert forall c, t :: Relies(r, c, t) <==> Relies(s, c, t);
    if Deletes(listed, b) {
      DeletedIsCopy(listed, b);
      DeleteIsSafeExactly(top, s, r, key);
    } else if Touched(listed) {
      UpdateIsSafe(top, s, r, b, key);
    } else {
      StaysSafe(top, s, r);
    }
  }

  lemma DeletedIsCopy(listed: Labels, b: Bind)
    requires Deletes(listed, b)
    ensures OfType(listed, "copy")
  {
  }

  /** A step keeps the state safe exactly when it is timely. */
  lemma StepIsSafeExactly(top: Topology, s: State, e: Event)
    requires WellFormed(top, s) && Safe(top, s) && Enabled(top, s, e)
    ensures Safe(top, Next(top, s, e)) <==> Timely(s, e)
  {
    hide Safe, WellFormed, Managed, Copied, Labelled, CleanedUp, ListedObjects;
    match e
    case WriteCopy(b) => CopyIsSafeExactly(top, s, b);
    case WriteSource(b) => SourceIsSafe(top, s, b);
    case Clean(b, key) => CleanIsSafeExactly(top, s, b, key);
    case _ => StaysSafe(top, s, Next(top, s, e));
  }

  ghost predicate IsRun(top: Topology, states: seq<State>, events: seq<Event>) {
    && |states| == |events| + 1
    && forall i | 0 <= i < |events| :: Enabled(top, states[i], events[i]) && states[i + 1] == Next(top, states[i], events[i])
  }

  ghost predicate Initial(s: State) {
    s.binds == map[] && s.created == {} && forall k | k in s.objects :: Unlabelled(s.objects[k])
  }

  /** However the calls interleave: what everybody remembers is right, and no source or other original is
      ever deleted. */
  lemma {:induction false} OriginalsStay(top: Topology, states: seq<State>, events: seq<Event>)
    requires IsRun(top, states, events) && WellFormed(top, states[0])
    ensures forall i | 0 <= i < |states| :: WellFormed(top, states[i])
    ensures forall i, k | 0 <= i < |states| && k in states[0].objects && k !in top :: k in states[i].objects
    decreases |events|
  {
    hide WellFormed, Enabled, Next;
    if events != [] {
      StepIsWellFormed(top, states[0], events[0]);
      var rest := states[1..];
      assert IsRun(top, rest, events[1..]);
      OriginalsStay(top, rest, events[1..]);
      forall i | 1 <= i < |states|
        ensures WellFormed(top, states[i])
        ensures forall k | k in states[0].objects && k !in top :: k in states[i].objects
      {
        assert states[i] == rest[i - 1];
      }
    }
  }

  /** A whole run is safe exactly when all its steps are timely: then everybody who completed a copy
      and is not being deleted is among its managers, so the copy is there. */
  lemma {:induction false} RunIsSafeExactly(top: Topology, states: seq<State>, events: seq<Event>)
    requires IsRun(top, states, events) && WellFormed(top, states[0]) && Safe(top, states[0])
    ensures (forall i | 0 <= i < |states| :: Safe(top, states[i])) <==> (forall i | 0 <= i < |events| :: Timely(states[i], events[i]))
    decreases |events|
  {
    hide WellFormed, Safe, Timely, Enabled, Next;
    if events != [] {
      StepIsWellFormed(top, states[0], events[0]);
      StepIsSafeExactly(top, states[0], events[0]);
      var rest := states[1..];
      assert IsRun(top, rest, events[1..]);
      if Safe(top, states[1]) { RunIsSafeExactly(top, rest, events[1..]); }
      assert forall i | 1 <= i < |states| :: states[i] == rest[i - 1];
      assert forall i | 0 <= i < |rest| :: rest[i] == states[i + 1];
      assert forall i | 0 <= i < |events| - 1 :: events[1..][i] == events[i + 1];
    }
  }

  lemma InitialIsSafe(top: Topology, s: State)
    requires Initial(s)
    ensures WellFormed(top, s) && Safe(top, s)
  {
  }

  /** Acting on what is not stale, while nobody else is halfway through the same copy. */
  ghost predicate Fresh(s: State, e: Event) {
    match e
    case Clean(b, key) => IsDeleting(s, b) ==> key !in s.binds[b].stale
    case WriteCopy(b) =>
      IsCopying(s, b) ==>
        && !s.binds[b].outdated
        && forall c: Bind | c != b && IsCopying(s, c) && s.binds[c].target == s.binds[b].target :: !s.binds[c].written
    case _ => true
  }

  lemma FreshIsTimely(top: Topology, s: State, e: Event)
    requires WellFormed(top, s) && Safe(top, s) && Enabled(top, s, e) && Fresh(s, e)
    ensures Timely(s, e)
  {
    hide Managed, OfType, HasOtherManagers;
    match e
    case Clean(b, key) =>
      assert Remembers(top, s.objects, b, s.binds[b]);
      var listed := s.binds[b].todo[key];
      if c :| Deletes(listed, b) && Relies(s, c, key) {
        ReliesIsLive(top, s, c, key);
        CleanKeepsOthers(listed, b, c);
        assert false;
      }
    case WriteCopy(b) =>
      assert Remembers(top, s.objects, b, s.binds[b]);
    case _ =>
  }

  /** If nobody acts on what was overwritten since, and no two copies of one target overlap, every run is
      safe. */
  lemma FreshRunsAreSafe(top: Topology, states: seq<State>, events: seq<Event>)
    requires IsRun(top, states, events) && WellFormed(top, states[0]) && Safe(top, states[0])
    requires forall i | 0 <= i < |events| :: Fresh(states[i], events[i])
    ensures forall i | 0 <= i < |states| :: Safe(top, states[i])
  {
    hide WellFormed, Safe, Timely, Fresh, Enabled, Next;
    FreshPrefixIsSafe(top, states, events, |events|);
  }

  lemma {:induction false} FreshPrefixIsSafe(top: Topology, states: seq<State>, events: seq<Event>, n: nat)
    requires IsRun(top, states, events) && WellFormed(top, states[0]) && Safe(top, states[0]) && n <= |events|
    requires forall i | 0 <= i < |events| :: Fresh(states[i], events[i])
    ensures forall i | 0 <= i <= n :: WellFormed(top, states[i]) && Safe(top, states[i])
  {
    hide WellFormed, Safe, Timely, Fresh, Enabled, Next;
    if n > 0 {
      FreshPrefixIsSafe(top, states, events, n - 1);
      FreshIsTimely(top, states[n - 1], events[n - 1]);
      StepIsWellFormed(top, states[n - 1], events[n - 1]);
      StepIsSafeExactly(top, states[n - 1], events[n - 1]);
    }
  }
}
