/**
 What the copy protocol leaves behind: the states from which a copy or a manager label can outlive all
 bind infos, and the steps that lead there.
 */
module Leftovers {
  import opened Annotations
  import opened BindInfo
  import opened CopiesProtocol

  /** Every manager label belongs to one of the bind infos, managed objects are marked, and a copy has
      a manager. */
  ghost predicate TidyLabels(labels: Labels, binds: set<Bind>) {
    && (forall key | Manager(labels, key) :: exists b | b in binds :: key == LabelKey(b))
    && (forall key | Manager(labels, key) :: Touched(labels))
    && (OfType(labels, "copy") ==> exists key :: Manager(labels, key))
  }

  /** An update will be refused, so that whoever is being cleaned up has to list again. */
  predicate Stuck(p: Phase, b: Bind)
    requires p.Deleting?
  {
    exists k | k in p.todo :: k in p.stale && Updates(p.todo[k], b)
  }

  /** Whoever is being cleaned up has all that carries its label on its list, or will list again. */
  ghost predicate Covers(p: Phase, b: Bind, objects: Objects) {
    p.Deleting? && !Stuck(p, b) ==>
      forall k | k in objects && Listable(k.kind) && Managed(objects[k], b) :: k in p.todo && Touched(p.todo[k])
  }

  ghost predicate Tidy(s: State) {
    && (forall k | k in s.objects && Listable(k.kind) :: TidyLabels(s.objects[k], s.binds.Keys))
    && (forall b | b in s.binds :: Covers(s.binds[b], b, s.objects))
  }

  /** Every manager a copy takes over from its source is there, and if it is being cleaned up still has the
      target on its list or will list again. */
  ghost predicate Quiet(s: State, e: Event) {
    e.WriteCopy? && IsCopying(s, e.b) ==>
      forall l | Manager(s.binds[e.b].read, l) && l != LabelKey(e.b) ::
        exists c | c in s.binds :: LabelKey(c) == l && WillSee(s.binds[c], c, s.binds[e.b].target)
  }

  predicate WillSee(p: Phase, c: Bind, target: ObjectKey) {
    p.Deleting? ==> (target in p.todo && Touched(p.todo[target])) || Stuck(p, c)
  }

  lemma InitialIsTidy(s: State)
    requires Initial(s)
    ensures Tidy(s)
  {
  }

  // ---------------------------------------------------------------------------------------
  // Which steps keep the state tidy

  lemma SpoiledStaysStuck(top: Topology, p: Phase, b: Bind, key: ObjectKey)
    requires p.Deleting?
    ensures Spoiled(top, p, key).Deleting? && Spoiled(top, p, key).todo == p.todo
    ensures Stuck(Spoiled(top, p, key), b) <==> Stuck(p, b) || (key in p.todo && Updates(p.todo[key], b))
  {
    hide Updates;
    var q := Spoiled(top, p, key);
    if Stuck(p, b) {
      var k :| k in p.todo && k in p.stale && Updates(p.todo[k], b);
      assert k in q.todo && k in q.stale;
    }
    if key in p.todo && Updates(p.todo[key], b) { assert key in q.stale; }
  }

  /** Writing labels whose managers were there already, or will be seen, keeps everybody's list good. */
  lemma PutCovers(top: Topology, s: State, key: ObjectKey, labels: Labels, b: Bind)
    requires b in s.binds && Covers(s.binds[b], b, s.objects)
    requires Managed(labels, b) && Listable(key.kind) ==>
      (key in s.objects && Managed(s.objects[key], b)) || WillSee(s.binds[b], b, key)
    ensures Covers(Put(top, s, key, labels).binds[b], b, Put(top, s, key, labels).objects)
  {
    hide Managed, Touched, Updates;
    var p := s.binds[b];
    if p.Deleting? { SpoiledStaysStuck(top, p, b, key); }
  }

  lemma RemoveCovers(top: Topology, s: State, key: ObjectKey, b: Bind)
    requires b in s.binds && Covers(s.binds[b], b, s.objects)
    ensures Covers(Remove(top, s, key).binds[b], b, Remove(top, s, key).objects)
  {
    hide Managed, Touched, Updates;
    var p := s.binds[b];
    if p.Deleting? { SpoiledStaysStuck(top, p, b, key); }
  }

  lemma TidyMarked(labels: Labels, b: Bind, source: Kind, role: string, binds: set<Bind>)
    requires b in binds && '.' !in b.ns && (role == "copy" || role == "original")
    ensures TidyLabels(Marked(labels, b, source, role), binds) <==>
      forall l | Manager(labels, l) && l != LabelKey(b) :: exists c | c in binds :: l == LabelKey(c)
  {
    hide Manager, Marked, OfType;
    MarkedManagers(labels, b, source, role);
    var marked := Marked(labels, b, source, role);
    assert Manager(marked, LabelKey(b));
    if TidyLabels(marked, binds) {
      forall l | Manager(labels, l) && l != LabelKey(b) ensures exists c | c in binds :: l == LabelKey(c) {
        assert Manager(marked, l);
      }
    }
  }

  /** Written, a copy keeps the state tidy exactly when it is quiet. */
  lemma CopyStaysTidyExactly(top: Topology, s: State, b: Bind)
    requires WellFormed(top, s) && Tidy(s) && Enabled(top, s, WriteCopy(b))
    ensures Tidy(Next(top, s, WriteCopy(b))) <==> Quiet(s, WriteCopy(b))
  {
    hide Remembers, TidyLabels, Covers, Managed, Marked, Manager, Touched, Updates, OfType;
    var p, r := s.binds[b], Next(top, s, WriteCopy(b));
    var copy := Copied(top, b, p);
    assert r.objects == s.objects[p.target := copy] && r.binds.Keys == s.binds.Keys;
    TidyMarked(p.read, b, top[p.target].kind, "copy", s.binds.Keys);
    if Quiet(s, WriteCopy(b)) {
      QuietCovers(top, s, b);
    } else if Tidy(r) {
      assert TidyLabels(r.objects[p.target], r.binds.Keys);
      forall l | Manager(p.read, l) && l != LabelKey(b)
        ensures exists c | c in s.binds :: LabelKey(c) == l && WillSee(s.binds[c], c, p.target)
      {
        var c :| c in s.binds && l == LabelKey(c);
        CoveredWillSee(top, s, b, c);
      }
    }
  }

  lemma QuietCovers(top: Topology, s: State, b: Bind)
    requires WellFormed(top, s) && Tidy(s) && Enabled(top, s, WriteCopy(b)) && Quiet(s, WriteCopy(b))
    ensures var r := Next(top, s, WriteCopy(b)); forall c | c in r.binds :: Covers(r.binds[c], c, r.objects)
  {
    hide Remembers, TidyLabels, Covers, Managed, Marked, Manager, WillSee;
    var p, r := s.binds[b], Next(top, s, WriteCopy(b));
    var copy := Copied(top, b, p);
    forall c | c in r.binds && c != b ensures Covers(r.binds[c], c, r.objects) {
      assert Managed(copy, c) ==> WillSee(s.binds[c], c, p.target) by {
        MarkedManaged(p.read, b, top[p.target].kind, "copy", c);
        ManagedIsManager(p.read, c);
        LabelsDiffer(b, c);
        if Managed(copy, c) {
          var d :| d in s.binds && LabelKey(d) == LabelKey(c) && WillSee(s.binds[d], d, p.target);
          LabelsDiffer(c, d);
        }
      }
      PutCovers(top, s, p.target, copy, c);
    }
    assert Covers(r.binds[b], b, r.objects) by { assert !r.binds[b].Deleting?; DefCovers(r.binds[b], b, r.objects); }
  }

  lemma DefCovers(p: Phase, b: Bind, objects: Objects)
    requires !p.Deleting?
    ensures Covers(p, b, objects)
  {
  }

  lemma CoveredWillSee(top: Topology, s: State, b: Bind, c: Bind)
    requires WellFormed(top, s) && Enabled(top, s, WriteCopy(b)) && c in s.binds
    requires var r := Next(top, s, WriteCopy(b)); Covers(r.binds[c], c, r.objects)
    requires Manager(s.binds[b].read, LabelKey(c))
    ensures WillSee(s.binds[c], c, s.binds[b].target)
  {
    hide Remembers, Managed, Marked, Manager, Touched, Updates;
    var p, r := s.binds[b], Next(top, s, WriteCopy(b));
    MarkedManaged(p.read, b, top[p.target].kind, "copy", c);
    ManagedIsManager(p.read, c);
    if s.binds[c].Deleting? {
      assert c != b;
      SpoiledStaysStuck(top, s.binds[c], c, p.target);
      assert Managed(r.objects[p.target], c);
      if p.target in s.binds[c].todo && Updates(s.binds[c].todo[p.target], c) { NotTouchedNotUpdated(s.binds[c], p.target, c); }
    }
  }

  lemma NotTouchedNotUpdated(p: Phase, k: ObjectKey, b: Bind)
    requires p.Deleting? && k in p.todo && Updates(p.todo[k], b)
    ensures Touched(p.todo[k])
  {
  }

  lemma SourceStaysTidy(top: Topology, s: State, b: Bind)
    requires WellFormed(top, s) && Tidy(s) && Enabled(top, s, WriteSource(b))
    ensures Tidy(Next(top, s, WriteSource(b)))
  {
    hide TidyLabels, Covers, Managed, Marked, Manager, Touched, Updates, OfType, WillSee;
    var p, r := s.binds[b], Next(top, s, WriteSource(b));
    var source, labels := top[p.target], Labelled(top, b, p);
    assert Remembers(top, s.objects, b, p);
    assert r.objects == s.objects[source := labels] && r.binds.Keys == s.binds.Keys;
    hide Remembers;
    if Listable(source.kind) {
      TidyMarked(p.read, b, source.kind, "original", s.binds.Keys);
      TidyHasBinds(p.read, s.binds.Keys);
    }
    forall c | c in r.binds && c != b ensures Covers(r.binds[c], c, r.objects) {
      MarkedManaged(p.read, b, source.kind, "original", c);
      PutCovers(top, s, source, labels, c);
    }
    DefCovers(r.binds[b], b, r.objects);
  }

  lemma TidyHasBinds(labels: Labels, binds: set<Bind>)
    requires TidyLabels(labels, binds)
    ensures forall l | Manager(labels, l) :: exists c | c in binds :: l == LabelKey(c)
  {
  }

  lemma TidyCleaned(labels: Labels, b: Bind, binds: set<Bind>)
    requires '.' !in b.ns && TidyLabels(labels, binds) && CleanLabels(labels, b).Left?
    ensures TidyLabels(CleanLabels(labels, b).labels, binds)
  {
    var now := CleanLabels(labels, b).labels;
    LabelsDiffer(b, b);
    CleanKeepsType(labels, b, "copy");
    CleanKeepsType(labels, b, "original");
    assert forall l | Manager(now, l) :: Manager(labels, l);
    if OfType(labels, "copy") {
      var l :| l in labels && Manager(labels, l) && l != LabelKey(b);
      assert Manager(now, l);
    }
  }

  /** Cleaning takes the label it is for and adds none. */
  lemma CleanedManagers(labels: Labels, b: Bind)
    requires '.' !in b.ns && CleanLabels(labels, b).Left? && Touched(labels)
    ensures var now := CleanLabels(labels, b).labels;
      !Managed(now, b) && forall c: Bind | Managed(now, c) :: Managed(labels, c)
  {
  }

  /** What is left of an object dealt with: fewer managers, and tidy labels. */
  lemma CleanedUpLabels(top: Topology, s: State, b: Bind, key: ObjectKey)
    requires WellFormed(top, s) && Tidy(s) && Enabled(top, s, Clean(b, key))
    ensures var q := CleanedUp(top, s, b, key);
      && q.binds.Keys == s.binds.Keys
      && forall k | k in q.objects ::
           && k in s.objects && (Listable(k.kind) ==> TidyLabels(q.objects[k], s.binds.Keys))
           && (k != key ==> q.objects[k] == s.objects[k])
           && (forall c: Bind | Managed(q.objects[k], c) :: Managed(s.objects[k], c))
           && (k == key && Managed(q.objects[k], b) ==> !Touched(s.binds[b].todo[key]))
  {
    hide TidyLabels, Covers, Managed, CleanLabels, Touched, OfType;
    var listed, q := s.binds[b].todo[key], CleanedUp(top, s, b, key);
    assert Remembers(top, s.objects, b, s.binds[b]);
    if !Deletes(listed, b) && Touched(listed) {
      assert s.objects[key] == listed;
      TidyCleaned(listed, b, s.binds.Keys);
      CleanedManagers(listed, b);
    }
  }

  lemma CleanedUpCovers(top: Topology, s: State, b: Bind, key: ObjectKey, c: Bind)
    requires WellFormed(top, s) && Tidy(s) && Enabled(top, s, Clean(b, key)) && c in s.binds
    ensures var q := CleanedUp(top, s, b, key); c in q.binds && Covers(q.binds[c], c, q.objects)
  {
    hide TidyLabels, Covers, Managed, CleanLabels, Touched, OfType, WillSee, Remembers;
    var listed := s.binds[b].todo[key];
    if Deletes(listed, b) {
      RemoveCovers(top, s, key, c);
    } else if Touched(listed) {
      CleanedUpLabels(top, s, b, key);
      PutCovers(top, s, key, CleanLabels(listed, b).labels, c);
    }
  }

  lemma CleanStaysTidy(top: Topology, s: State, b: Bind, key: ObjectKey)
    requires WellFormed(top, s) && Tidy(s) && Enabled(top, s, Clean(b, key))
    ensures Tidy(Next(top, s, Clean(b, key)))
  {
    hide TidyLabels, Covers, Managed, Updates, Deletes, Touched, WillSee, CleanedUp;
    var p, q, r := s.binds[b], CleanedUp(top, s, b, key), Next(top, s, Clean(b, key));
    CleanedUpLabels(top, s, b, key);
    forall c | c in q.binds && c != b ensures Covers(q.binds[c], c, q.objects) { CleanedUpCovers(top, s, b, key, c); }
    OneLess(p, b, key, s.objects, q.objects);
    assert r.objects == q.objects && r.binds.Keys == s.binds.Keys;
  }

  /** Taking what was dealt with off the list loses nothing. */
  lemma OneLess(p: Phase, b: Bind, key: ObjectKey, before: Objects, after: Objects)
    requires p.Deleting? && key in p.todo && Covers(p, b, before) && !(key in p.stale && Updates(p.todo[key], b))
    requires forall k | k in after && Managed(after[k], b) ::
      k in before && Managed(before[k], b) && (k == key ==> !Touched(p.todo[key]))
    ensures Covers(p.(todo := p.todo - {key}), b, after)
  {
    hide Managed, Touched, Updates;
    var q := p.(todo := p.todo - {key});
    if Stuck(p, b) {
      var k :| k in p.todo && k in p.stale && Updates(p.todo[k], b);
      assert k in q.todo;
    }
  }

  lemma ListCovers(s: State, b: Bind)
    requires Tidy(s) && '.' !in b.ns
    ensures Covers(Deleting(ListedObjects(s.objects, b), {}), b, s.objects)
  {
    forall k | k in s.objects && Listable(k.kind) && Managed(s.objects[k], b) ensures Touched(s.objects[k]) {
      ManagedIsManager(s.objects[k], b);
    }
  }

  lemma NewObjectStaysTidy(top: Topology, s: State, key: ObjectKey, labels: Labels)
    requires WellFormed(top, s) && Tidy(s) && Enabled(top, s, NewObject(key, labels))
    ensures Tidy(Next(top, s, NewObject(key, labels)))
  {
    hide Covers, Managed, WillSee;
    var r := Next(top, s, NewObject(key, labels));
    forall c | c in r.binds ensures Covers(r.binds[c], c, r.objects) {
      ManagedIsManager(labels, c);
      PutCovers(top, s, key, labels, c);
    }
  }

  lemma TouchStaysTidy(top: Topology, s: State, key: ObjectKey)
    requires Tidy(s)
    ensures Tidy(s.(binds := Spoil(top, s.binds, key)))
  {
    hide TidyLabels, Managed, Touched, Updates;
    var r := s.(binds := Spoil(top, s.binds, key));
    forall c | c in r.binds ensures Covers(r.binds[c], c, r.objects) {
      if s.binds[c].Deleting? { SpoiledStaysStuck(top, s.binds[c], c, key); }
    }
    assert r.binds.Keys == s.binds.Keys;
  }

  lemma FinishStaysTidy(top: Topology, s: State, b: Bind)
    requires WellFormed(top, s) && Tidy(s) && Enabled(top, s, Finish(b))
    ensures Tidy(Next(top, s, Finish(b)))
  {
    hide Managed, Touched;
    var r := Next(top, s, Finish(b));
    forall k, l | k in r.objects && Listable(k.kind) && Manager(r.objects[k], l)
      ensures exists c | c in r.binds.Keys :: l == LabelKey(c)
    {
      assert TidyLabels(s.objects[k], s.binds.Keys);
      var c :| c in s.binds.Keys && l == LabelKey(c);
      ManagedIsManager(s.objects[k], c);
      assert Covers(s.binds[b], b, s.objects);
      assert c != b;
    }
  }

  /** A step keeps the state tidy exactly when it is quiet. */
  lemma StepIsTidyExactly(top: Topology, s: State, e: Event)
    requires WellFormed(top, s) && Tidy(s) && Enabled(top, s, e)
    ensures Tidy(Next(top, s, e)) <==> Quiet(s, e)
  {
    hide TidyLabels, Managed, Touched, Manager, Updates, CleanedUp, Copied, Labelled, Remembers, Spoiled;
    match e
    case NewObject(key, labels) => NewObjectStaysTidy(top, s, key, labels);
    case Touch(key) => TouchStaysTidy(top, s, key);
    case Join(b) => TidyWithMore(s, b);
    case Read(b, target) => AtStaysTidy(s, b, Copying(target, s.objects[top[target]], false, false));
    case WriteCopy(b) => CopyStaysTidyExactly(top, s, b);
    case WriteSource(b) => SourceStaysTidy(top, s, b);
    case Abandon(b) => AtStaysTidy(s, b, Idle);
    case Begin(b) =>
      ListCovers(s, b);
      AtStaysTidy(s, b, Deleting(ListedObjects(s.objects, b), {}));
    case Clean(b, key) => CleanStaysTidy(top, s, b, key);
    case Retry(b) =>
      ListCovers(s, b);
      AtStaysTidy(s, b, Deleting(ListedObjects(s.objects, b), {}));
    case Finish(b) => FinishStaysTidy(top, s, b);
  }

  lemma AtStaysTidy(s: State, b: Bind, p: Phase)
    requires Tidy(s) && b in s.binds && Covers(p, b, s.objects)
    ensures Tidy(At(s, b, p))
  {
    hide TidyLabels, Covers;
    assert At(s, b, p).binds.Keys == s.binds.Keys;
  }

  lemma TidyWithMore(s: State, b: Bind)
    requires Tidy(s) && b !in s.binds
    ensures Tidy(At(s, b, Idle))
  {
    hide Manager;
    var r := At(s, b, Idle);
    forall k | k in s.objects && Listable(k.kind) ensures TidyLabels(s.objects[k], r.binds.Keys) {
      assert TidyLabels(s.objects[k], s.binds.Keys);
    }
  }

  // ---------------------------------------------------------------------------------------
  // What untidy states lead to

  ghost predicate Leads(top: Topology, s: State, events: seq<Event>, r: State)
    decreases |events|
  {
    if events == [] then r == s
    else Enabled(top, s, events[0]) && Leads(top, Next(top, s, events[0]), events[1..], r)
  }

  lemma {:induction false} LeadsOn(top: Topology, s: State, events: seq<Event>, r: State, more: seq<Event>, q: State)
    requires Leads(top, s, events, r) && Leads(top, r, more, q)
    ensures Leads(top, s, events + more, q)
    decreases |events|
  {
    hide Enabled, Next;
    if events == [] {
      assert events + more == more;
    } else {
      LeadsOn(top, Next(top, s, events[0]), events[1..], r, more, q);
      assert (events + more)[1..] == events[1..] + more;
    }
  }

  lemma LeadsFirst(top: Topology, s: State, e: Event, events: seq<Event>, r: State)
    requires Enabled(top, s, e) && Leads(top, Next(top, s, e), events, r)
    ensures Leads(top, s, [e] + events, r)
  {
    assert ([e] + events)[1..] == events;
  }

  lemma LeadsOnce(top: Topology, s: State, e: Event)
    requires Enabled(top, s, e)
    ensures Leads(top, s, [e], Next(top, s, e))
  {
    assert Leads(top, Next(top, s, e), [], Next(top, s, e));
    LeadsFirst(top, s, e, [], Next(top, s, e));
    assert [e] + [] == [e];
  }

  /** Nobody joins or copies any more. */
  predicate WindsDown(events: seq<Event>) {
    forall e | e in events :: !e.Join? && !e.Read? && !e.WriteCopy? && !e.WriteSource?
  }

  /** No copy and no manager label is left on anything that can be listed. */
  ghost predicate Bare(objects: Objects) {
    forall k | k in objects && Listable(k.kind) :: Unlabelled(objects[k])
  }

  lemma {:induction false} TidyEndsBare(top: Topology, s: State, events: seq<Event>, r: State)
    requires WellFormed(top, s) && Tidy(s) && Leads(top, s, events, r) && WindsDown(events) && r.binds == map[]
    ensures Bare(r.objects)
    decreases |events|
  {
    if events != [] {
      hide WellFormed, Tidy, Enabled, Next, Bare;
      assert events[0] in events;
      StepIsWellFormed(top, s, events[0]);
      StepIsTidyExactly(top, s, events[0]);
      TidyEndsBare(top, Next(top, s, events[0]), events[1..], r);
    }
  }

  /** An object that nobody will tidy up. */
  ghost predicate Leftover(s: State, k: ObjectKey) {
    k in s.objects && Listable(k.kind) && !TidyLabels(s.objects[k], s.binds.Keys)
  }

  lemma CleanKeepsLeftover(labels: Labels, b: Bind, binds: set<Bind>)
    requires b in binds && '.' !in b.ns && Managed(labels, b) && !TidyLabels(labels, binds)
    ensures CleanLabels(labels, b).Left? && !TidyLabels(CleanLabels(labels, b).labels, binds)
  {
    ManagedIsManager(labels, b);
    if Touched(labels) {
      var l :| Manager(labels, l) && !exists c | c in binds :: l == LabelKey(c);
      assert l != LabelKey(b) && HasOtherManagers(labels, b);
      assert Manager(CleanLabels(labels, b).labels, l);
    }
  }

  /** c works off a list of which nothing is stale. */
  lemma FreshCleanKeepsLeftover(top: Topology, s: State, c: Bind, key: ObjectKey, k: ObjectKey)
    requires WellFormed(top, s) && Leftover(s, k) && IsDeleting(s, c) && s.binds[c].todo.Keys !! s.binds[c].stale && key in s.binds[c].todo
    ensures Enabled(top, s, Clean(c, key)) && Leftover(Next(top, s, Clean(c, key)), k)
  {
    hide TidyLabels, Managed, Touched, OfType, HasOtherManagers;
    FreshIsAsListed(top, s, c, key);
    var r := Next(top, s, Clean(c, key));
    assert r.binds.Keys == s.binds.Keys;
    if key == k {
      CleanKeepsLeftover(s.objects[k], c, s.binds.Keys);
      hide CleanLabels;
      if !Touched(s.objects[k]) { UntouchedStays(s.objects[k], c); }
    }
  }

  lemma FreshIsAsListed(top: Topology, s: State, c: Bind, key: ObjectKey)
    requires WellFormed(top, s) && IsDeleting(s, c) && key in s.binds[c].todo && key !in s.binds[c].stale
    ensures key in s.objects && s.objects[key] == s.binds[c].todo[key] && Managed(s.objects[key], c)
  {
    hide Managed;
    assert Remembers(top, s.objects, c, s.binds[c]);
  }

  lemma UntouchedStays(labels: Labels, b: Bind)
    requires !Touched(labels)
    ensures CleanLabels(labels, b) == Left(labels)
  {
  }

  lemma {:induction false} WorkOff(top: Topology, s: State, c: Bind, k: ObjectKey) returns (events: seq<Event>, r: State)
    requires WellFormed(top, s) && Leftover(s, k) && IsDeleting(s, c) && s.binds[c].todo.Keys !! s.binds[c].stale
    ensures Leads(top, s, events, r) && WindsDown(events)
    ensures WellFormed(top, r) && Leftover(r, k) && r.binds.Keys == s.binds.Keys - {c}
    decreases s.binds[c].todo.Keys
  {
    hide WellFormed, Leads, CleanLabels, Touched, Deletes, Updates;
    var e, rest := Finish(c), [];
    if s.binds[c].todo == map[] {
      r := Next(top, s, e);
      LeadsOnce(top, s, e);
      FewerBinds(s.objects[k], s.binds.Keys, r.binds.Keys);
      StepIsWellFormed(top, s, e);
      events := [e];
    } else {
      assert s.binds[c].todo.Keys != {};
      var key :| key in s.binds[c].todo;
      e := Clean(c, key);
      FreshCleanKeepsLeftover(top, s, c, key, k);
      StepIsWellFormed(top, s, e);
      var s1 := Next(top, s, e);
      assert s1.binds[c].todo.Keys == s.binds[c].todo.Keys - {key} && s1.binds[c].stale == s.binds[c].stale;
      assert s1.binds.Keys == s.binds.Keys;
      rest, r := WorkOff(top, s1, c, k);
      LeadsFirst(top, s, e, rest, r);
      events := [e] + rest;
    }
  }

  lemma FewerBinds(labels: Labels, binds: set<Bind>, fewer: set<Bind>)
    requires !TidyLabels(labels, binds) && fewer <= binds
    ensures !TidyLabels(labels, fewer)
  {
  }

  /** Whatever c is at, it can list what carries its label now. */
  lemma StartOver(top: Topology, s: State, c: Bind) returns (events: seq<Event>, r: State)
    requires WellFormed(top, s) && c in s.binds
    ensures Leads(top, s, events, r) && WindsDown(events) && WellFormed(top, r)
    ensures r.objects == s.objects && r.binds == s.binds[c := Deleting(ListedObjects(s.objects, c), {})]
  {
    hide WellFormed, ListedObjects;
    match s.binds[c]
    case Idle =>
      r, events := Next(top, s, Begin(c)), [Begin(c)];
      LeadsOnce(top, s, Begin(c));
      StepIsWellFormed(top, s, Begin(c));
    case Copying(_, _, _, _) =>
      var s1 := Next(top, s, Abandon(c));
      r, events := Next(top, s1, Begin(c)), [Abandon(c)] + [Begin(c)];
      LeadsOnce(top, s1, Begin(c));
      LeadsFirst(top, s, Abandon(c), [Begin(c)], r);
      StepIsWellFormed(top, s, Abandon(c));
      StepIsWellFormed(top, s1, Begin(c));
    case Deleting(_, _) =>
      r, events := Next(top, s, Retry(c)), [Retry(c)];
      LeadsOnce(top, s, Retry(c));
      StepIsWellFormed(top, s, Retry(c));
  }

  lemma UnlabelledIsTidy(labels: Labels, binds: set<Bind>)
    requires Unlabelled(labels)
    ensures TidyLabels(labels, binds)
  {
  }

  /** Everybody cleans up and goes; the leftover stays. */
  lemma {:induction false} WindDown(top: Topology, s: State, k: ObjectKey) returns (events: seq<Event>, r: State)
    requires WellFormed(top, s) && Leftover(s, k)
    ensures Leads(top, s, events, r) && WindsDown(events) && r.binds == map[] && !Bare(r.objects)
    decreases s.binds.Keys
  {
    hide WellFormed, Next, Enabled, TidyLabels, Unlabelled;
    if s.binds == map[] {
      assert s.binds.Keys == {};
      if Unlabelled(s.objects[k]) { UnlabelledIsTidy(s.objects[k], {}); }
      return [], s;
    }
    hide Leads, Bare;
    assert s.binds.Keys != {};
    var c :| c in s.binds;
    var first, s1 := StartOver(top, s, c);
    assert s1.binds.Keys == s.binds.Keys;
    var second, s2 := WorkOff(top, s1, c, k);
    LeadsOn(top, s, first, s1, second, s2);
    var third;
    third, r := WindDown(top, s2, k);
    LeadsOn(top, s, first + second, s2, third, r);
    events := first + second + third;
  }

  /** m is being cleaned up and will not look at k any more, which names it. */
  ghost predicate LostTrack(s: State, m: Bind, k: ObjectKey) {
    && IsDeleting(s, m) && !Stuck(s.binds[m], m)
    && k in s.objects && Listable(k.kind) && Managed(s.objects[k], m)
    && !(k in s.binds[m].todo && Touched(s.binds[m].todo[k]))
  }

  /** An object that was listed to be deleted and is gone may come back before the delete. */
  lemma BackAgain(top: Topology, s: State, m: Bind, k: ObjectKey, key: ObjectKey) returns (events: seq<Event>, r: State)
    requires WellFormed(top, s) && LostTrack(s, m, k) && key in s.binds[m].todo
    ensures Leads(top, s, events, r) && WindsDown(events) && WellFormed(top, r)
    ensures r.binds.Keys == s.binds.Keys && r.binds[m].Deleting? && r.binds[m].todo == s.binds[m].todo
    ensures LostTrack(r, m, k) && Enabled(top, r, Clean(m, key))
  {
    hide Managed, Touched, Deletes, Updates, WellFormed, Remembers;
    if Deletes(s.binds[m].todo[key], m) && key !in s.objects {
      var e := NewObject(key, map[]);
      r, events := Next(top, s, e), [e];
      LeadsOnce(top, s, e);
      StepIsWellFormed(top, s, e);
      SpoiledStaysStuck(top, s.binds[m], m, key);
      DeletesIsNoUpdate(s.binds[m].todo[key], m);
    } else {
      r, events := s, [];
      UpdatePossible(top, s, m, key);
    }
  }

  lemma DeletesIsNoUpdate(listed: Labels, b: Bind)
    requires Deletes(listed, b)
    ensures !Updates(listed, b)
  {
  }

  lemma UpdatePossible(top: Topology, s: State, m: Bind, key: ObjectKey)
    requires WellFormed(top, s) && IsDeleting(s, m) && !Stuck(s.binds[m], m) && key in s.binds[m].todo
    ensures Updates(s.binds[m].todo[key], m) ==> key in s.objects && key !in s.binds[m].stale
  {
    assert Remembers(top, s.objects, m, s.binds[m]);
  }

  lemma LostTrackStays(top: Topology, s: State, m: Bind, k: ObjectKey, key: ObjectKey)
    requires WellFormed(top, s) && LostTrack(s, m, k) && key in s.binds[m].todo && Enabled(top, s, Clean(m, key))
    ensures LostTrack(Next(top, s, Clean(m, key)), m, k)
  {
    hide Managed, Touched, CleanLabels;
    var p, r := s.binds[m], Next(top, s, Clean(m, key));
    if key == k { UntouchedStays(p.todo[k], m); }
    assert r.binds[m] == p.(todo := p.todo - {key});
  }

  /** m works off its list and goes; k still names it. */
  lemma {:induction false} LoseTrack(top: Topology, s: State, m: Bind, k: ObjectKey) returns (events: seq<Event>, r: State)
    requires WellFormed(top, s) && LostTrack(s, m, k)
    ensures Leads(top, s, events, r) && WindsDown(events) && WellFormed(top, r) && Leftover(r, k)
    decreases s.binds[m].todo.Keys
  {
    hide Leads, Managed, Touched, Remembers;
    if s.binds[m].todo == map[] {
      r, events := Next(top, s, Finish(m)), [Finish(m)];
      LeadsOnce(top, s, Finish(m));
      StepIsWellFormed(top, s, Finish(m));
      ManagedIsManager(s.objects[k], m);
      forall c | c in r.binds ensures LabelKey(c) != LabelKey(m) { LabelsDiffer(c, m); }
    } else {
      assert s.binds[m].todo.Keys != {};
      var key :| key in s.binds[m].todo;
      var first, s1 := BackAgain(top, s, m, k, key);
      var e := Clean(m, key);
      var s2 := Next(top, s1, e);
      LostTrackStays(top, s1, m, k, key);
      StepIsWellFormed(top, s1, e);
      assert s2.binds[m].todo.Keys == s.binds[m].todo.Keys - {key};
      var rest;
      rest, r := LoseTrack(top, s2, m, k);
      LeadsFirst(top, s1, e, rest, r);
      LeadsOn(top, s, first, s1, [e] + rest, r);
      events := first + ([e] + rest);
    }
  }

  /** From an untidy state there is a run without further joins or copies after which all bind infos
      are gone and a copy or a label is left. */
  lemma UntidyLeaks(top: Topology, s: State) returns (events: seq<Event>, r: State)
    requires WellFormed(top, s) && !Tidy(s)
    ensures Leads(top, s, events, r) && WindsDown(events) && r.binds == map[] && !Bare(r.objects)
  {
    hide WellFormed, TidyLabels, Bare, Leads;
    if k :| k in s.objects && Listable(k.kind) && !TidyLabels(s.objects[k], s.binds.Keys) {
      events, r := WindDown(top, s, k);
    } else {
      var m :| m in s.binds && !Covers(s.binds[m], m, s.objects);
      var k :| k in s.objects && Listable(k.kind) && Managed(s.objects[k], m) && !(k in s.binds[m].todo && Touched(s.binds[m].todo[k]));
      var first, s1 := LoseTrack(top, s, m, k);
      var second;
      second, r := WindDown(top, s1, k);
      LeadsOn(top, s, first, s1, second, r);
      events := first + second;
    }
  }

  /** Tidy states are exactly those from which nothing can be left behind, unless somebody copies again. */
  lemma TidyExactly(top: Topology, s: State)
    requires WellFormed(top, s)
    ensures Tidy(s) <==>
      forall events, r | Leads(top, s, events, r) && WindsDown(events) && r.binds == map[] :: Bare(r.objects)
  {
    hide WellFormed, Tidy, Bare, Leads, WindsDown;
    if Tidy(s) {
      forall events, r | Leads(top, s, events, r) && WindsDown(events) && r.binds == map[] ensures Bare(r.objects) {
        TidyEndsBare(top, s, events, r);
      }
    } else {
      var events, r := UntidyLeaks(top, s);
    }
  }

  // ---------------------------------------------------------------------------------------
  // Whole copies

  /** Labelling the source is a write that whoever is being cleaned up will notice. */
  predicate Relabels(top: Topology, s: State, b: Bind)
    requires IsCopying(s, b) && s.binds[b].target in top
  {
    Listable(top[s.binds[b].target].kind) && Labelled(top, b, s.binds[b]) != s.binds[b].read
  }

  /** b writes the copy and at once labels the source. */
  function BothWrites(top: Topology, s: State, b: Bind): State
    requires Enabled(top, s, WriteCopy(b)) && Enabled(top, Next(top, s, WriteCopy(b)), WriteSource(b))
  {
    Next(top, Next(top, s, WriteCopy(b)), WriteSource(b))
  }

  lemma SourceListedForUpdate(top: Topology, s: State, b: Bind, c: Bind)
    requires WellFormed(top, s) && Tidy(s) && Enabled(top, s, WriteCopy(b)) && !s.binds[b].outdated && Relabels(top, s, b)
    requires IsDeleting(s, c) && !Stuck(s.binds[c], c) && Managed(s.binds[b].read, c)
    ensures var source := top[s.binds[b].target]; source in s.binds[c].todo && Updates(s.binds[c].todo[source], c)
  {
    hide Managed, Manager, Stuck;
    assert Remembers(top, s.objects, b, s.binds[b]) && Remembers(top, s.objects, c, s.binds[c]);
    assert Covers(s.binds[c], c, s.objects);
  }

  /** Where the source's new labels refuse the update of whoever has it listed, the copy is seen again. */
  lemma RelabellingCovers(top: Topology, s: State, b: Bind, c: Bind)
    requires WellFormed(top, s) && Tidy(s) && Enabled(top, s, WriteCopy(b)) && Enabled(top, Next(top, s, WriteCopy(b)), WriteSource(b))
    requires Relabels(top, s, b) && c in s.binds
    ensures var r := BothWrites(top, s, b); c in r.binds && Covers(r.binds[c], c, r.objects)
  {
    hide Managed, Manager, Marked, Updates, Touched, TidyLabels, Remembers, WillSee;
    var p, s1, r := s.binds[b], Next(top, s, WriteCopy(b)), BothWrites(top, s, b);
    var source := top[p.target];
    if c != b {
      assert Covers(s.binds[c], c, s.objects);
      assert s1.objects[source] == s.objects[source] && s1.binds[b] == p.(written := true);
      MarkedManaged(p.read, b, source.kind, "copy", c);
      MarkedManaged(p.read, b, source.kind, "original", c);
      if s.binds[c].Deleting? && !Stuck(s.binds[c], c) && Managed(p.read, c) {
        SourceListedForUpdate(top, s, b, c);
        SourceIsRead(top, s, b);
        SpoiledStaysStuck(top, s.binds[c], c, p.target);
        SpoiledStaysStuck(top, s1.binds[c], c, source);
        assert Stuck(r.binds[c], c);
      } else {
        CoversAfter(top, s, b, c);
      }
    }
  }

  lemma SourceIsRead(top: Topology, s: State, b: Bind)
    requires WellFormed(top, s) && Enabled(top, s, WriteCopy(b)) && !s.binds[b].outdated
    ensures top[s.binds[b].target] in s.objects && s.objects[top[s.binds[b].target]] == s.binds[b].read
  {
    assert Remembers(top, s.objects, b, s.binds[b]);
  }

  lemma CoversAfter(top: Topology, s: State, b: Bind, c: Bind)
    requires WellFormed(top, s) && Enabled(top, s, WriteCopy(b)) && Enabled(top, Next(top, s, WriteCopy(b)), WriteSource(b))
    requires c != b && c in s.binds && Covers(s.binds[c], c, s.objects)
    requires s.binds[c].Deleting? && !Stuck(s.binds[c], c) ==> !Managed(s.binds[b].read, c)
    ensures var r := BothWrites(top, s, b); c in r.binds && Covers(r.binds[c], c, r.objects)
  {
    hide Managed, Manager, Marked, Updates, Touched, TidyLabels, Remembers;
    var p, s1 := s.binds[b], Next(top, s, WriteCopy(b));
    var source := top[p.target];
    MarkedManaged(p.read, b, source.kind, "copy", c);
    MarkedManaged(p.read, b, source.kind, "original", c);
    PutCovers(top, s, p.target, Copied(top, b, p), c);
    if s.binds[c].Deleting? { SpoiledStaysStuck(top, s.binds[c], c, p.target); }
    PutCovers(top, s1, source, Labelled(top, b, p), c);
  }

  lemma BothWritten(top: Topology, s: State, b: Bind)
    requires WellFormed(top, s) && Enabled(top, s, WriteCopy(b)) && Enabled(top, Next(top, s, WriteCopy(b)), WriteSource(b))
    ensures var p, r := s.binds[b], BothWrites(top, s, b);
      r.objects == s.objects[p.target := Copied(top, b, p)][top[p.target] := Labelled(top, b, p)] && r.binds.Keys == s.binds.Keys
  {
    hide Marked, Remembers;
  }

  lemma RelabellingIsTidy(top: Topology, s: State, b: Bind)
    requires WellFormed(top, s) && Tidy(s) && Enabled(top, s, WriteCopy(b)) && Enabled(top, Next(top, s, WriteCopy(b)), WriteSource(b))
    requires Relabels(top, s, b)
    ensures Tidy(BothWrites(top, s, b))
  {
    hide Managed, Manager, Marked, Updates, Touched, TidyLabels, Remembers, Covers, OfType, BothWrites;
    var p, r := s.binds[b], BothWrites(top, s, b);
    var source := top[p.target];
    assert s.objects[source] == p.read by { SourceIsRead(top, s, b); }
    BothWritten(top, s, b);
    hide Next, Enabled;
    TidyHasBinds(p.read, s.binds.Keys);
    TidyMarked(p.read, b, source.kind, "copy", s.binds.Keys);
    TidyMarked(p.read, b, source.kind, "original", s.binds.Keys);
    forall c | c in r.binds ensures Covers(r.binds[c], c, r.objects) { RelabellingCovers(top, s, b, c); }
  }

  /** Where it does not, labelling the source changes nothing for anybody. */
  lemma UnnoticedStaysUntidy(top: Topology, s: State, b: Bind)
    requires WellFormed(top, s) && Enabled(top, s, WriteSource(b)) && !Tidy(s)
    requires Listable(top[s.binds[b].target].kind) ==> Labelled(top, b, s.binds[b]) == s.binds[b].read
    ensures !Tidy(Next(top, s, WriteSource(b)))
  {
    hide Managed, Marked, Updates, Touched, TidyLabels;
    var p, r := s.binds[b], Next(top, s, WriteSource(b));
    var source := top[p.target];
    assert Remembers(top, s.objects, b, p);
    assert r.binds.Keys == s.binds.Keys;
    assert forall k | k in s.objects && Listable(k.kind) :: k in r.objects && r.objects[k] == s.objects[k];
    forall c | c in s.binds && Covers(r.binds[c], c, r.objects) ensures Covers(s.binds[c], c, s.objects) {
      if s.binds[c].Deleting? {
        assert Remembers(top, s.objects, c, s.binds[c]);
        assert source in s.binds[c].todo ==> Listable(source.kind);
        SpoiledStaysStuck(top, s.binds[c], c, source);
      }
    }
  }

  /** A copy that goes through without interruption leaves the state tidy if and only if it is quiet or
      gives its source, a Secret or ConfigMap, other labels. */
  lemma WholeCopyIsTidyExactly(top: Topology, s: State, b: Bind)
    requires WellFormed(top, s) && Tidy(s) && Enabled(top, s, WriteCopy(b)) && Enabled(top, Next(top, s, WriteCopy(b)), WriteSource(b))
    ensures Tidy(BothWrites(top, s, b)) <==> Quiet(s, WriteCopy(b)) || Relabels(top, s, b)
  {
    hide WellFormed, Tidy, Quiet, Labelled;
    var s1 := Next(top, s, WriteCopy(b));
    StepIsWellFormed(top, s, WriteCopy(b));
    CopyStaysTidyExactly(top, s, b);
    assert s1.binds[b] == s.binds[b].(written := true);
    SameLabelled(top, s.binds[b], b);
    if Relabels(top, s, b) {
      RelabellingIsTidy(top, s, b);
    } else if Quiet(s, WriteCopy(b)) {
      StepIsTidyExactly(top, s1, WriteSource(b));
      assert Quiet(s1, WriteSource(b)) by { DefQuiet(s1, WriteSource(b)); }
    } else {
      UnnoticedStaysUntidy(top, s1, b);
    }
  }

  lemma SameLabelled(top: Topology, p: Phase, b: Bind)
    requires p.Copying? && p.target in top
    ensures Labelled(top, b, p.(written := true)) == Labelled(top, b, p)
  {
  }

  lemma DefQuiet(s: State, e: Event)
    requires !e.WriteCopy?
    ensures Quiet(s, e)
  {
  }

  /** Each copy is quiet or, without interruption, gives its source other labels. */
  ghost predicate Calm(top: Topology, states: seq<State>, events: seq<Event>, i: nat)
    requires IsRun(top, states, events) && i < |events|
  {
    || Quiet(states[i], events[i])
    || (i + 1 < |events| && events[i + 1] == WriteSource(events[i].b) && Relabels(top, states[i], events[i].b))
  }

  /** Then no copy and no manager label is left once the last bind info is gone. */
  lemma {:induction false} NothingIsLeft(top: Topology, states: seq<State>, events: seq<Event>)
    requires IsRun(top, states, events) && WellFormed(top, states[0]) && Tidy(states[0])
    requires forall i | 0 <= i < |events| :: Calm(top, states, events, i)
    ensures forall i | 0 <= i < |states| && states[i].binds == map[] :: Bare(states[i].objects)
    decreases |events|
  {
    hide WellFormed, Tidy, Quiet, Bare, Relabels, Enabled, Next, Leads, WindsDown;
    TidyIsBare(top, states[0]);
    if events != [] {
      var e := events[0];
      assert Calm(top, states, events, 0);
      StepIsWellFormed(top, states[0], e);
      StepIsTidyExactly(top, states[0], e);
      if Quiet(states[0], e) {
        CalmRest(top, states, events, 1);
        NothingIsLeft(top, states[1..], events[1..]);
        assert forall i | 1 <= i < |states| :: states[i] == states[1..][i - 1];
      } else {
        StepIsWellFormed(top, states[1], events[1]);
        WriterIsThere(top, states[0], e);
        WholeCopyIsTidyExactly(top, states[0], e.b);
        CalmRest(top, states, events, 2);
        NothingIsLeft(top, states[2..], events[2..]);
        assert forall i | 2 <= i < |states| :: states[i] == states[2..][i - 2];
      }
    }
  }

  lemma TidyIsBare(top: Topology, s: State)
    requires WellFormed(top, s) && Tidy(s)
    ensures s.binds == map[] ==> Bare(s.objects)
  {
    hide WellFormed, Tidy, Bare;
    if s.binds == map[] { TidyEndsBare(top, s, [], s); }
  }

  lemma WriterIsThere(top: Topology, s: State, e: Event)
    requires Enabled(top, s, e) && !Quiet(s, e)
    ensures e.WriteCopy? && Next(top, s, e).binds != map[]
  {
    assert e.b in Next(top, s, e).binds;
  }

  lemma CalmRest(top: Topology, states: seq<State>, events: seq<Event>, n: nat)
    requires IsRun(top, states, events) && n <= |events| && forall i | 0 <= i < |events| :: Calm(top, states, events, i)
    ensures IsRun(top, states[n..], events[n..]) && forall i | 0 <= i < |events| - n :: Calm(top, states[n..], events[n..], i)
  {
    hide Quiet, Relabels, Enabled, Next;
    forall i | 0 <= i < |events| - n ensures Calm(top, states[n..], events[n..], i) {
      assert Calm(top, states, events, i + n);
    }
  }

  // ---------------------------------------------------------------------------------------
  // Routes and Services

  lemma StepKeepsUnlisted(top: Topology, s: State, e: Event, k: ObjectKey, b: Bind)
    requires WellFormed(top, s) && Enabled(top, s, e) && '.' !in b.ns
    requires k in s.objects && !Listable(k.kind) && Managed(s.objects[k], b)
    ensures k in Next(top, s, e).objects && Managed(Next(top, s, e).objects[k], b)
  {
    hide Managed, CleanLabels, Touched, Marked, Manager;
    match e
    case Clean(c, key) => assert Remembers(top, s.objects, c, s.binds[c]);
    case WriteSource(c) =>
      assert Remembers(top, s.objects, c, s.binds[c]);
      MarkedManaged(s.binds[c].read, c, top[s.binds[c].target].kind, "original", b);
    case _ =>
  }

  /** Nobody ever takes a label off a Route or Service again. */
  lemma {:induction false} UnlistedKeepsLabel(top: Topology, states: seq<State>, events: seq<Event>, k: ObjectKey, b: Bind)
    requires IsRun(top, states, events) && WellFormed(top, states[0]) && '.' !in b.ns
    requires k in states[0].objects && !Listable(k.kind) && Managed(states[0].objects[k], b)
    ensures forall i | 0 <= i < |states| :: k in states[i].objects && Managed(states[i].objects[k], b)
    decreases |events|
  {
    hide WellFormed, Enabled, Next, Managed;
    if events != [] {
      StepKeepsUnlisted(top, states[0], events[0], k, b);
      StepIsWellFormed(top, states[0], events[0]);
      var rest := states[1..];
      assert IsRun(top, rest, events[1..]);
      UnlistedKeepsLabel(top, rest, events[1..], k, b);
      assert forall i | 1 <= i < |states| :: states[i] == rest[i - 1];
    }
  }

  /** So once b has copied from one and is gone, whoever copies from it afterwards leaves a copy behind,
      complete and uninterrupted as the copy may be. */
  lemma CopyOfUnlistedLeaks(top: Topology, states: seq<State>, events: seq<Event>, k: ObjectKey, b: Bind, c: Bind)
    returns (more: seq<Event>, r: State)
    requires IsRun(top, states, events) && WellFormed(top, states[0]) && '.' !in b.ns
    requires k in states[0].objects && !Listable(k.kind) && Managed(states[0].objects[k], b)
    requires var s := states[|events|];
      && b !in s.binds && IsCopying(s, c) && s.binds[c].target in top && top[s.binds[c].target] == k
      && !s.binds[c].written && !s.binds[c].outdated
    ensures var s := states[|events|];
      Enabled(top, s, WriteCopy(c)) && Enabled(top, Next(top, s, WriteCopy(c)), WriteSource(c)) &&
      Leads(top, BothWrites(top, s, c), more, r) && WindsDown(more) && r.binds == map[] && !Bare(r.objects)
  {
    hide Managed, Leads, Bare, Marked, Listable, TidyLabels;
    var s := states[|events|];
    UnlistedKeepsLabel(top, states, events, k, b);
    OriginalsStay(top, states, events);
    assert Remembers(top, s.objects, c, s.binds[c]);
    var s1 := Next(top, s, WriteCopy(c));
    var s2 := BothWrites(top, s, c);
    StepIsWellFormed(top, s, WriteCopy(c));
    StepIsWellFormed(top, s1, WriteSource(c));
    NamesTheGone(top, s, c, b);
    more, r := UntidyLeaks(top, s2);
  }

  lemma NamesTheGone(top: Topology, s: State, c: Bind, b: Bind)
    requires WellFormed(top, s) && Enabled(top, s, WriteCopy(c)) && Enabled(top, Next(top, s, WriteCopy(c)), WriteSource(c))
    requires '.' !in b.ns && b !in s.binds && Managed(s.binds[c].read, b)
    ensures !Tidy(BothWrites(top, s, c))
  {
    hide Managed, Marked, Listable, Remembers, Covers, Manager;
    var p, r := s.binds[c], BothWrites(top, s, c);
    assert r.binds.Keys == s.binds.Keys;
    assert r.objects[p.target] == Copied(top, c, p);
    MarkedManaged(p.read, c, top[p.target].kind, "copy", b);
    ManagedIsManager(r.objects[p.target], b);
    forall d | d in r.binds.Keys ensures LabelKey(d) != LabelKey(b) { LabelsDiffer(d, b); }
    assert !TidyLabels(r.objects[p.target], r.binds.Keys);
    assert Listable(p.target.kind) by { TargetsAreListable(top, p.target); }
  }

  lemma TargetsAreListable(top: Topology, target: ObjectKey)
    requires target in top
    ensures Listable(target.kind)
  {
  }
}
