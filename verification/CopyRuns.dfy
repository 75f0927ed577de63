/**
 Runs of the copy protocol that do not do what one would expect of it. All start without any bind info
 or label.
 */
module CopyRuns {
  import opened BindInfo
  import opened CopiesProtocol
  import opened Leftovers

  lemma LeadsOneMore(top: Topology, s: State, events: seq<Event>, r: State, e: Event)
    requires Leads(top, s, events, r) && Enabled(top, r, e)
    ensures Leads(top, s, events + [e], Next(top, r, e))
  {
    LeadsOnce(top, r, e);
    LeadsOn(top, s, events, r, [e], Next(top, r, e));
  }

  /** One copy from beginning to end. */
  function WholeCopy(b: Bind, target: ObjectKey): seq<Event> {
    [Read(b, target), WriteCopy(b), WriteSource(b)]
  }

  /** What others are at does not change, but what they may have found out was written. */
  predicate Noticed(p: Phase, q: Phase, written: set<ObjectKey>) {
    match p
    case Idle => q == Idle
    case Copying(target, read, w, _) => q.Copying? && q.target == target && q.read == read && q.written == w
    case Deleting(todo, stale) => q.Deleting? && q.todo == todo && stale <= q.stale <= stale + written
  }

  /** The keys whose labels change. */
  function Changed(labels: Labels, now: Labels, source: ObjectKey): set<ObjectKey> {
    if now == labels then {} else {source}
  }

  lemma PutIsNoticed(top: Topology, s: State, key: ObjectKey, labels: Labels)
    ensures var r := Put(top, s, key, labels);
      && r.binds.Keys == s.binds.Keys
      && (forall c | c in s.binds :: Noticed(s.binds[c], r.binds[c], if key in s.objects then Changed(s.objects[key], labels, key) else {key}))
  {
  }

  /** b's copy, from the read to the source's labels, undisturbed. */
  lemma CopyThrough(top: Topology, s: State, b: Bind, target: ObjectKey) returns (r: State)
    requires b in s.binds && s.binds[b] == Idle && target in top && top[target] in s.objects
    ensures Leads(top, s, WholeCopy(b, target), r)
    ensures r.binds.Keys == s.binds.Keys && r.binds[b] == Idle
    ensures var source := top[target]; var labels := s.objects[source]; var now := Marked(labels, b, source.kind, "original");
      && r.objects == s.objects[target := Marked(labels, b, source.kind, "copy")][source := now]
      && r.created == s.created + {(b, target)}
      && forall c | c in s.binds && c != b :: Noticed(s.binds[c], r.binds[c], {target} + Changed(labels, now, source))
  {
    hide Marked, Listable, Noticed, Put;
    var s1 := Next(top, s, Read(b, target));
    var s2 := Next(top, s1, WriteCopy(b));
    PutObjects(top, s1, target, Copied(top, b, s1.binds[b]));
    PutIsNoticed(top, s1, target, Copied(top, b, s1.binds[b]));
    r := Next(top, s2, WriteSource(b));
    PutObjects(top, s2, top[target], Labelled(top, b, s2.binds[b]));
    PutIsNoticed(top, s2, top[target], Labelled(top, b, s2.binds[b]));
    forall c | c in s.binds && c != b
      ensures Noticed(s.binds[c], r.binds[c], {target} + Changed(s.objects[top[target]], Labelled(top, b, s2.binds[b]), top[target]))
    {
      NoticedTwice(s.binds[c], s2.binds[c], r.binds[c],
        if target in s.objects then Changed(s.objects[target], Copied(top, b, s1.binds[b]), target) else {target},
        Changed(s.objects[top[target]], Labelled(top, b, s2.binds[b]), top[target]), target);
    }
    hide Leads;
    LeadsOnce(top, s2, WriteSource(b));
    LeadsFirst(top, s1, WriteCopy(b), [WriteSource(b)], r);
    LeadsFirst(top, s, Read(b, target), [WriteCopy(b)] + [WriteSource(b)], r);
    assert WholeCopy(b, target) == [Read(b, target)] + ([WriteCopy(b)] + [WriteSource(b)]);
  }

  lemma PutObjects(top: Topology, s: State, key: ObjectKey, labels: Labels)
    ensures Put(top, s, key, labels).objects == s.objects[key := labels] && Put(top, s, key, labels).created == s.created
  {
  }

  lemma NoticedTwice(p: Phase, q: Phase, r: Phase, first: set<ObjectKey>, second: set<ObjectKey>, target: ObjectKey)
    requires Noticed(p, q, first) && Noticed(q, r, second) && first <= {target}
    ensures Noticed(p, r, {target} + second)
  {
  }

  /** Two bind infos join, none has copied. */
  lemma BothJoin(b: Bind, c: Bind, source: ObjectKey, target: ObjectKey) returns (s: State, r: State)
    requires b != c && '.' !in b.ns && '.' !in c.ns && source != target && Listable(target.kind)
    ensures Initial(s) && Leads(map[target := source], s, [Join(b), Join(c)], r)
    ensures r == State(map[source := map[]], map[b := Idle, c := Idle], {})
  {
    var top: Topology := map[target := source];
    s := State(map[source := map[]], map[], {});
    var s1 := Next(top, s, Join(b));
    r := Next(top, s1, Join(c));
    LeadsOnce(top, s1, Join(c));
    LeadsFirst(top, s, Join(b), [Join(c)], r);
    assert [Join(b), Join(c)] == [Join(b)] + [Join(c)];
    assert r.binds == map[b := Idle, c := Idle];
  }

  // ---------------------------------------------------------------------------------------
  // Who relies on a copy can lose it

  /** b lists the copy to delete it, c takes it over in the meantime, b deletes it. */
  lemma LiveCopyIsDeleted(b: Bind, c: Bind, source: ObjectKey, target: ObjectKey) returns (s: State, r: State)
    requires b != c && '.' !in b.ns && '.' !in c.ns && source != target && Listable(target.kind)
    ensures Initial(s)
    ensures Leads(map[target := source], s,
      [Join(b), Join(c)] + WholeCopy(b, target) + [Begin(b)] + WholeCopy(c, target) + [Clean(b, target)], r)
    ensures (c, target) in r.created && IsLive(r, c) && target !in r.objects
  {
    hide Marked, Managed, Manager, OfType, Leads, WholeCopy;
    var top: Topology := map[target := source];
    var s0;
    s, s0 := BothJoin(b, c, source, target);
    var s1 := CopyThrough(top, s0, b, target);
    LeadsOn(top, s, [Join(b), Join(c)], s0, WholeCopy(b, target), s1);
    NoLabels();
    OnlyManager(map[], b, source.kind);
    var copy := Marked(map[], b, source.kind, "copy");
    assert s1.objects[target] == copy;
    var events := [Join(b), Join(c)] + WholeCopy(b, target);
    LeadsOneMore(top, s, events, s1, Begin(b));
    var s2 := Next(top, s1, Begin(b));
    assert s2.binds[b].todo[target] == copy;
    var s3 := CopyThrough(top, s2, c, target);
    LeadsOn(top, s, events + [Begin(b)], s2, WholeCopy(c, target), s3);
    LeadsOneMore(top, s, events + [Begin(b)] + WholeCopy(c, target), s3, Clean(b, target));
    r := Next(top, s3, Clean(b, target));
  }

  lemma NoLabels()
    ensures Unlabelled(map[])
  {
  }

  /** A fresh copy names nobody else, so cleaning up deletes it. */
  lemma OnlyManager(labels: Labels, b: Bind, source: Kind)
    requires '.' !in b.ns && Unlabelled(labels)
    ensures var copy := Marked(labels, b, source, "copy"); Managed(copy, b) && Deletes(copy, b)
  {
    hide Marked;
    MarkedManagers(labels, b, source, "copy");
    ManagedIsManager(Marked(labels, b, source, "copy"), b);
  }

  /** c has read the source before b labelled it, and drops b from the copy. */
  lemma LiveLabelIsLost(b: Bind, c: Bind, source: ObjectKey, target: ObjectKey) returns (s: State, r: State)
    requires b != c && '.' !in b.ns && '.' !in c.ns && source != target && Listable(target.kind)
    ensures Initial(s)
    ensures Leads(map[target := source], s, [Join(b), Join(c)] + [Read(c, target)] + WholeCopy(b, target) + [WriteCopy(c)], r)
    ensures (b, target) in r.created && IsLive(r, b) && target in r.objects && !Managed(r.objects[target], b)
  {
    hide Marked, Managed, Leads;
    var top: Topology := map[target := source];
    var s0;
    s, s0 := BothJoin(b, c, source, target);
    LeadsOneMore(top, s, [Join(b), Join(c)], s0, Read(c, target));
    var s1 := Next(top, s0, Read(c, target));
    var s2 := CopyThrough(top, s1, b, target);
    var events := [Join(b), Join(c)] + [Read(c, target)];
    LeadsOn(top, s, events, s1, WholeCopy(b, target), s2);
    assert s2.binds[c].Copying? && s2.binds[c].target == target && s2.binds[c].read == map[] && !s2.binds[c].written;
    LeadsOneMore(top, s, events + WholeCopy(b, target), s2, WriteCopy(c));
    r := Next(top, s2, WriteCopy(c));
    MarkedManaged(map[], c, source.kind, "copy", b);
    ManagedIsManager(map[], b);
  }

  // ---------------------------------------------------------------------------------------
  // A copy can outlive everybody

  /** One update of a clean-up. */
  lemma CleanThrough(top: Topology, s: State, b: Bind, key: ObjectKey) returns (r: State)
    requires IsDeleting(s, b) && key in s.binds[b].todo && Updates(s.binds[b].todo[key], b)
    requires key in s.objects && key !in s.binds[b].stale
    ensures Enabled(top, s, Clean(b, key)) && r == Next(top, s, Clean(b, key)) && r.binds.Keys == s.binds.Keys
    ensures r.objects == s.objects[key := CleanLabels(s.binds[b].todo[key], b).labels]
    ensures r.binds[b] == Deleting(s.binds[b].todo - {key}, s.binds[b].stale)
    ensures forall c | c in s.binds && s.binds[c] == Idle && c != b :: r.binds[c] == Idle
  {
    hide CleanLabels, Touched;
    r := Next(top, s, Clean(b, key));
    PutObjects(top, s, key, CleanLabels(s.binds[b].todo[key], b).labels);
    PutIsNoticed(top, s, key, CleanLabels(s.binds[b].todo[key], b).labels);
  }

  /** What others manage is updated when it is cleaned up, and stays theirs. */
  lemma SharedIsUpdated(labels: Labels, b: Bind, c: Bind)
    requires '.' !in b.ns && '.' !in c.ns && b != c && Managed(labels, c) && Touched(labels)
    ensures Updates(labels, b) && var now := CleanLabels(labels, b).labels;
      Managed(now, c) && (OfType(labels, "copy") ==> OfType(now, "copy"))
  {
    CleanKeepsOthers(labels, b, c);
    CleanKeepsType(labels, b, "copy");
  }

  lemma MarkedAgain(labels: Labels, c: Bind, source: Kind)
    ensures var marked := Marked(labels, c, source, "original"); Marked(marked, c, source, "original") == marked
  {
  }

  /** The labels b's and c's copies leave. */
  lemma BothMarked(b: Bind, c: Bind, source: Kind, role: string)
    requires '.' !in b.ns && '.' !in c.ns && (role == "copy" || role == "original")
    ensures var labels := Marked(Marked(map[], b, source, "original"), c, source, role);
      Managed(labels, b) && Managed(labels, c) && OfType(labels, role) && Touched(labels)
  {
    hide Marked, Managed;
    var first := Marked(map[], b, source, "original");
    MarkedManaged(map[], b, source, "original", b);
    MarkedManaged(first, c, source, role, b);
    MarkedManaged(first, c, source, role, c);
    MarkedManagers(first, c, source, role);
  }

  lemma ListsBoth(objects: Objects, b: Bind, source: ObjectKey, target: ObjectKey)
    requires objects.Keys == {source, target} && Listable(source.kind) && Listable(target.kind)
    requires Managed(objects[source], b) && Managed(objects[target], b)
    ensures ListedObjects(objects, b) == objects
  {
    hide Managed, Listable;
    assert Listed(objects, b) == {source, target};
  }

  /** A copy while the other one looks on. */
  lemma OneCopies(top: Topology, s: State, b: Bind, c: Bind, source: ObjectKey, target: ObjectKey) returns (r: State)
    requires b != c && top == map[target := source] && source != target
    requires s.binds == map[b := Idle, c := Idle] && source in s.objects && s.objects.Keys <= {source, target}
    ensures Leads(top, s, WholeCopy(b, target), r) && r.binds == map[b := Idle, c := Idle]
    ensures var labels := s.objects[source];
      r.objects == map[source := Marked(labels, b, source.kind, "original"), target := Marked(labels, b, source.kind, "copy")]
  {
    hide Marked, Leads, Next, Enabled, WholeCopy, Changed;
    r := CopyThrough(top, s, b, target);
    assert Noticed(s.binds[c], r.binds[c], {target} + Changed(s.objects[source], Marked(s.objects[source], b, source.kind, "original"), source));
  }

  /** b and c have both copied. */
  lemma BothCopy(b: Bind, c: Bind, source: ObjectKey, target: ObjectKey) returns (s: State, r: State)
    requires b != c && '.' !in b.ns && '.' !in c.ns && source != target && Listable(target.kind)
    ensures Initial(s) && Leads(map[target := source], s, [Join(b), Join(c)] + WholeCopy(b, target) + WholeCopy(c, target), r)
    ensures var labels := Marked(map[], b, source.kind, "original");
      && r.objects == map[source := Marked(labels, c, source.kind, "original"), target := Marked(labels, c, source.kind, "copy")]
      && r.binds == map[b := Idle, c := Idle]
  {
    hide Marked, Leads, Next, Enabled, WholeCopy, Initial;
    var top: Topology := map[target := source];
    var s0;
    s, s0 := BothJoin(b, c, source, target);
    var s1 := OneCopies(top, s0, b, c, source, target);
    LeadsOn(top, s, [Join(b), Join(c)], s0, WholeCopy(b, target), s1);
    assert s1.binds == map[c := Idle, b := Idle];
    r := OneCopies(top, s1, c, b, source, target);
    LeadsOn(top, s, [Join(b), Join(c)] + WholeCopy(b, target), s1, WholeCopy(c, target), r);
  }

  /** b begins to clean up and has done the copy. */
  lemma HalfCleaned(top: Topology, s: State, b: Bind, c: Bind, source: ObjectKey, target: ObjectKey) returns (r: State)
    requires b != c && '.' !in b.ns && '.' !in c.ns && source != target && Listable(target.kind) && Listable(source.kind)
    requires s.binds == map[b := Idle, c := Idle] && s.objects.Keys == {source, target}
    requires Managed(s.objects[source], b) && Managed(s.objects[target], b) && Managed(s.objects[target], c) && OfType(s.objects[target], "copy")
    ensures Leads(top, s, [Begin(b)] + [Clean(b, target)], r)
    ensures r.objects.Keys == s.objects.Keys && r.objects[source] == s.objects[source]
    ensures r.binds == map[b := Deleting(map[source := s.objects[source]], {}), c := Idle]
  {
    hide Managed, Touched, OfType, Leads, CleanLabels, Listed, Updates;
    ListsBoth(s.objects, b, source, target);
    LeadsOnce(top, s, Begin(b));
    var s1 := Next(top, s, Begin(b));
    CopyIsTouched(s.objects[target]);
    SharedIsUpdated(s.objects[target], b, c);
    r := CleanThrough(top, s1, b, target);
    LeadsOneMore(top, s, [Begin(b)], s1, Clean(b, target));
    assert r.binds[b].todo == map[source := s.objects[source]];
  }

  /** Then c copies again, and the source has all labels already. */
  lemma CopiedBehind(top: Topology, s: State, b: Bind, c: Bind, source: ObjectKey, target: ObjectKey) returns (r: State)
    requires b != c && '.' !in b.ns && '.' !in c.ns && source != target && Listable(target.kind) && Listable(source.kind)
    requires top == map[target := source] && s.binds == map[b := Idle, c := Idle]
    requires var labels := Marked(map[], b, source.kind, "original");
      s.objects == map[source := Marked(labels, c, source.kind, "original"), target := Marked(labels, c, source.kind, "copy")]
    ensures Leads(top, s, [Begin(b)] + [Clean(b, target)] + WholeCopy(c, target), r)
    ensures r.objects == s.objects[target := Marked(s.objects[source], c, source.kind, "copy")]
    ensures r.binds.Keys == {b, c} && r.binds[c] == Idle
    ensures r.binds[b].Deleting? && r.binds[b].todo == map[source := s.objects[source]] && source !in r.binds[b].stale
  {
    hide Marked, Managed, OfType, Leads, Next, Enabled, WholeCopy;
    var labels := Marked(map[], b, source.kind, "original");
    BothMarked(b, c, source.kind, "original");
    BothMarked(b, c, source.kind, "copy");
    var s2 := HalfCleaned(top, s, b, c, source, target);
    r := CopyThrough(top, s2, c, target);
    LeadsOn(top, s, [Begin(b)] + [Clean(b, target)], s2, WholeCopy(c, target), r);
    MarkedAgain(labels, c, source.kind);
  }

  /** b updates the source and is gone. */
  lemma FirstFinishes(top: Topology, s: State, b: Bind, c: Bind, source: ObjectKey) returns (r: State)
    requires b != c && '.' !in b.ns && '.' !in c.ns && source in s.objects
    requires s.binds.Keys == {b, c} && s.binds[c] == Idle
    requires s.binds[b].Deleting? && s.binds[b].todo == map[source := s.objects[source]] && source !in s.binds[b].stale
    requires Managed(s.objects[source], c) && OfType(s.objects[source], "original")
    ensures Leads(top, s, [Clean(b, source)] + [Finish(b)], r) && r.binds == map[c := Idle]
    ensures r.objects.Keys == s.objects.Keys && forall k | k in s.objects && k != source :: r.objects[k] == s.objects[k]
    ensures Managed(r.objects[source], c) && Updates(r.objects[source], c)
  {
    hide Managed, OfType, Leads, CleanLabels, Updates, Touched;
    OriginalIsTouched(s.objects[source]);
    SharedIsUpdated(s.objects[source], b, c);
    var s1 := CleanThrough(top, s, b, source);
    LeadsOnce(top, s, Clean(b, source));
    assert s1.binds[b].todo == map[];
    LeadsOneMore(top, s, [Clean(b, source)], s1, Finish(b));
    r := Next(top, s1, Finish(b));
    LastUpdate(r.objects[source], s.objects[source], b, c);
    assert r.binds.Keys == {c};
  }

  /** c cleans up both and is gone; b's label on the copy lets it be. */
  lemma SecondFinishes(top: Topology, s: State, b: Bind, c: Bind, source: ObjectKey, target: ObjectKey) returns (r: State)
    requires b != c && '.' !in b.ns && '.' !in c.ns && source != target && Listable(target.kind) && Listable(source.kind)
    requires s.binds == map[c := Idle] && s.objects.Keys == {source, target}
    requires Managed(s.objects[source], c) && Updates(s.objects[source], c)
    requires Managed(s.objects[target], b) && Managed(s.objects[target], c) && OfType(s.objects[target], "copy")
    ensures Leads(top, s, [Begin(c)] + [Clean(c, target)] + [Clean(c, source)] + [Finish(c)], r)
    ensures r.binds == map[] && target in r.objects && OfType(r.objects[target], "copy") && Managed(r.objects[target], b)
  {
    hide Managed, OfType, Leads, CleanLabels, Updates, Touched, Listed;
    ListsBoth(s.objects, c, source, target);
    LeadsOnce(top, s, Begin(c));
    var s1 := Next(top, s, Begin(c));
    CopyIsTouched(s.objects[target]);
    SharedIsUpdated(s.objects[target], c, b);
    var s2 := CleanThrough(top, s1, c, target);
    LeadsOneMore(top, s, [Begin(c)], s1, Clean(c, target));
    var s3 := CleanThrough(top, s2, c, source);
    LeadsOneMore(top, s, [Begin(c)] + [Clean(c, target)], s2, Clean(c, source));
    assert s3.binds[c].todo == map[];
    LeadsOneMore(top, s, [Begin(c)] + [Clean(c, target)] + [Clean(c, source)], s3, Finish(c));
    r := Next(top, s3, Finish(c));
    assert r.binds.Keys == {};
  }

  lemma OriginalIsTouched(labels: Labels)
    requires OfType(labels, "original")
    ensures Touched(labels)
  {
  }

  /** An original is updated, whoever else manages it. */
  lemma LastUpdate(now: Labels, labels: Labels, b: Bind, c: Bind)
    requires '.' !in b.ns && OfType(labels, "original") && CleanLabels(labels, b) == Left(now)
    ensures Updates(now, c)
  {
    LabelsDiffer(b, b);
  }

  /** In this run every copy goes through and no call is refused; c, which copied in between from a
      source that still carried b's label, leaves the copy to b, and b is gone. */
  lemma InterleavedCopyLeaks(b: Bind, c: Bind, source: ObjectKey, target: ObjectKey) returns (s: State, r: State)
    requires b != c && '.' !in b.ns && '.' !in c.ns && source != target && Listable(target.kind) && Listable(source.kind)
    ensures Initial(s)
    ensures Leads(map[target := source], s,
      ([Join(b), Join(c)] + WholeCopy(b, target) + WholeCopy(c, target))
      + ([Begin(b)] + [Clean(b, target)] + WholeCopy(c, target))
      + ([Clean(b, source)] + [Finish(b)])
      + ([Begin(c)] + [Clean(c, target)] + [Clean(c, source)] + [Finish(c)]), r)
    ensures r.binds == map[] && target in r.objects && OfType(r.objects[target], "copy")
  {
    hide Managed, Touched, OfType, Leads, Marked, WholeCopy, Updates, Initial;
    var top: Topology := map[target := source];
    var s1;
    s, s1 := BothCopy(b, c, source, target);
    var s2 := CopiedBehind(top, s1, b, c, source, target);
    BothMarked(b, c, source.kind, "original");
    var labels := s1.objects[source];
    MarkedManaged(labels, c, source.kind, "copy", b);
    MarkedManaged(labels, c, source.kind, "copy", c);
    MarkedManagers(labels, c, source.kind, "copy");
    var s3 := FirstFinishes(top, s2, b, c, source);
    r := SecondFinishes(top, s3, b, c, source, target);
    var first, second := [Join(b), Join(c)] + WholeCopy(b, target) + WholeCopy(c, target), [Begin(b)] + [Clean(b, target)] + WholeCopy(c, target);
    var third := [Clean(b, source)] + [Finish(b)];
    LeadsOn(top, s, first, s1, second, s2);
    LeadsOn(top, s, first + second, s2, third, s3);
    LeadsOn(top, s, first + second + third, s3, [Begin(c)] + [Clean(c, target)] + [Clean(c, source)] + [Finish(c)], r);
  }

  lemma CopyIsTouched(labels: Labels)
    requires OfType(labels, "copy")
    ensures Touched(labels)
  {
  }

  // ---------------------------------------------------------------------------------------
  // Routes and Services, one bind info after the other

  /** One bind info's whole life. */
  function Life(b: Bind, target: ObjectKey): seq<Event> {
    [Join(b)] + WholeCopy(b, target) + ([Begin(b)] + [Clean(b, target)] + [Finish(b)])
  }

  lemma CleanOnlyOne(top: Topology, s: State, b: Bind, source: ObjectKey, target: ObjectKey) returns (r: State)
    requires source != target && s.objects.Keys == {source, target} && Touched(s.objects[target])
    requires s.binds == map[b := Deleting(map[target := s.objects[target]], {})]
    ensures Enabled(top, s, Clean(b, target)) && r == Next(top, s, Clean(b, target)) && r.binds == map[b := Deleting(map[], {})]
    ensures r.objects == match CleanLabels(s.objects[target], b)
      case Deleted => map[source := s.objects[source]]
      case Left(rest) => map[source := s.objects[source], target := rest]
  {
    hide CleanLabels, Touched;
    r := Next(top, s, Clean(b, target));
    var todo: Objects := map[target := s.objects[target]];
    assert todo - {target} == map[];
    assert r.binds.Keys == {b};
    match CleanLabels(s.objects[target], b)
    case Deleted => assert r.objects == s.objects - {target};
    case Left(rest) => PutObjects(top, s, target, rest);
  }

  /** The only one there cleans up its only copy and goes. */
  lemma Leave(top: Topology, s: State, b: Bind, source: ObjectKey, target: ObjectKey) returns (r: State)
    requires Listable(target.kind) && !Listable(source.kind) && s.binds == map[b := Idle] && s.objects.Keys == {source, target}
    requires Managed(s.objects[target], b) && OfType(s.objects[target], "copy")
    ensures Leads(top, s, [Begin(b)] + [Clean(b, target)] + [Finish(b)], r) && r.binds == map[]
    ensures r.objects == match CleanLabels(s.objects[target], b)
      case Deleted => map[source := s.objects[source]]
      case Left(rest) => map[source := s.objects[source], target := rest]
  {
    hide Managed, OfType, Touched, Leads, Listable, CleanLabels;
    CopyIsTouched(s.objects[target]);
    assert Listed(s.objects, b) == {target};
    hide Listed;
    assert ListedObjects(s.objects, b) == map[target := s.objects[target]];
    LeadsOnce(top, s, Begin(b));
    var s1 := Next(top, s, Begin(b));
    var s2 := CleanOnlyOne(top, s1, b, source, target);
    LeadsOneMore(top, s, [Begin(b)], s1, Clean(b, target));
    r := s2.(binds := s2.binds - {b});
    assert r == Next(top, s2, Finish(b)) && r.binds.Keys == {};
    LeadsOneMore(top, s, [Begin(b)] + [Clean(b, target)], s2, Finish(b));
  }

  lemma LiveOut(top: Topology, s: State, b: Bind, source: ObjectKey, target: ObjectKey) returns (r: State)
    requires '.' !in b.ns && Listable(target.kind) && !Listable(source.kind)
    requires top == map[target := source] && s.binds == map[] && s.objects.Keys == {source}
    ensures Leads(top, s, Life(b, target), r) && r.binds == map[]
    ensures var labels := s.objects[source]; var copy := Marked(labels, b, source.kind, "copy");
      r.objects == match CleanLabels(copy, b)
        case Deleted => map[source := Marked(labels, b, source.kind, "original")]
        case Left(rest) => map[source := Marked(labels, b, source.kind, "original"), target := rest]
  {
    hide Managed, OfType, Leads, Marked, Listable, CleanLabels, WholeCopy, Changed;
    var labels := s.objects[source];
    LeadsOnce(top, s, Join(b));
    var s1 := Next(top, s, Join(b));
    assert s1.binds == map[b := Idle];
    var s2 := CopyThrough(top, s1, b, target);
    LeadsOn(top, s, [Join(b)], s1, WholeCopy(b, target), s2);
    assert s2.binds == map[b := Idle] && s2.objects.Keys == {source, target};
    MarkedManaged(labels, b, source.kind, "copy", b);
    MarkedManagers(labels, b, source.kind, "copy");
    r := Leave(top, s2, b, source, target);
    LeadsOn(top, s, [Join(b)] + WholeCopy(b, target), s2, [Begin(b)] + [Clean(b, target)] + [Finish(b)], r);
  }

  /** b copies from a Route, cleans up and goes; after it c does the same. The copy c made is left. */
  lemma RouteCopyLeaks(b: Bind, c: Bind, source: ObjectKey, target: ObjectKey) returns (s: State, r: State)
    requires b != c && '.' !in b.ns && '.' !in c.ns && Listable(target.kind) && !Listable(source.kind)
    ensures Initial(s) && Leads(map[target := source], s, Life(b, target) + Life(c, target), r)
    ensures r.binds == map[] && target in r.objects && OfType(r.objects[target], "copy")
  {
    hide Managed, OfType, Touched, Leads, Marked, Listable, Life, CleanLabels;
    var top: Topology := map[target := source];
    s := State(map[source := map[]], map[], {});
    NoLabels();
    var s1 := LiveOut(top, s, b, source, target);
    OnlyManager(map[], b, source.kind);
    var labels := s1.objects[source];
    r := LiveOut(top, s1, c, source, target);
    LeadsOn(top, s, Life(b, target), s1, Life(c, target), r);
    BothMarked(b, c, source.kind, "copy");
    SharedIsUpdated(Marked(labels, c, source.kind, "copy"), c, b);
  }
}
