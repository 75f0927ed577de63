/**
 Leaving, on values: what one uninstall does to the Subscriptions and when it succeeds, what a
 whole pass over a request's registries does, and what is left behind
 (controllers/operandrequest/reconcile_operator.go). What the API server answers is an input;
 each uninstall reads, decides and writes one Subscription as one step.
 */
module Cleanup {
  import opened Annotations
  import opened Uninstall
  import Index = RegistryIndex
  import S = Subscriptions

  datatype Id = Id(ns: string, name: string)

  datatype Sub = Sub(package: string, labels: map<string, string>, annotations: map<string, string>)

  type Subs = map<Id, Sub>

  /** Where a registry keeps an operator: the namespaces searched, the package. */
  datatype Place = Place(op: string, operatorNs: string, servicesNs: string, package: string, noop: bool)

  predicate Candidate(subs: Subs, id: Id, p: Place) {
    id in subs && id.ns in {p.operatorNs, p.servicesNs} && (id.name == p.op || subs[id].package == p.package)
  }

  predicate Labelled(sub: Sub) {
    S.OPREQ_LABEL in sub.labels
  }

  predicate Spared(sub: Sub) {
    S.NOT_UNINSTALL_LABEL in sub.labels && sub.labels[S.NOT_UNINSTALL_LABEL] == "true"
  }

  /** What the API server does during one uninstall: whether the registry's operator is resolved the
      first and the second time, the lists can be read, there are CSVs, the operands go, the CSVs
      go, the write succeeds. */
  datatype Fate =
    | Unfinished
    | Finished(resolved: bool, found: bool, listed: bool, csvsListed: bool, csvs: bool, cleaned: bool,
               csvsDeleted: bool, written: bool)

  /** An uninstall ends well, with an error, or by stopping the whole process. */
  datatype Ending = Fine | Failed | Crashed

  // ---------------------------------------------------------------------------------------
  // One managed operator

  function FlagsOf(sub: Sub, id: Id, t: Registrant, noop: bool): Flags {
    UninstallFlags(sub.annotations, t, id.ns, S.ControlledBy(sub.labels), noop)
  }

  /** The do-not-uninstall label keeps the Subscription, and t's registration with it. */
  predicate KeptBack(sub: Sub, id: Id, t: Registrant, noop: bool, fate: Fate)
    requires fate.Finished?
  {
    fate.csvs && FlagsOf(sub, id, t, noop).operator && Spared(sub)
  }

  /** t can leave this labelled Subscription. */
  predicate CanLeave(sub: Sub, id: Id, t: Registrant, noop: bool, fate: Fate)
    requires fate.Finished?
  {
    var flags := FlagsOf(sub, id, t, noop);
    if !flags.operator && !flags.operand then fate.written
    else
      && fate.csvsListed
      && (fate.csvs && flags.operand ==> fate.cleaned)
      && (KeptBack(sub, id, t, noop, fate) || ((fate.csvs && flags.operator ==> fate.csvsDeleted) && fate.written))
  }

  ghost predicate AtMostOne(subs: Subs, p: Place) {
    forall i, j | Candidate(subs, i, p) && Candidate(subs, j, p) :: i == j
  }

  /** When the uninstall reports no error. */
  ghost predicate Succeeds(subs: Subs, t: Registrant, p: Place, fate: Fate)
    requires fate.Finished?
  {
    fate.found ==>
      && fate.listed && AtMostOne(subs, p)
      && forall id | Candidate(subs, id, p) && Labelled(subs[id]) :: CanLeave(subs[id], id, t, p.noop, fate)
  }

  predicate Leaves(subs: Subs, id: Id, t: Registrant, p: Place, fate: Fate)
    requires fate.Finished?
  {
    Candidate(subs, id, p) && Labelled(subs[id]) && !KeptBack(subs[id], id, t, p.noop, fate)
  }

  /** What it leaves of the Subscriptions; an error leaves them all. */
  ghost function Afterwards(subs: Subs, t: Registrant, p: Place, fate: Fate): Subs
    requires fate.Finished?
  {
    if !fate.found || !Succeeds(subs, t, p, fate) then subs
    else
      map id | id in subs && !(Leaves(subs, id, t, p, fate) && FlagsOf(subs[id], id, t, p.noop).operator) ::
        if Leaves(subs, id, t, p, fate) then subs[id].(annotations := subs[id].annotations - OwnKeys(t)) else subs[id]
  }

  /** Some labelled Subscription of the place still lists t. */
  ghost predicate Lingers(subs: Subs, t: Registrant, p: Place) {
    exists id | Candidate(subs, id, p) && Labelled(subs[id]) :: !(OwnKeys(t) !! subs[id].annotations.Keys)
  }

  /** Some labelled Subscription that lists t is kept back. */
  ghost predicate KeepsBack(subs: Subs, t: Registrant, p: Place, fate: Fate)
    requires fate.Finished?
  {
    exists id | Candidate(subs, id, p) && Labelled(subs[id]) ::
      !(OwnKeys(t) !! subs[id].annotations.Keys) && KeptBack(subs[id], id, t, p.noop, fate)
  }

  /** An uninstall without error leaves a registration behind exactly when the operator was not
      resolved or the Subscription that lists it is kept back. */
  lemma LeftBehindExactly(subs: Subs, t: Registrant, p: Place, fate: Fate)
    requires fate.Finished? && Succeeds(subs, t, p, fate)
    ensures Lingers(Afterwards(subs, t, p, fate), t, p) <==>
      if fate.found then KeepsBack(subs, t, p, fate) else Lingers(subs, t, p)
  {
    hide CanLeave, KeptBack, FlagsOf, OwnKeys;
    if fate.found {
      var now := Afterwards(subs, t, p, fate);
      forall id | Candidate(now, id, p) ensures Candidate(subs, id, p) {}
      if id :| Candidate(subs, id, p) && Labelled(subs[id]) && !(OwnKeys(t) !! subs[id].annotations.Keys)
               && KeptBack(subs[id], id, t, p.noop, fate) {
        assert !Leaves(subs, id, t, p, fate);
        assert Candidate(now, id, p) && now[id] == subs[id];
      }
    }
  }

  /** Nothing is dropped before its operands and CSVs are gone, and nothing at all after an error. */
  lemma CleanedFirst(subs: Subs, t: Registrant, p: Place, fate: Fate, id: Id)
    requires fate.Finished? && id in subs
    requires id !in Afterwards(subs, t, p, fate) || Afterwards(subs, t, p, fate)[id] != subs[id]
    ensures Succeeds(subs, t, p, fate) && fate.found && fate.written
    ensures FlagsOf(subs[id], id, t, p.noop).operand && fate.csvs ==> fate.cleaned
    ensures FlagsOf(subs[id], id, t, p.noop).operator && fate.csvs ==> fate.csvsDeleted
    ensures id !in Afterwards(subs, t, p, fate) <==> FlagsOf(subs[id], id, t, p.noop).operator
  {
    hide FlagsOf, OwnKeys;
  }

  predicate IsTrue(labels: map<string, string>, key: string) {
    key in labels && labels[key] == "true"
  }

  /** What can go wrong for a labelled Subscription. */
  predicate GoesWrong(sub: Sub, ns: string, t: Registrant, noop: bool, fate: Fate)
    requires fate.Finished?
  {
    var flags := UninstallFlags(sub.annotations, t, ns, IsTrue(sub.labels, S.OPREQ_LABEL), noop);
    if flags == Flags(false, false) then !fate.written
    else
      || !fate.csvsListed
      || (fate.csvs && flags.operand && !fate.cleaned)
      || (fate.csvs && flags.operator && !IsTrue(sub.labels, S.NOT_UNINSTALL_LABEL) && !fate.csvsDeleted)
      || (!(fate.csvs && flags.operator && IsTrue(sub.labels, S.NOT_UNINSTALL_LABEL)) && !fate.written)
  }

  /** An uninstall fails exactly when the Subscriptions cannot be listed, are ambiguous, or something goes
      wrong for the labelled one. Otherwise that one is deleted when the operator is flagged, loses t's
      keys when it is not, and is kept as it is when CSVs are found and the label spares it; nothing
      else changes. */
  lemma UninstallOutcome(subs: Subs, t: Registrant, p: Place, fate: Fate)
    requires fate.Finished?
    ensures Succeeds(subs, t, p, fate) <==> fate.found ==>
      && fate.listed
      && !(exists i, j :: i != j && Candidate(subs, i, p) && Candidate(subs, j, p))
      && !(exists id | Candidate(subs, id, p) :: S.OPREQ_LABEL in subs[id].labels && GoesWrong(subs[id], id.ns, t, p.noop, fate))
    ensures var now := Afterwards(subs, t, p, fate);
      && (forall id | id in now :: id in subs)
      && forall id | id in subs ::
           var operator := UninstallFlags(subs[id].annotations, t, id.ns, IsTrue(subs[id].labels, S.OPREQ_LABEL), p.noop).operator;
           if !fate.found || !Succeeds(subs, t, p, fate) || !Candidate(subs, id, p) || S.OPREQ_LABEL !in subs[id].labels
              || (fate.csvs && operator && IsTrue(subs[id].labels, S.NOT_UNINSTALL_LABEL))
           then id in now && now[id] == subs[id]
           else if operator then id !in now
           else id in now && now[id] == subs[id].(annotations := subs[id].annotations - OwnKeys(t))
  {
    hide UninstallFlags, OwnKeys;
    if !Succeeds(subs, t, p, fate) && fate.listed && AtMostOne(subs, p) {
      var id :| Candidate(subs, id, p) && S.OPREQ_LABEL in subs[id].labels && !CanLeave(subs[id], id, t, p.noop, fate);
      assert GoesWrong(subs[id], id.ns, t, p.noop, fate);
    }
  }

  /** A Subscription with the do-not-uninstall label is deleted exactly by an uninstall that goes through,
      flags the operator and finds no CSVs. */
  lemma SparedIsDeletedExactly(subs: Subs, t: Registrant, p: Place, fate: Fate, id: Id)
    requires fate.Finished? && id in subs && Spared(subs[id])
    ensures id !in Afterwards(subs, t, p, fate) <==>
      && Succeeds(subs, t, p, fate) && fate.found && !fate.csvs
      && Candidate(subs, id, p) && Labelled(subs[id]) && FlagsOf(subs[id], id, t, p.noop).operator
  {
    hide CanLeave, FlagsOf, OwnKeys;
  }

  // ---------------------------------------------------------------------------------------
  // Operators the user manages, or that were not resolved

  /** The requests an operator's registry status lists, if it lists any. */
  datatype Readers = NoStatus | Readers(keys: seq<Index.Key>)

  /** Operands go when the one reader has the request's name; its namespace is not looked at. */
  predicate OnlyReader(readers: Readers, name: string) {
    readers.Readers? && |readers.keys| == 1 && readers.keys[0].name == name
  }

  function ReadersEnding(readers: Readers, name: string, fate: Fate): Ending
    requires fate.Finished?
  {
    if !fate.found || readers.NoStatus? || |readers.keys| > 1 then Fine
    else if readers.keys == [] then Crashed
    else if !fate.csvsListed || (fate.csvs && OnlyReader(readers, name) && !fate.cleaned) then Failed
    else Fine
  }

  /** Against an index that lists whoever asks, each once: the operands are taken from somebody who
      still asks exactly when the only one who asks is a request of that name in another namespace. */
  lemma MisledExactly(readers: seq<Index.Key>, all: seq<Index.Request>, registry: Index.Key, o: string, me: Index.Key)
    requires forall k :: multiset(readers)[k] == if Index.Asked(all, registry, o, k) then 1 else 0
    ensures (OnlyReader(Readers(readers), me.name) && exists k :: k != me && Index.Asked(all, registry, o, k)) <==>
      exists ns | ns != me.ns :: forall k :: Index.Asked(all, registry, o, k) <==> k == Index.Key(ns, me.name)
  {
    hide Index.Asked;
    forall k ensures k in readers <==> Index.Asked(all, registry, o, k) {
      assert k in readers <==> multiset(readers)[k] > 0;
    }
    if ns :| ns != me.ns && forall k :: Index.Asked(all, registry, o, k) <==> k == Index.Key(ns, me.name) {
      OnlyOne(readers, Index.Key(ns, me.name));
    }
    if OnlyReader(Readers(readers), me.name) {
      if k :| k != me && Index.Asked(all, registry, o, k) {
        assert readers == [k] && k == Index.Key(k.ns, me.name);
      }
    }
  }

  lemma OnlyOne(readers: seq<Index.Key>, k: Index.Key)
    requires forall j :: multiset(readers)[j] == if j == k then 1 else 0
    ensures readers == [k]
  {
    assert multiset(readers) == multiset{k};
    assert |readers| == |multiset(readers)| == 1;
    assert readers[0] in multiset(readers);
  }

  /** ns2/foo is the only one who asks; ns1/foo, which no longer does, has its operands deleted. */
  lemma NamesakeMisleads(registry: Index.Key, o: string)
    returns (all: seq<Index.Request>, readers: seq<Index.Key>, me: Index.Key)
    requires registry.ns != ""
    ensures forall k :: multiset(readers)[k] == if Index.Asked(all, registry, o, k) then 1 else 0
    ensures !Index.Asked(all, registry, o, me) && OnlyReader(Readers(readers), me.name)
    ensures exists k :: k != me && Index.Asked(all, registry, o, k)
  {
    var other := Index.Key("ns2", "foo");
    var b := Index.Block(registry.name, registry.ns, [o]);
    var r := Index.Request(other, [b]);
    all, readers, me := [r], [other], Index.Key("ns1", "foo");
    assert b in r.blocks && Index.GetRegistryKey(r, b) == registry && o in b.operands;
    assert r in all && Index.AsksFor(r, registry, o);
  }

  // ---------------------------------------------------------------------------------------
  // One registry block

  /** What a registry's spec and status say of an operand. */
  datatype Entry = Missing | Known(place: Place, userManaged: bool, readers: Readers)

  datatype Block =
    | Unreadable
    | Readable(entries: map<string, Entry>, fates: map<string, Fate>, slow: bool)

  type Request = Index.Key

  function EntryOf(b: Block, o: string): Entry
    requires b.Readable?
  {
    if o in b.entries then b.entries[o] else Missing
  }

  function AsRegistrant(r: Request, o: string): Registrant {
    Registrant(r.ns, r.name, o)
  }

  /** Every operand has a fate; one that does not finish makes the block run into the timeout. */
  predicate Covers(b: Block, needed: set<string>) {
    b.Readable? ==> forall o | o in needed :: o in b.fates && (b.fates[o].Unfinished? ==> b.slow)
  }

  /** The operator is ODLM's and was resolved when it was first looked up. */
  predicate TakesDown(e: Entry, fate: Fate) {
    e.Known? && !e.userManaged && fate.Finished? && fate.resolved
  }

  ghost function EndingOf(subs: Subs, r: Request, o: string, e: Entry, fate: Fate): Ending
    requires fate.Finished?
  {
    if TakesDown(e, fate) then if Succeeds(subs, AsRegistrant(r, o), e.place, fate) then Fine else Failed
    else if e.Known? then ReadersEnding(e.readers, r.name, fate)
    else Fine
  }

  ghost function SubsAfter(subs: Subs, r: Request, o: string, e: Entry, fate: Fate): Subs {
    if TakesDown(e, fate) then Afterwards(subs, AsRegistrant(r, o), e.place, fate) else subs
  }

  datatype Ran = Ran(subs: Subs, done: set<string>, crashed: bool)

  /** The block's uninstalls in the order they take effect; done are those that ended well. */
  ghost function BlockRun(subs: Subs, r: Request, b: Block, order: seq<string>): Ran
    requires b.Readable? && forall o | o in order :: o in b.fates
  {
    if order == [] then Ran(subs, {}, false)
    else
      var last := order[|order| - 1];
      var ran := BlockRun(subs, r, b, order[..|order| - 1]);
      NextRun(ran, r, b, last)
  }

  ghost function NextRun(ran: Ran, r: Request, b: Block, o: string): Ran
    requires b.Readable? && o in b.fates
  {
    if ran.crashed || b.fates[o].Unfinished? then ran
    else
      match EndingOf(ran.subs, r, o, EntryOf(b, o), b.fates[o])
      case Crashed => ran.(crashed := true)
      case Failed => ran
      case Fine => Ran(SubsAfter(ran.subs, r, o, EntryOf(b, o), b.fates[o]), ran.done + {o}, false)
  }

  /** The one reader's operands cannot be cleaned. */
  ghost predicate NotCleaned(readers: Readers, r: Request, fate: Fate)
    requires fate.Finished?
  {
    exists k :: fate.found && readers == Readers([k]) && (!fate.csvsListed || (fate.csvs && k.name == r.name && !fate.cleaned))
  }

  /** One more uninstall in a block: whether it is reported as done, stops the process, and what becomes
      of the Subscriptions, for an operand the registry does not know, one the user manages or that was
      not resolved, and one of ODLM's. */
  lemma OneMoreUninstall(subs: Subs, r: Request, b: Block, before: seq<string>, o: string)
    requires b.Readable? && o in b.fates && forall q | q in before :: q in b.fates
    ensures var was, ran, fate := BlockRun(subs, r, b, before), BlockRun(subs, r, b, before + [o]), b.fates[o];
      if was.crashed || fate.Unfinished? then ran == was
      else if o !in b.entries || b.entries[o].Missing? then ran == was.(done := was.done + {o})
      else
        var Known(place, userManaged, readers) := b.entries[o];
        var t := Registrant(r.ns, r.name, o);
        if userManaged || !fate.resolved then
          && ran.subs == was.subs
          && (ran.crashed <==> fate.found && readers == Readers([]))
          && ran.done == if ran.crashed || NotCleaned(readers, r, fate) then was.done else was.done + {o}
        else
          && !ran.crashed && ran.subs == Afterwards(was.subs, t, place, fate)
          && ran.done == if Succeeds(was.subs, t, place, fate) then was.done + {o} else was.done
  {
    hide Succeeds, Afterwards;
    assert (before + [o])[..|before|] == before;
    var was := BlockRun(subs, r, b, before);
    if !was.crashed && b.fates[o].Finished? && o in b.entries && b.entries[o].Known? {
      var e, t := b.entries[o], Registrant(r.ns, r.name, o);
      if !Succeeds(was.subs, t, e.place, b.fates[o]) { UnchangedOnFailure(was.subs, t, e.place, b.fates[o]); }
      if e.readers.Readers? && |e.readers.keys| == 1 { assert e.readers == Readers([e.readers.keys[0]]); }
    }
  }

  lemma UnchangedOnFailure(subs: Subs, t: Registrant, p: Place, fate: Fate)
    requires fate.Finished? && !Succeeds(subs, t, p, fate)
    ensures Afterwards(subs, t, p, fate) == subs
  {
  }

  /** The Subscription is meant by an operand whose operator ODLM manages and that was resolved. */
  ghost predicate Meant(subs: Subs, b: Block, o: string, id: Id) {
    && b.Readable? && o in b.entries && b.entries[o].Known? && !b.entries[o].userManaged
    && o in b.fates && b.fates[o].Finished? && b.fates[o].resolved
    && Candidate(subs, id, b.entries[o].place)
  }

  /** The Subscription is as it was. */
  predicate Same(was: Subs, now: Subs, id: Id) {
    (id in now <==> id in was) && (id in was ==> now[id] == was[id])
  }

  /** A block leaves every other Subscription alone. */
  lemma {:induction false} OthersAreLetAlone(subs: Subs, r: Request, b: Block, order: seq<string>, id: Id)
    requires b.Readable? && (forall o | o in order :: o in b.fates) && forall o | o in order :: !Meant(subs, b, o, id)
    ensures Same(subs, BlockRun(subs, r, b, order).subs, id)
    decreases |order|
  {
    hide Succeeds, Afterwards;
    if order != [] {
      var before, o := order[..|order| - 1], order[|order| - 1];
      assert order == before + [o];
      OthersAreLetAlone(subs, r, b, before, id);
      OneMoreUninstall(subs, r, b, before, o);
      if o in b.entries && b.entries[o].Known? && !b.entries[o].userManaged && b.fates[o].Finished? && b.fates[o].resolved {
        assert !Meant(subs, b, o, id);
        NoCandidateNoChange(BlockRun(subs, r, b, before).subs, Registrant(r.ns, r.name, o), b.entries[o].place, b.fates[o], id);
      }
    }
  }

  lemma NoCandidateNoChange(subs: Subs, t: Registrant, p: Place, fate: Fate, id: Id)
    requires fate.Finished? && !Candidate(subs, id, p)
    ensures Same(subs, Afterwards(subs, t, p, fate), id)
  {
    hide Succeeds, OwnKeys, FlagsOf;
  }

  lemma {:induction false} DoneWithin(subs: Subs, r: Request, b: Block, order: seq<string>)
    requires b.Readable? && forall o | o in order :: o in b.fates
    ensures forall o | o in BlockRun(subs, r, b, order).done :: o in order
    decreases |order|
  {
    if order != [] { DoneWithin(subs, r, b, order[..|order| - 1]); }
  }

  // ---------------------------------------------------------------------------------------
  // Operands that share no Subscription: the order does not matter

  /** No Subscription is a candidate of two of the operands. */
  ghost predicate Apart(subs: Subs, b: Block, order: seq<string>)
    requires b.Readable?
  {
    && (forall i, j | 0 <= i < j < |order| :: order[i] != order[j])
    && forall o, q, id | o in order && q in order && o != q && EntryOf(b, o).Known? && EntryOf(b, q).Known? ::
         !(Candidate(subs, id, EntryOf(b, o).place) && Candidate(subs, id, EntryOf(b, q).place))
  }

  /** The same candidates, unchanged. */
  ghost predicate Agree(subs: Subs, now: Subs, p: Place) {
    forall id :: (Candidate(subs, id, p) <==> Candidate(now, id, p)) && (Candidate(subs, id, p) ==> subs[id] == now[id])
  }

  lemma AgreeSame(subs: Subs, now: Subs, t: Registrant, p: Place, fate: Fate)
    requires Agree(subs, now, p) && fate.Finished?
    ensures Succeeds(subs, t, p, fate) <==> Succeeds(now, t, p, fate)
    ensures Agree(Afterwards(subs, t, p, fate), Afterwards(now, t, p, fate), p)
  {
    hide CanLeave, KeptBack, FlagsOf, OwnKeys;
    assert AtMostOne(subs, p) <==> AtMostOne(now, p);
    var x, y := Afterwards(subs, t, p, fate), Afterwards(now, t, p, fate);
    forall id ensures (Candidate(x, id, p) <==> Candidate(y, id, p)) && (Candidate(x, id, p) ==> x[id] == y[id]) {
      assert Candidate(subs, id, p) <==> Candidate(now, id, p);
    }
  }

  /** An uninstall leaves everything but its candidates alone. */
  lemma OthersAgree(subs: Subs, now: Subs, t: Registrant, p: Place, fate: Fate, q: Place)
    requires fate.Finished? && Agree(subs, now, q)
    requires forall id :: !(Candidate(now, id, p) && Candidate(now, id, q))
    ensures Agree(subs, Afterwards(now, t, p, fate), q)
  {
    hide CanLeave, KeptBack, FlagsOf, OwnKeys;
    var x := Afterwards(now, t, p, fate);
    forall id ensures (Candidate(now, id, q) <==> Candidate(x, id, q)) && (Candidate(now, id, q) ==> now[id] == x[id]) {
      if Candidate(now, id, q) { assert !Leaves(now, id, t, p, fate); }
    }
  }

  /** Which operands' uninstalls end well, and how they end, is decided by the cluster as it was,
      each one on its own. */
  ghost predicate EndsAlone(subs: Subs, r: Request, b: Block, o: string, ending: Ending)
    requires b.Readable? && o in b.fates
  {
    b.fates[o].Finished? && EndingOf(subs, r, o, EntryOf(b, o), b.fates[o]) == ending
  }

  /** Candidates of the operands not yet uninstalled are as they were, those of the others as their
      own uninstall alone leaves them. */
  ghost predicate EachOnItsOwn(subs: Subs, r: Request, b: Block, order: seq<string>, n: nat, ran: Ran)
    requires b.Readable? && forall o | o in order :: o in b.fates
    requires n <= |order|
  {
    && !ran.crashed
    && (forall o :: o in ran.done <==> o in order[..n] && EndsAlone(subs, r, b, o, Fine))
    && (forall o | o in order && EntryOf(b, o).Known? ::
          Agree(if o in order[..n] && EndsAlone(subs, r, b, o, Fine) then SubsAfter(subs, r, o, EntryOf(b, o), b.fates[o]) else subs,
                ran.subs, EntryOf(b, o).place))
  }

  lemma OneMoreOnItsOwn(subs: Subs, r: Request, b: Block, order: seq<string>, n: nat, ran: Ran, next: Ran)
    requires b.Readable? && (forall o | o in order :: o in b.fates) && Apart(subs, b, order) && n < |order|
    requires !EndsAlone(subs, r, b, order[n], Crashed)
    requires EachOnItsOwn(subs, r, b, order, n, ran)
    requires next == NextRun(ran, r, b, order[n])
    ensures EachOnItsOwn(subs, r, b, order, n + 1, next)
  {
    hide Candidate, Succeeds, Afterwards;
    var last := order[n];
    var e, fate := EntryOf(b, last), b.fates[last];
    assert last in order && last !in order[..n] && forall o :: o in order[..n + 1] <==> o in order[..n] || o == last;
    if TakesDown(e, fate) {
      assert Agree(subs, ran.subs, e.place);
      AgreeSame(subs, ran.subs, AsRegistrant(r, last), e.place, fate);
      forall o | o in order && o != last && EntryOf(b, o).Known?
        ensures var was := if o in order[..n] && EndsAlone(subs, r, b, o, Fine) then SubsAfter(subs, r, o, EntryOf(b, o), b.fates[o]) else subs;
          Agree(was, Afterwards(ran.subs, AsRegistrant(r, last), e.place, fate), EntryOf(b, o).place)
      {
        var was := if o in order[..n] && EndsAlone(subs, r, b, o, Fine) then SubsAfter(subs, r, o, EntryOf(b, o), b.fates[o]) else subs;
        OnlyFewer(subs, r, o, EntryOf(b, o), b.fates[o], EntryOf(b, o).place);
        StillApart(subs, was, ran.subs, e.place, EntryOf(b, o).place);
        OthersAgree(was, ran.subs, AsRegistrant(r, last), e.place, fate, EntryOf(b, o).place);
      }
    }
  }

  lemma OnlyFewer(subs: Subs, r: Request, o: string, e: Entry, fate: Fate, q: Place)
    ensures forall id | Candidate(SubsAfter(subs, r, o, e, fate), id, q) :: Candidate(subs, id, q)
  {
    hide Succeeds, Leaves, OwnKeys;
  }

  /** Candidates only disappear, so places that share none go on sharing none. */
  lemma StillApart(subs: Subs, was: Subs, now: Subs, p: Place, q: Place)
    requires forall id :: !(Candidate(subs, id, p) && Candidate(subs, id, q))
    requires Agree(subs, now, p) && Agree(was, now, q)
    requires forall id | Candidate(was, id, q) :: Candidate(subs, id, q)
    ensures forall id :: !(Candidate(now, id, p) && Candidate(now, id, q))
  {
    hide Candidate;
  }

  lemma {:induction false} EachOnItsOwnRuns(subs: Subs, r: Request, b: Block, order: seq<string>, n: nat)
    requires b.Readable? && (forall o | o in order :: o in b.fates) && Apart(subs, b, order) && n <= |order|
    requires forall o | o in order :: !EndsAlone(subs, r, b, o, Crashed)
    ensures EachOnItsOwn(subs, r, b, order, n, BlockRun(subs, r, b, order[..n]))
    decreases n
  {
    if n > 0 {
      EachOnItsOwnRuns(subs, r, b, order, n - 1);
      assert order[..n][..n - 1] == order[..n - 1] && order[..n][n - 1] == order[n - 1];
      OneMoreOnItsOwn(subs, r, b, order, n - 1, BlockRun(subs, r, b, order[..n - 1]), BlockRun(subs, r, b, order[..n]));
    }
  }

  /** Where no two operands share a Subscription, an operand is uninstalled exactly when its own
      uninstall succeeds on the cluster as it was, whatever order they finish in, and its
      Subscriptions end as that one uninstall leaves them. */
  lemma OrderDoesNotMatter(subs: Subs, r: Request, b: Block, order: seq<string>)
    requires b.Readable? && (forall o | o in order :: o in b.fates) && Apart(subs, b, order)
    requires forall o | o in order :: !EndsAlone(subs, r, b, o, Crashed)
    ensures var ran := BlockRun(subs, r, b, order);
      && !ran.crashed && (forall o :: o in ran.done <==> o in order && EndsAlone(subs, r, b, o, Fine))
      && forall o | o in ran.done && EntryOf(b, o).Known? ::
           Agree(SubsAfter(subs, r, o, EntryOf(b, o), b.fates[o]), ran.subs, EntryOf(b, o).place)
  {
    hide EndsAlone, Agree, Apart;
    EachOnItsOwnRuns(subs, r, b, order, |order|);
    assert order[..|order|] == order;
  }

  /** The operator is known to be ODLM's but was not resolved, or it is kept back. */
  ghost predicate LeftBehind(subs: Subs, r: Request, o: string, e: Entry, fate: Fate)
    requires e.Known? && fate.Finished?
  {
    if fate.resolved && fate.found then KeepsBack(subs, AsRegistrant(r, o), e.place, fate)
    else Lingers(subs, AsRegistrant(r, o), e.place)
  }

  /** After such a block, an operand uninstalled without error is still listed exactly when its
      operator was not resolved, once or twice, or its Subscription is kept back. */
  lemma StillListedExactly(subs: Subs, r: Request, b: Block, order: seq<string>, o: string)
    requires b.Readable? && (forall o | o in order :: o in b.fates) && Apart(subs, b, order)
    requires forall o | o in order :: !EndsAlone(subs, r, b, o, Crashed)
    requires o in BlockRun(subs, r, b, order).done && EntryOf(b, o).Known? && !EntryOf(b, o).userManaged
    ensures o in order && b.fates[o].Finished?
    ensures Lingers(BlockRun(subs, r, b, order).subs, AsRegistrant(r, o), EntryOf(b, o).place) <==>
      LeftBehind(subs, r, o, EntryOf(b, o), b.fates[o])
  {
    hide Apart, Succeeds, Afterwards, Candidate, KeepsBack;
    OrderDoesNotMatter(subs, r, b, order);
    var t, e, fate := AsRegistrant(r, o), EntryOf(b, o), b.fates[o];
    var after := SubsAfter(subs, r, o, e, fate);
    LingersAgree(after, BlockRun(subs, r, b, order).subs, t, e.place);
    if fate.resolved {
      LeftBehindExactly(subs, t, e.place, fate);
    }
  }

  lemma LingersAgree(subs: Subs, now: Subs, t: Registrant, p: Place)
    requires Agree(subs, now, p)
    ensures Lingers(subs, t, p) <==> Lingers(now, t, p)
  {
    hide OwnKeys;
  }

  // ---------------------------------------------------------------------------------------
  // A pass over all blocks

  datatype Pass = Pass(subs: Subs, done: seq<set<string>>, ok: bool, crashed: bool)

  /** Each block's uninstalls in its own order; the first block that fails ends the pass. */
  ghost function PassRun(subs: Subs, r: Request, needed: set<string>, blocks: seq<Block>, orders: seq<seq<string>>, n: nat): Pass
    requires n <= |blocks| && Ordered(blocks, needed, orders)
  {
    if n == 0 then Pass(subs, [], true, false)
    else
      var pass := PassRun(subs, r, needed, blocks, orders, n - 1);
      if !pass.ok then pass
      else if blocks[n - 1].Unreadable? then pass.(ok := false)
      else
        assert blocks[n - 1] in blocks && Listed(orders[n - 1], needed);
        var ran := BlockRun(pass.subs, r, blocks[n - 1], orders[n - 1]);
        Pass(ran.subs, pass.done + [ran.done], ran.done == needed && !blocks[n - 1].slow && !ran.crashed, ran.crashed)
  }

  /** Every block is given an order of all operands needed, and fates for them. */
  ghost predicate Ordered(blocks: seq<Block>, needed: set<string>, orders: seq<seq<string>>) {
    && |orders| == |blocks|
    && (forall b | b in blocks :: Covers(b, needed))
    && forall i | 0 <= i < |orders| :: Listed(orders[i], needed)
  }

  ghost predicate Listed(order: seq<string>, needed: set<string>) {
    && (forall o :: o in order <==> o in needed)
    && (forall i, j | 0 <= i < j < |order| :: order[i] != order[j])
  }

  /** What some block uninstalled. */
  function Union(done: seq<set<string>>): set<string> {
    set finished, o | finished in done && o in finished :: o
  }

  /** Whoever leaves was uninstalled against every block. */
  ghost predicate NothingLost(done: seq<set<string>>, n: nat) {
    forall o | o in Union(done) :: |done| == n && forall i | 0 <= i < n :: o in done[i]
  }

  /** A pass stops at the first block that fails, and has done no more than was needed. */
  lemma {:induction false} PassShape(subs: Subs, r: Request, needed: set<string>, blocks: seq<Block>, orders: seq<seq<string>>, n: nat)
    requires n <= |blocks| && Ordered(blocks, needed, orders)
    ensures var pass := PassRun(subs, r, needed, blocks, orders, n);
      && |pass.done| <= n && (forall i | 0 <= i < |pass.done| :: pass.done[i] <= needed)
      && (pass.crashed ==> !pass.ok)
      && (pass.ok ==> |pass.done| == n && forall i | 0 <= i < n :: pass.done[i] == needed && blocks[i].Readable? && !blocks[i].slow)
    decreases n
  {
    hide BlockRun;
    if n > 0 {
      PassShape(subs, r, needed, blocks, orders, n - 1);
      var pass := PassRun(subs, r, needed, blocks, orders, n - 1);
      assert blocks[n - 1] in blocks && Listed(orders[n - 1], needed);
      if pass.ok && blocks[n - 1].Readable? { DoneWithin(pass.subs, r, blocks[n - 1], orders[n - 1]); }
    }
  }

  /** After the first block that fails nothing changes any more. */
  lemma {:induction false} PassEnds(subs: Subs, r: Request, needed: set<string>, blocks: seq<Block>, orders: seq<seq<string>>, m: nat, n: nat)
    requires m <= n <= |blocks| && Ordered(blocks, needed, orders) && !PassRun(subs, r, needed, blocks, orders, m).ok
    ensures PassRun(subs, r, needed, blocks, orders, n) == PassRun(subs, r, needed, blocks, orders, m)
    decreases n
  {
    if m < n { PassEnds(subs, r, needed, blocks, orders, m, n - 1); }
  }

  /** One block of a pass. */
  lemma OneMoreBlock(subs: Subs, r: Request, needed: set<string>, blocks: seq<Block>, orders: seq<seq<string>>, n: nat)
    requires n < |blocks| && Ordered(blocks, needed, orders)
    ensures var was, now := PassRun(subs, r, needed, blocks, orders, n), PassRun(subs, r, needed, blocks, orders, n + 1);
      if !was.ok then now == was
      else if blocks[n].Unreadable? then now == Pass(was.subs, was.done, false, was.crashed)
      else
        && Covers(blocks[n], needed) && Listed(orders[n], needed)
        && var ran := BlockRun(was.subs, r, blocks[n], orders[n]);
           now == Pass(ran.subs, was.done + [ran.done], !blocks[n].slow && !ran.crashed && ran.done == needed, ran.crashed)
  {
    hide BlockRun;
    assert blocks[n] in blocks;
  }

  /** The block could be read, did not run into the timeout or stop the process, and uninstalled everyone. */
  ghost predicate GoesThrough(subs: Subs, r: Request, needed: set<string>, b: Block, order: seq<string>)
    requires Covers(b, needed) && Listed(order, needed)
  {
    b.Readable? && !b.slow && var ran := BlockRun(subs, r, b, order); ran.done == needed && !ran.crashed
  }

  /** A pass goes through exactly when all its blocks do, each on what the ones before left. */
  lemma {:induction false} PassOkExactly(subs: Subs, r: Request, needed: set<string>, blocks: seq<Block>, orders: seq<seq<string>>, n: nat)
    requires n <= |blocks| && Ordered(blocks, needed, orders)
    ensures PassRun(subs, r, needed, blocks, orders, n).ok <==>
      forall i | 0 <= i < n :: blocks[i] in blocks && Listed(orders[i], needed) &&
        GoesThrough(PassRun(subs, r, needed, blocks, orders, i).subs, r, needed, blocks[i], orders[i])
    decreases n
  {
    hide BlockRun, PassRun, Listed, Covers;
    if n > 0 {
      PassOkExactly(subs, r, needed, blocks, orders, n - 1);
      OneMoreBlock(subs, r, needed, blocks, orders, n - 1);
      assert blocks[n - 1] in blocks;
    } else {
      assert PassRun(subs, r, needed, blocks, orders, 0).ok by { NoBlockYet(subs, r, needed, blocks, orders); }
    }
  }

  lemma NoBlockYet(subs: Subs, r: Request, needed: set<string>, blocks: seq<Block>, orders: seq<seq<string>>)
    requires Ordered(blocks, needed, orders)
    ensures PassRun(subs, r, needed, blocks, orders, 0) == Pass(subs, [], true, false)
  {
  }

  /** A pass leaves every Subscription alone that no operand needed to go means in any block. */
  lemma {:induction false} PassLetsOthersAlone(subs: Subs, r: Request, needed: set<string>, blocks: seq<Block>, orders: seq<seq<string>>, n: nat, id: Id)
    requires n <= |blocks| && Ordered(blocks, needed, orders)
    requires forall b, o | b in blocks && o in needed :: !Meant(subs, b, o, id)
    ensures Same(subs, PassRun(subs, r, needed, blocks, orders, n).subs, id)
    decreases n
  {
    hide BlockRun;
    if n > 0 {
      PassLetsOthersAlone(subs, r, needed, blocks, orders, n - 1, id);
      OneMoreBlock(subs, r, needed, blocks, orders, n - 1);
      var was, b := PassRun(subs, r, needed, blocks, orders, n - 1), blocks[n - 1];
      assert b in blocks;
      if was.ok && b.Readable? {
        forall o | o in orders[n - 1] ensures !Meant(was.subs, b, o, id) { assert !Meant(subs, b, o, id); }
        OthersAreLetAlone(was.subs, r, b, orders[n - 1], id);
      }
    }
  }

  ghost predicate LosesNothing(subs: Subs, r: Request, needed: set<string>, blocks: seq<Block>, orders: seq<seq<string>>) {
    Ordered(blocks, needed, orders) ==> NothingLost(PassRun(subs, r, needed, blocks, orders, |blocks|).done, |blocks|)
  }

  /** No pass over n blocks loses a cleanup, whatever fails, exactly when there is at most one block or
      nothing needs to go. */
  lemma NoLostCleanup(subs: Subs, r: Request, n: nat, needed: set<string>)
    ensures (forall blocks: seq<Block>, orders | |blocks| == n :: LosesNothing(subs, r, needed, blocks, orders)) <==>
      n <= 1 || needed == {}
  {
    if n <= 1 || needed == {} {
      forall blocks: seq<Block>, orders | |blocks| == n ensures LosesNothing(subs, r, needed, blocks, orders) {
        if Ordered(blocks, needed, orders) {
          PassShape(subs, r, needed, blocks, orders, n);
        }
      }
    } else {
      var blocks, orders := SecondBlockUnreadable(subs, r, n, needed);
      assert !LosesNothing(subs, r, needed, blocks, orders);
    }
  }

  /** The first registry is read and answers for everyone, the second cannot be read: everyone leaves
      although the second block was never looked at. */
  lemma SecondBlockUnreadable(subs: Subs, r: Request, n: nat, needed: set<string>)
    returns (blocks: seq<Block>, orders: seq<seq<string>>)
    requires n > 1 && needed != {}
    ensures |blocks| == n && Ordered(blocks, needed, orders)
    ensures PassRun(subs, r, needed, blocks, orders, n) == Pass(subs, [needed], false, false)
    ensures !NothingLost([needed], n)
  {
    var fate := Finished(true, true, true, true, true, true, true, true);
    var first := Readable(map[], map o | o in needed :: fate, false);
    blocks := [first] + seq(n - 1, i => Unreadable);
    var order := ListingOf(needed);
    orders := seq(n, i => order);
    NobodyKnown(subs, r, first, order);
    assert blocks[0] == first && blocks[1] == Unreadable && orders[0] == order;
    assert PassRun(subs, r, needed, blocks, orders, 0) == Pass(subs, [], true, false);
    assert PassRun(subs, r, needed, blocks, orders, 1) == Pass(subs, [needed], true, false);
    assert PassRun(subs, r, needed, blocks, orders, 2) == Pass(subs, [needed], false, false);
    PassEnds(subs, r, needed, blocks, orders, 2, n);
    var o :| o in needed;
    assert needed in [needed] && o in Union([needed]);
  }

  lemma {:induction false} ListingOf(s: set<string>) returns (order: seq<string>)
    ensures Listed(order, s)
    decreases s
  {
    if s == {} { return []; }
    var o :| o in s;
    var rest := ListingOf(s - {o});
    order := rest + [o];
  }

  /** A registry that knows none of the operands lets all of them go. */
  lemma {:induction false} NobodyKnown(subs: Subs, r: Request, b: Block, order: seq<string>)
    requires b.Readable? && b.entries == map[] && forall o | o in order :: o in b.fates && b.fates[o].Finished?
    ensures BlockRun(subs, r, b, order) == Ran(subs, set o | o in order, false)
    decreases |order|
  {
    if order != [] {
      var before := order[..|order| - 1];
      NobodyKnown(subs, r, b, before);
      assert forall o :: o in order <==> o in before || o == order[|order| - 1];
    }
  }

  // ---------------------------------------------------------------------------------------
  // What a pass that went through leaves

  /** No Subscription of the place lists t, save those that are nobody's or carry the label. */
  ghost predicate Released(subs: Subs, t: Registrant, p: Place) {
    forall id | Candidate(subs, id, p) && Labelled(subs[id]) && !Spared(subs[id]) :: OwnKeys(t) !! subs[id].annotations.Keys
  }

  /** Nothing was added. */
  predicate Shrunk(was: Subs, now: Subs) {
    forall id | id in now :: id in was && now[id].package == was[id].package && now[id].labels == was[id].labels &&
      now[id].annotations.Keys <= was[id].annotations.Keys
  }

  /** The registry resolves the operand to an operator of ODLM's, both times it is asked. */
  predicate Resolved(b: Block, o: string) {
    && b.Readable? && o in b.entries && o in b.fates && b.fates[o].Finished?
    && b.entries[o].Known? && !b.entries[o].userManaged && b.fates[o].resolved && b.fates[o].found
  }

  ghost predicate AllReleased(subs: Subs, r: Request, b: Block, done: set<string>) {
    forall o | o in done && Resolved(b, o) :: Released(subs, AsRegistrant(r, o), EntryOf(b, o).place)
  }

  lemma StaysReleased(was: Subs, now: Subs, t: Registrant, p: Place)
    requires Released(was, t, p) && Shrunk(was, now)
    ensures Released(now, t, p)
  {
    hide OwnKeys;
    forall id | Candidate(now, id, p) && Labelled(now[id]) && !Spared(now[id])
      ensures OwnKeys(t) !! now[id].annotations.Keys
    {
      assert Candidate(was, id, p);
    }
  }

  lemma SuccessReleases(subs: Subs, t: Registrant, p: Place, fate: Fate)
    requires fate.Finished?
    ensures Shrunk(subs, Afterwards(subs, t, p, fate))
    ensures fate.found && Succeeds(subs, t, p, fate) ==> Released(Afterwards(subs, t, p, fate), t, p)
  {
    hide CanLeave, FlagsOf, OwnKeys;
  }

  lemma {:induction false} BlockReleases(subs: Subs, r: Request, b: Block, order: seq<string>)
    requires b.Readable? && forall o | o in order :: o in b.fates
    ensures var ran := BlockRun(subs, r, b, order); Shrunk(subs, ran.subs) && AllReleased(ran.subs, r, b, ran.done)
    decreases |order|
  {
    hide Released, Succeeds, Afterwards;
    if order != [] {
      var before, last := order[..|order| - 1], order[|order| - 1];
      BlockReleases(subs, r, b, before);
      var ran := BlockRun(subs, r, b, before);
      var e := EntryOf(b, last);
      if b.fates[last].Finished? && e.Known? {
        SuccessReleases(ran.subs, AsRegistrant(r, last), e.place, b.fates[last]);
      }
      AllStayReleased(ran.subs, SubsAfter(ran.subs, r, last, e, b.fates[last]), r, b, ran.done);
    }
  }

  lemma AllStayReleased(was: Subs, now: Subs, r: Request, b: Block, done: set<string>)
    requires AllReleased(was, r, b, done) && Shrunk(was, now)
    ensures AllReleased(now, r, b, done)
  {
    hide Released, Shrunk;
    forall o | o in done && Resolved(b, o)
      ensures Released(now, AsRegistrant(r, o), EntryOf(b, o).place)
    {
      StaysReleased(was, now, AsRegistrant(r, o), EntryOf(b, o).place);
    }
  }

  /** Whatever the number of blocks and the order of uninstalls: when a pass goes through, no
      Subscription lists an operand that was resolved, save those the label keeps. */
  lemma {:induction false} PassReleases(subs: Subs, r: Request, needed: set<string>, blocks: seq<Block>, orders: seq<seq<string>>, n: nat)
    requires n <= |blocks| && Ordered(blocks, needed, orders) && PassRun(subs, r, needed, blocks, orders, n).ok
    ensures forall i | 0 <= i < n :: AllReleased(PassRun(subs, r, needed, blocks, orders, n).subs, r, blocks[i], needed)
    decreases n
  {
    hide AllReleased, Shrunk, BlockRun;
    if n > 0 {
      PassReleases(subs, r, needed, blocks, orders, n - 1);
      assert blocks[n - 1] in blocks && Listed(orders[n - 1], needed);
      var pass := PassRun(subs, r, needed, blocks, orders, n - 1);
      BlockReleases(pass.subs, r, blocks[n - 1], orders[n - 1]);
      forall i | 0 <= i < n - 1
        ensures AllReleased(PassRun(subs, r, needed, blocks, orders, n).subs, r, blocks[i], needed)
      {
        AllStayReleased(pass.subs, BlockRun(pass.subs, r, blocks[n - 1], orders[n - 1]).subs, r, blocks[i], needed);
      }
    }
  }

  /** A Subscription that lists the request, an operator that cannot be resolved at the moment: the
      pass over the request's one member goes through and the Subscription lists it for good. */
  lemma UnresolvedIsForgotten(r: Request, o: string, p: Place, id: Id, sub: Sub) returns (subs: Subs, blocks: seq<Block>, orders: seq<seq<string>>)
    requires Candidate(map[id := sub], id, p) && Labelled(sub) && !(OwnKeys(AsRegistrant(r, o)) !! sub.annotations.Keys)
    ensures subs == map[id := sub] && |blocks| == 1 && Ordered(blocks, {o}, orders)
    ensures blocks[0].Readable? && EntryOf(blocks[0], o) == Known(p, false, NoStatus)
    ensures PassRun(subs, r, {o}, blocks, orders, 1) == Pass(subs, [{o}], true, false)
    ensures Lingers(subs, AsRegistrant(r, o), p)
  {
    hide OwnKeys;
    subs := map[id := sub];
    var fate := Finished(false, false, true, true, true, true, true, true);
    var b := Readable(map[o := Known(p, false, NoStatus)], map[o := fate], false);
    blocks, orders := [b], [[o]];
    assert Listed([o], {o});
    var none := BlockRun(subs, r, b, []);
    assert [o][..0] == [];
    assert BlockRun(subs, r, b, [o]) == NextRun(none, r, b, o);
    assert PassRun(subs, r, {o}, blocks, orders, 0) == Pass(subs, [], true, false);
  }
}
