/**
 Leaving, as the controllers do it: the uninstalls of a block run in any order, blocks one after
 the other, and the status or the finalizer follows (controllers/operandrequest/reconcile_operator.go,
 operandrequest_controller.go, controllers/operator/manager.go).
 */
module CleanupPass {
  import opened Annotations
  import opened Uninstall
  import opened RequestStatus
  import opened RequestObject
  import opened Cleanup
  import S = Subscriptions

  datatype Lookup = NoneFound | One(id: Id) | Several

  class Cluster {
    var subs: Subs

    /** In one of the place's namespaces, and of its operator's name or package. */
    predicate Fits(id: Id, p: Place)
      reads this
    {
      id in subs && (id.ns == p.operatorNs || id.ns == p.servicesNs) && (id.name == p.op || subs[id].package == p.package)
    }

    /** Lists the operator's and the services' namespace, each once. */
    method GetSubscription(p: Place) returns (r: Lookup)
      ensures forall id :: r == One(id) ==> Fits(id, p)
      ensures forall id | Fits(id, p) :: r.Several? || r == One(id)
      ensures r.Several? ==> exists i, j :: i != j && Fits(i, p) && Fits(j, p)
      ensures r.NoneFound? ==> forall id :: !Candidate(subs, id, p)
      ensures r.One? ==> forall id :: Candidate(subs, id, p) <==> id == r.id
      ensures r.Several? ==> exists i, j :: i != j && Candidate(subs, i, p) && Candidate(subs, j, p)
    {
      var tenantScope := {p.operatorNs, p.servicesNs};
      var subCandidates: seq<Id> := [];
      while tenantScope != {}
        invariant tenantScope <= {p.operatorNs, p.servicesNs}
        invariant forall id :: id in subCandidates <==> Candidate(subs, id, p) && id.ns !in tenantScope
        invariant forall i, j | 0 <= i < j < |subCandidates| :: subCandidates[i] != subCandidates[j]
        decreases tenantScope
      {
        var ns :| ns in tenantScope;
        var items := set id | id in subs && id.ns == ns;
        ghost var before := subCandidates;
        ghost var all := items;
        while items != {}
          invariant items <= all
          invariant forall id :: id in subCandidates <==> id in before || (id in all - items && Candidate(subs, id, p))
          invariant forall i, j | 0 <= i < j < |subCandidates| :: subCandidates[i] != subCandidates[j]
          decreases items
        {
          var id :| id in items;
          items := items - {id};
          if id.name == p.op || subs[id].package == p.package {
            assert id !in subCandidates;
            subCandidates := subCandidates + [id];
          }
        }
        tenantScope := tenantScope - {ns};
      }
      if |subCandidates| == 0 { return NoneFound; }
      assert subCandidates[0] in subCandidates;
      if |subCandidates| > 1 {
        assert subCandidates[1] in subCandidates;
        assert Fits(subCandidates[0], p) && Fits(subCandidates[1], p);
        return Several;
      }
      return One(subCandidates[0]);
    }

    /** Success and the Subscriptions left are exactly as specified; operands were cleaned before any
        registration they depend on was dropped, and only when they were flagged. */
    method UninstallOperatorsAndOperands(t: Registrant, p: Place, fate: Fate) returns (ok: bool, cleaned: bool)
      requires fate.Finished?
      modifies this
      ensures ok <==> Succeeds(old(subs), t, p, fate)
      ensures subs == Afterwards(old(subs), t, p, fate)
      ensures forall id | id in old(subs) && FlagsOf(old(subs)[id], id, t, p.noop).operand && fate.csvs ::
        (id in subs && subs[id] == old(subs)[id]) || cleaned
      ensures cleaned ==> exists id | Candidate(old(subs), id, p) && Labelled(old(subs)[id]) ::
        FlagsOf(old(subs)[id], id, t, p.noop).operand && fate.csvs && fate.cleaned
    {
      hide UninstallFlags, OwnKeys;
      cleaned := false;
      if !fate.found { return true, cleaned; }
      if !fate.listed { return false, cleaned; }
      var found := GetSubscription(p);
      if found.NoneFound? {
        AfterNone(subs, t, p, fate);
        return true, cleaned;
      }
      if found.Several? { return false, cleaned; }
      var id := found.id;
      assert Candidate(subs, id, p);
      var sub := subs[id];
      AfterOne(subs, id, t, p, fate);
      if S.OPREQ_LABEL !in sub.labels { return true, cleaned; }

      var flags := FlagsOf(sub, id, t, p.noop);
      var left := sub.(annotations := sub.annotations - OwnKeys(t));
      if !flags.operand && !flags.operator {
        if !fate.written { return false, cleaned; }
        subs := subs[id := left];
        return true, cleaned;
      }
      if !fate.csvsListed { return false, cleaned; }
      if fate.csvs {
        if flags.operand {
          if !fate.cleaned { return false, cleaned; }
          cleaned := true;
        }
        if flags.operator {
          if Spared(sub) { return true, cleaned; }
          if !fate.csvsDeleted { return false, cleaned; }
        }
      }
      if !fate.written { return false, cleaned; }
      if flags.operator {
        subs := subs - {id};
      } else {
        subs := subs[id := left];
      }
      return true, cleaned;
    }

    /** The user manages the operator, or it was not resolved. */
    method UninstallOperands(name: string, readers: Readers, fate: Fate) returns (ending: Ending, cleaned: bool)
      requires fate.Finished?
      ensures ending.Crashed? <==> fate.found && readers == Readers([])
      ensures ending.Failed? <==> exists k :: fate.found && readers == Readers([k]) && (!fate.csvsListed || (fate.csvs && k.name == name && !fate.cleaned))
      ensures cleaned <==> exists k :: fate.found && readers == Readers([k]) && k.name == name && fate.csvsListed && fate.csvs && fate.cleaned
    {
      cleaned := false;
      assert readers.Readers? && |readers.keys| == 1 ==> readers == Readers([readers.keys[0]]);
      if !fate.found { return Fine, cleaned; }
      if readers.NoStatus? || |readers.keys| > 1 { return Fine, cleaned; }
      if |readers.keys| == 0 { return Crashed, cleaned; }
      var uninstallOperand := readers.keys[0].name == name;
      if !fate.csvsListed { return Failed, cleaned; }
      if fate.csvs && uninstallOperand {
        if !fate.cleaned { return Failed, cleaned; }
        cleaned := true;
      }
      return Fine, cleaned;
    }

    method UninstallOne(r: Request, o: string, e: Cleanup.Entry, fate: Fate) returns (ending: Ending)
      requires fate.Finished?
      modifies this
      ensures e.Missing? ==> ending.Fine? && subs == old(subs)
      ensures e.Known? && (e.userManaged || !fate.resolved) ==>
        && subs == old(subs)
        && (ending.Crashed? <==> fate.found && e.readers == Readers([]))
        && (ending.Failed? <==> exists k :: fate.found && e.readers == Readers([k]) && (!fate.csvsListed || (fate.csvs && k.name == r.name && !fate.cleaned)))
      ensures e.Known? && !e.userManaged && fate.resolved ==>
        && subs == Afterwards(old(subs), AsRegistrant(r, o), e.place, fate)
        && ending == if Succeeds(old(subs), AsRegistrant(r, o), e.place, fate) then Fine else Failed
      ensures ending == EndingOf(old(subs), r, o, e, fate)
      ensures subs == if ending.Fine? then SubsAfter(old(subs), r, o, e, fate) else old(subs)
    {
      hide Afterwards, Succeeds;
      var cleaned;
      if e.Known? && !e.userManaged && fate.resolved {
        var ok;
        FailureChangesNothing(subs, AsRegistrant(r, o), e.place, fate);
        ok, cleaned := UninstallOperatorsAndOperands(AsRegistrant(r, o), e.place, fate);
        ending := if ok then Fine else Failed;
      } else if e.Known? {
        ending, cleaned := UninstallOperands(r.name, e.readers, fate);
        assert e.readers.Readers? && |e.readers.keys| == 1 ==> e.readers == Readers([e.readers.keys[0]]);
      } else {
        ending := Fine;
      }
    }

    /** One registry block: all needed operands in any order, those that finish in time. */
    method AbsentFrom(r: Request, b: Block, needed: set<string>)
      returns (ok: bool, done: set<string>, crashed: bool, ghost order: seq<string>)
      requires b.Readable? && Covers(b, needed)
      modifies this
      ensures Listed(order, needed) && Ran(subs, done, crashed) == BlockRun(old(subs), r, b, order)
      ensures ok <==> done == needed && !b.slow && !crashed
    {
      hide EndingOf, SubsAfter;
      done, crashed, order := {}, false, [];
      var todo, merr := needed, false;
      while todo != {}
        invariant todo <= needed && Listed(order, needed - todo)
        invariant Ran(subs, done, false) == BlockRun(old(subs), r, b, order)
        invariant done <= needed - todo && (!merr && !b.slow ==> done == needed - todo) && (merr ==> done != needed - todo)
        decreases todo
      {
        var o :| o in todo;
        ghost var before := order;
        order := order + [o];
        assert order[..|order| - 1] == before;
        ListedMore(before, needed - todo, o);
        assert needed - (todo - {o}) == needed - todo + {o};
        todo := todo - {o};
        var fate := b.fates[o];
        if fate.Finished? {
          var ending := UninstallOne(r, o, EntryOf(b, o), fate);
          if ending.Crashed? {
            order := StaysCrashed(old(subs), r, b, order, needed, todo);
            assert done != needed;
            return false, done, true, order;
          }
          if ending.Fine? { done := done + {o}; } else { merr := true; }
        }
      }
      assert needed - todo == needed;
      if b.slow { merr := true; }
      ok := !merr;
    }

    /** All blocks in turn, up to the first that fails. */
    method AbsentOperatorsAndOperands(r: Request, needed: set<string>, blocks: seq<Block>, remainingOperands: set<string>)
      returns (ok: bool, crashed: bool, remaining: set<string>, ghost orders: seq<seq<string>>)
      requires forall b | b in blocks :: Covers(b, needed)
      modifies this
      ensures Ordered(blocks, needed, orders)
      ensures var pass := PassRun(old(subs), r, needed, blocks, orders, |blocks|);
        subs == pass.subs && ok == pass.ok && crashed == pass.crashed && remaining == remainingOperands - Union(pass.done)
    {
      hide BlockRun;
      remaining, crashed := remainingOperands, false;
      ghost var anyOrder := ListingOf(needed);
      orders := seq(|blocks|, i => anyOrder);
      ghost var done: seq<set<string>> := [];
      for i := 0 to |blocks|
        invariant Ordered(blocks, needed, orders)
        invariant PassRun(old(subs), r, needed, blocks, orders, i) == Pass(subs, done, true, false)
        invariant remaining == remainingOperands - Union(done)
      {
        if blocks[i].Unreadable? {
          PassEnds(old(subs), r, needed, blocks, orders, i + 1, |blocks|);
          return false, crashed, remaining, orders;
        }
        assert blocks[i] in blocks;
        ghost var was := orders;
        var fine, finished, crash;
        ghost var order;
        fine, finished, crash, order := AbsentFrom(r, blocks[i], needed);
        orders := orders[i := order];
        SamePrefix(old(subs), r, needed, blocks, was, orders, i);
        remaining := remaining - finished;
        UnionMore(done, finished);
        done := done + [finished];
        if !fine {
          PassEnds(old(subs), r, needed, blocks, orders, i + 1, |blocks|);
          return false, crash, remaining, orders;
        }
      }
      return true, false, remaining, orders;
    }

    /** The end of reconcileOperator, once all Subscriptions were reconciled, or not: a member leaves the
        status exactly when it is out of the spec and the uninstalls of some block removed it. */
    method ReconcileOperator(req: OperandRequest, r: Request, spec: seq<seq<string>>, subscriptionsReconciled: bool, blocks: seq<Block>)
      returns (ok: bool, crashed: bool, ghost orders: seq<seq<string>>)
      requires req.Valid()
      requires forall b | b in blocks :: Covers(b, Names(req.Value().members) - Requested(spec))
      modifies this, req`members
      ensures req.Valid()
      ensures var needed := Names(old(req.Value()).members) - Requested(spec);
        && Ordered(blocks, needed, orders)
        && var pass := if subscriptionsReconciled then PassRun(old(subs), r, needed, blocks, orders, |blocks|)
                       else Pass(old(subs), [], false, false);
           && subs == pass.subs && ok == pass.ok && crashed == pass.crashed
           && (crashed ==> req.Value() == old(req.Value()))
           && (!crashed ==> forall m | m in old(req.Value()).members :: m in req.Value().members <==> m.name !in Union(pass.done))
      ensures forall m | m in req.Value().members :: m in old(req.Value()).members
    {
      hide PassRun, BlockRun;
      var members := req.Value().members;
      var remainingOperands := Names(members);
      ghost var needed := Names(members) - Requested(spec);
      ok, crashed := false, false;
      ghost var done: seq<set<string>> := [];
      if subscriptionsReconciled {
        var needDeleted := GetNeedDeletedOperands(members, spec, false);
        ghost var was := subs;
        ok, crashed, remainingOperands, orders := AbsentOperatorsAndOperands(r, needDeleted, blocks, remainingOperands);
        done := PassRun(was, r, needed, blocks, orders, |blocks|).done;
        PassShape(was, r, needed, blocks, orders, |blocks|);
        if crashed { return; }
      } else {
        ghost var order := ListingOf(needed);
        orders := seq(|blocks|, i => order);
      }
      assert Union(done) <= needed;
      req.FreshMemberStatus(Requested(spec), remainingOperands);
      forall m | m in members ensures m.name in Names(members) {}
    }

    /** A request being deleted: the finalizer goes exactly when the whole pass over its members goes
        through, and the patch. */
    method CheckFinalizer(req: OperandRequest, r: Request, spec: seq<seq<string>>, blocks: seq<Block>, hasFinalizer: bool, patched: bool)
      returns (removed: bool, ghost orders: seq<seq<string>>)
      requires req.Valid() && forall b | b in blocks :: Covers(b, Names(req.Value().members))
      modifies this
      ensures var needed := Names(req.Value().members);
        && Ordered(blocks, needed, orders)
        && var pass := PassRun(old(subs), r, needed, blocks, orders, |blocks|);
           && subs == pass.subs && (removed <==> pass.ok && hasFinalizer && patched)
      ensures removed ==> forall i | 0 <= i < |blocks| :: AllReleased(subs, r, blocks[i], Names(req.Value().members))
    {
      hide PassRun, BlockRun, AllReleased;
      var members := req.Value().members;
      var needed := GetNeedDeletedOperands(members, spec, true);
      var ok, crashed, remaining;
      ghost var was := subs;
      ok, crashed, remaining, orders := AbsentOperatorsAndOperands(r, needed, blocks, Names(members));
      if ok { PassReleases(was, r, needed, blocks, orders, |blocks|); }
      removed := ok && hasFinalizer && patched;
    }
  }

  // ---------------------------------------------------------------------------------------
  // Steps of those proofs

  lemma AfterNone(subs: Subs, t: Registrant, p: Place, fate: Fate)
    requires fate.Finished? && forall id :: !Candidate(subs, id, p)
    ensures Afterwards(subs, t, p, fate) == subs
  {
    hide OwnKeys;
  }

  /** With one candidate the uninstall is about that one. */
  lemma AfterOne(subs: Subs, id: Id, t: Registrant, p: Place, fate: Fate)
    requires fate.Finished? && fate.found && fate.listed && Candidate(subs, id, p)
    requires forall i :: Candidate(subs, i, p) <==> i == id
    ensures Succeeds(subs, t, p, fate) <==> !Labelled(subs[id]) || CanLeave(subs[id], id, t, p.noop, fate)
    ensures Afterwards(subs, t, p, fate) ==
      if !Succeeds(subs, t, p, fate) || !Leaves(subs, id, t, p, fate) then subs
      else if FlagsOf(subs[id], id, t, p.noop).operator then subs - {id}
      else subs[id := subs[id].(annotations := subs[id].annotations - OwnKeys(t))]
  {
    hide CanLeave, KeptBack, FlagsOf, OwnKeys;
  }

  lemma FailureChangesNothing(subs: Subs, t: Registrant, p: Place, fate: Fate)
    requires fate.Finished?
    ensures !Succeeds(subs, t, p, fate) ==> Afterwards(subs, t, p, fate) == subs
  {
  }

  lemma ListedMore(order: seq<string>, s: set<string>, o: string)
    requires Listed(order, s) && o !in s
    ensures Listed(order + [o], s + {o})
  {
    assert forall q | q in order :: q in s;
  }

  /** After a crash the remaining operands make no difference. */
  lemma {:induction false} StaysCrashed(subs: Subs, r: Request, b: Block, order: seq<string>, needed: set<string>, todo: set<string>)
    returns (all: seq<string>)
    requires b.Readable? && (forall o | o in needed :: o in b.fates) && todo <= needed && Listed(order, needed - todo)
    requires BlockRun(subs, r, b, order).crashed
    ensures Listed(all, needed) && BlockRun(subs, r, b, all) == BlockRun(subs, r, b, order)
    decreases todo
  {
    if todo == {} {
      assert needed - todo == needed;
      return order;
    }
    var o :| o in todo;
    ListedMore(order, needed - todo, o);
    assert needed - (todo - {o}) == needed - todo + {o};
    assert (order + [o])[..|order|] == order;
    all := StaysCrashed(subs, r, b, order + [o], needed, todo - {o});
  }

  lemma {:induction false} SamePrefix(subs: Subs, r: Request, needed: set<string>, blocks: seq<Block>,
                                      was: seq<seq<string>>, now: seq<seq<string>>, n: nat)
    requires n <= |blocks| && Ordered(blocks, needed, was) && Ordered(blocks, needed, now)
    requires forall i | 0 <= i < n :: was[i] == now[i]
    ensures PassRun(subs, r, needed, blocks, was, n) == PassRun(subs, r, needed, blocks, now, n)
    decreases n
  {
    if n > 0 { SamePrefix(subs, r, needed, blocks, was, now, n - 1); }
  }

  lemma UnionMore(done: seq<set<string>>, finished: set<string>)
    ensures Union(done + [finished]) == Union(done) + finished
  {
  }

  // ---------------------------------------------------------------------------------------
  // Who needs to go

  function Names(members: seq<Member>): set<string> {
    set m | m in members :: m.name
  }

  function Requested(spec: seq<seq<string>>): set<string> {
    set operands, o | operands in spec && o in operands :: o
  }

  method GetNeedDeletedOperands(members: seq<Member>, spec: seq<seq<string>>, deleting: bool)
    returns (needed: set<string>)
    ensures needed == if deleting then Names(members) else Names(members) - Requested(spec)
  {
    var deployedOperands: set<string> := {};
    for i := 0 to |members|
      invariant deployedOperands == Names(members[..i])
    {
      assert members[..i + 1] == members[..i] + [members[i]];
      deployedOperands := deployedOperands + {members[i].name};
    }
    assert members[..|members|] == members;
    var currentOperands: set<string> := {};
    if !deleting {
      for i := 0 to |spec|
        invariant currentOperands == Requested(spec[..i])
      {
        assert spec[..i + 1] == spec[..i] + [spec[i]];
        ghost var before := currentOperands;
        for j := 0 to |spec[i]|
          invariant currentOperands == before + set o | o in spec[i][..j]
        {
          assert spec[i][..j + 1] == spec[i][..j] + [spec[i][j]];
          currentOperands := currentOperands + {spec[i][j]};
        }
        assert spec[i][..|spec[i]|] == spec[i];
      }
      assert spec[..|spec|] == spec;
    }
    needed := deployedOperands - currentOperands;
  }
}
