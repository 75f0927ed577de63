/**
 The index an OperandRegistry keeps of who asks for which of its operators, rebuilt from all
 OperandRequests (controllers/operandregistry/operandregistry_controller.go,
 api/v1alpha1/operandregistry_types.go, controllers/operator/manager.go).
 */
module RegistryIndex {

  datatype Key = Key(ns: string, name: string)

  datatype Block = Block(registry: string, registryNs: string, operands: seq<string>)

  datatype Request = Request(key: Key, blocks: seq<Block>)

  datatype OperatorStatus = OperatorStatus(phase: string, requests: seq<Key>)

  /** The registry a block names, in the request's own namespace when it gives none. */
  function GetRegistryKey(r: Request, b: Block): Key {
    Key(if b.registryNs != "" then b.registryNs else r.key.ns, b.registry)
  }

  predicate Names(r: Request, registry: Key) {
    exists b | b in r.blocks :: GetRegistryKey(r, b) == registry
  }

  predicate AsksFor(r: Request, registry: Key, operand: string) {
    exists b | b in r.blocks :: GetRegistryKey(r, b) == registry && operand in b.operands
  }

  /** Some request of that key asks this registry for the operand. */
  predicate Asked(rs: seq<Request>, registry: Key, operand: string, k: Key) {
    exists r | r in rs :: r.key == k && AsksFor(r, registry, operand)
  }

  /** The request once for each of the blocks that names the registry. */
  function Copies(r: Request, bs: seq<Block>, registry: Key): seq<Request> {
    if bs == [] then []
    else Copies(r, bs[..|bs| - 1], registry) + if GetRegistryKey(r, bs[|bs| - 1]) == registry then [r] else []
  }

  function Listing(rs: seq<Request>, registry: Key): seq<Request> {
    if rs == [] then []
    else Listing(rs[..|rs| - 1], registry) + Copies(rs[|rs| - 1], rs[|rs| - 1].blocks, registry)
  }

  lemma {:induction false} CopiesHas(r: Request, bs: seq<Block>, registry: Key, q: Request)
    ensures q in Copies(r, bs, registry) <==> q == r && exists b | b in bs :: GetRegistryKey(r, b) == registry
  {
    if bs != [] {
      CopiesHas(r, bs[..|bs| - 1], registry, q);
      assert bs == bs[..|bs| - 1] + [bs[|bs| - 1]];
    }
  }

  lemma {:induction false} ListingHas(rs: seq<Request>, registry: Key, q: Request)
    ensures q in Listing(rs, registry) <==> q in rs && Names(q, registry)
  {
    if rs != [] {
      ListingHas(rs[..|rs| - 1], registry, q);
      CopiesHas(rs[|rs| - 1], rs[|rs| - 1].blocks, registry, q);
      assert rs == rs[..|rs| - 1] + [rs[|rs| - 1]];
    }
  }

  method ListOperandRequestsByRegistry(candidates: seq<Request>, registry: Key) returns (requestList: seq<Request>)
    ensures requestList == Listing(candidates, registry)
    ensures forall r :: r in requestList <==> r in candidates && exists b | b in r.blocks ::
      b.registry == registry.name && registry.ns == if b.registryNs == "" then r.key.ns else b.registryNs
  {
    requestList := [];
    for i := 0 to |candidates|
      invariant requestList == Listing(candidates[..i], registry)
    {
      var item := candidates[i];
      for j := 0 to |item.blocks|
        invariant requestList == Listing(candidates[..i], registry) + Copies(item, item.blocks[..j], registry)
      {
        var b := item.blocks[j];
        assert item.blocks[..j + 1][..j] == item.blocks[..j];
        var ns := if b.registryNs == "" then item.key.ns else b.registryNs;
        if b.registry == registry.name && ns == registry.ns {
          requestList := requestList + [item];
        }
      }
      assert item.blocks[..|item.blocks|] == item.blocks;
      assert candidates[..i + 1][..i] == candidates[..i];
    }
    assert candidates[..|candidates|] == candidates;
    forall r
      ensures r in requestList <==> r in candidates && exists b | b in r.blocks ::
        b.registry == registry.name && registry.ns == if b.registryNs == "" then r.key.ns else b.registryNs
    {
      ListingHas(candidates, registry, r);
    }
  }

  /** The index says who asks, everyone once. */
  ghost predicate Indexes(status: map<string, OperatorStatus>, asked: set<(string, Key)>) {
    && (forall o :: o in status <==> exists k :: (o, k) in asked)
    && (forall o | o in status :: status[o].phase == "" && forall k :: multiset(status[o].requests)[k] == if (o, k) in asked then 1 else 0)
  }

  class OperandRegistry {
    const key: Key
    var operatorsStatus: map<string, OperatorStatus>

    /** The position of the request under the operator, or the number of requests. */
    method GetReconcileRequest(name: string, request: Key) returns (pos: nat)
      ensures var rs := if name in operatorsStatus then operatorsStatus[name].requests else [];
        pos <= |rs| && (pos < |rs| ==> rs[pos] == request) && (pos == |rs| ==> request !in rs)
    {
      var s := if name in operatorsStatus then operatorsStatus[name] else OperatorStatus("", []);
      pos := 0;
      while pos < |s.requests|
        invariant pos <= |s.requests| && request !in s.requests[..pos]
      {
        if s.requests[pos] == request { return; }
        pos := pos + 1;
      }
    }

    method SetOperatorStatus(name: string, phase: string, request: Key)
      modifies this`operatorsStatus
      ensures var s := if name in old(operatorsStatus) then old(operatorsStatus)[name] else OperatorStatus("", []);
        operatorsStatus == old(operatorsStatus)[name :=
          OperatorStatus(phase, s.requests + if request in s.requests then [] else [request])]
    {
      var s := if name in operatorsStatus then operatorsStatus[name] else OperatorStatus("", []);
      if s.phase != phase { s := s.(phase := phase); }
      var pos := GetReconcileRequest(name, request);
      if pos == |s.requests| {
        s := s.(requests := s.requests + [request]);
      } else {
        assert s.requests + [] == s.requests;
      }
      operatorsStatus := operatorsStatus[name := s];
    }

    /** Exactly the requests that ask for an operator are listed under it, each once, although
        the list gives a request once per block. When the list cannot be read nothing is left. */
    method UpdateStatus(all: seq<Request>, listed: bool) returns (ok: bool)
      modifies this`operatorsStatus
      ensures ok == listed
      ensures !ok ==> operatorsStatus == map[]
      ensures ok ==> forall o :: o in operatorsStatus <==> exists k :: Asked(all, key, o, k)
      ensures ok ==> forall o, k | o in operatorsStatus ::
        multiset(operatorsStatus[o].requests)[k] == if Asked(all, key, o, k) then 1 else 0
    {
      operatorsStatus := map[];
      if !listed { return false; }
      var requestList := ListOperandRequestsByRegistry(all, key);
      ghost var asked: set<(string, Key)> := {};
      for i := 0 to |requestList|
        invariant Indexes(operatorsStatus, asked)
        invariant forall o, k :: (o, k) in asked <==> Asked(requestList[..i], key, o, k)
      {
        ghost var before := asked;
        asked := AddRequest(requestList[i], asked);
        assert requestList[..i + 1] == requestList[..i] + [requestList[i]];
      }
      assert requestList[..|requestList|] == requestList;
      forall o, k ensures (o, k) in asked <==> Asked(all, key, o, k) {
        if r :| r in all && r.key == k && AsksFor(r, key, o) {
          assert Names(r, key);
          assert r in requestList;
        }
      }
      return true;
    }

    method AddRequest(item: Request, ghost asked: set<(string, Key)>) returns (ghost now: set<(string, Key)>)
      requires Indexes(operatorsStatus, asked)
      modifies this`operatorsStatus
      ensures Indexes(operatorsStatus, now)
      ensures forall o, k :: (o, k) in now <==> (o, k) in asked || (k == item.key && AsksFor(item, key, o))
    {
      now := asked;
      for i := 0 to |item.blocks|
        invariant Indexes(operatorsStatus, now)
        invariant forall o, k :: (o, k) in now <==> (
          || (o, k) in asked
          || (k == item.key && exists b | b in item.blocks[..i] :: GetRegistryKey(item, b) == key && o in b.operands))
      {
        var b := item.blocks[i];
        assert item.blocks[..i + 1] == item.blocks[..i] + [b];
        if GetRegistryKey(item, b) != key { continue; }
        ghost var before := now;
        for j := 0 to |b.operands|
          invariant Indexes(operatorsStatus, now)
          invariant forall o, k :: (o, k) in now <==> (o, k) in before || (k == item.key && o in b.operands[..j])
        {
          assert b.operands[..j + 1] == b.operands[..j] + [b.operands[j]];
          Listed(operatorsStatus, now, b.operands[j], item.key);
          SetOperatorStatus(b.operands[j], "", item.key);
          now := now + {(b.operands[j], item.key)};
        }
        assert b.operands[..|b.operands|] == b.operands;
      }
      assert item.blocks[..|item.blocks|] == item.blocks;
    }
  }

  /** Listing one more, unless it is there, keeps the index exact. */
  lemma Listed(status: map<string, OperatorStatus>, asked: set<(string, Key)>, o: string, k: Key)
    requires Indexes(status, asked)
    ensures var s := if o in status then status[o] else OperatorStatus("", []);
      Indexes(status[o := OperatorStatus("", s.requests + if k in s.requests then [] else [k])], asked + {(o, k)})
  {
    var s := if o in status then status[o] else OperatorStatus("", []);
    assert k in s.requests <==> multiset(s.requests)[k] > 0;
    assert s.requests + [] == s.requests;
    assert multiset(s.requests + [k]) == multiset(s.requests) + multiset{k};
    var more := asked + {(o, k)};
    assert (o, k) in more;
  }
}
