/**
 The OperandRequest object whose status methods update members, conditions and custom resource
 lists in place (api/v1alpha1/operandrequest_types.go). Each method runs under the lock, so it
 is one step. A list of custom resources is a Go slice: a length over a backing array that
 keeps stale entries beyond it.
 */
module RequestObject {
  import S = RequestStatus
  import opened RequestStatus

  datatype Slice = Slice(buf: seq<CR>, len: nat) {
    predicate Valid() {
      len <= |buf|
    }

    function List(): seq<CR>
      requires Valid()
    {
      buf[..len]
    }
  }

  datatype Entry = Entry(name: string, operatorPhase: string, operandPhase: string, crs: Slice) {
    function View(): Member
      requires crs.Valid()
    {
      Member(name, operatorPhase, operandPhase, crs.List())
    }
  }

  predicate AllValid(es: seq<Entry>) {
    forall i | 0 <= i < |es| :: es[i].crs.Valid()
  }

  function Views(es: seq<Entry>): (r: seq<Member>)
    requires AllValid(es)
    ensures |r| == |es| && forall i | 0 <= i < |es| :: r[i] == es[i].View()
  {
    seq(|es|, i requires 0 <= i < |es| => es[i].View())
  }

  class OperandRequest {
    var members: seq<Entry>
    var conditions: seq<Condition>

    predicate Valid()
      reads this
    {
      AllValid(members)
    }

    function Value(): Status
      requires Valid()
      reads this
    {
      Status(Views(members), conditions)
    }

    /** getMemberStatus: the member's position, or the length. */
    method GetMemberStatus(name: string) returns (pos: nat)
      requires Valid()
      ensures pos == FindMember(Value().members, name) <= |members|
    {
      pos := 0;
      while pos < |members| && members[pos].name != name
        invariant pos <= |members| && forall j | 0 <= j < pos :: members[j].name != name
      {
        pos := pos + 1;
      }
      ghost var v := Value().members;
      assert forall j | 0 <= j < |v| :: v[j].name == members[j].name;
    }

    method SetCondition(c: Condition)
      modifies this`conditions
      ensures conditions == WithCondition(old(conditions), c)
    {
      var pos := 0;
      while pos < |conditions| && !(c.ctype == conditions[pos].ctype && c.message == conditions[pos].message)
        invariant pos <= |conditions|
        invariant forall j | 0 <= j < pos :: !(conditions[j].ctype == c.ctype && conditions[j].message == c.message)
      {
        pos := pos + 1;
      }
      if pos < |conditions| {
        conditions := conditions[pos := c];
      } else {
        conditions := conditions + [c];
      }
    }

    /** r.Status.Members[pos] = e */
    method SetMember(pos: nat, e: Entry)
      requires Valid() && pos < |members| && e.crs.Valid()
      modifies this`members
      ensures Valid() && members == old(members)[pos := e]
      ensures Value().members == old(Value()).members[pos := e.View()]
    {
      members := members[pos := e];
    }

    method SetMemberStatus(name: string, operatorPhase: string, operandPhase: string, now: string)
      requires Valid()
      modifies this
      ensures Valid() && Value() == S.SetMemberStatus(old(Value()), name, operatorPhase, operandPhase, now)
    {
      var pos := GetMemberStatus(name);
      if pos < |members| {
        var m := members[pos];
        if operatorPhase != "" && operatorPhase != m.operatorPhase {
          SetMember(pos, m.(operatorPhase := operatorPhase));
          SetCondition(OperatorReady(name, operatorPhase, now));
        }
        if operandPhase != "" && operandPhase != m.operandPhase {
          SetMember(pos, members[pos].(operandPhase := operandPhase));
          SetCondition(OperandReady(name, operandPhase, now));
        }
      } else {
        members := members + [Entry(name, operatorPhase, operandPhase, Slice([], 0))];
        assert Value().members == old(Value()).members + [Member(name, operatorPhase, operandPhase, [])];
        SetCondition(OperatorReady(name, operatorPhase, now));
      }
    }

    /** Appending reuses the backing array while there is room beyond the list. */
    method SetMemberCRStatus(name: string, crName: string, crKind: string, crAPIVersion: string)
      requires Valid()
      modifies this`members
      ensures Valid() && Value() == S.SetMemberCRStatus(old(Value()), name, CR(crName, crKind, crAPIVersion))
    {
      var pos := GetMemberStatus(name);
      if pos < |members| {
        var crs := members[pos].crs;
        for i := 0 to crs.len
          invariant forall j | 0 <= j < i :: !SameCR(crs.buf[j], crKind, crName)
        {
          if crs.buf[i].kind == crKind && crs.buf[i].name == crName {
            assert SameCR(crs.List()[i], crKind, crName);
            return;
          }
        }
        var cr := CR(crName, crKind, crAPIVersion);
        var buf := if crs.len < |crs.buf| then crs.buf[crs.len := cr] else crs.buf + [cr];
        assert buf[..crs.len + 1] == crs.List() + [cr];
        SetMember(pos, members[pos].(crs := Slice(buf, crs.len + 1)));
      }
    }

    /** Ranges over the slice as it was while cutting entries out of it. Says exactly what the loop
        does; not ok is the panic of a cut beyond the end. */
    method RemoveMemberCRStatus(name: string, crName: string, crKind: string) returns (ok: bool)
      requires Valid()
      modifies this`members
      ensures Valid()
      ensures ok && Coherent(old(Value())) ==> Value() == S.RemoveMemberCRStatus(old(Value()), name, crName, crKind)
      ensures Coherent(old(Value())) ==> ok
      ensures var i := FindMember(old(Value()).members, name);
        if i < |old(members)| then
          var was := old(members)[i].crs;
          var r := RangeRemove(was.buf, was.len, was.len, 0, crKind, crName);
          ok == r.Ranged? && (ok ==> members == old(members)[i := old(members)[i].(crs := Slice(r.buf, r.len))])
        else ok && members == old(members)
    {
      var pos := GetMemberStatus(name);
      if pos >= |members| { return true; }
      var was := members[pos].crs;
      ghost var result := RangeRemove(was.buf, was.len, was.len, 0, crKind, crName);
      var n := was.len;
      var index := 0;
      while index < n
        invariant |members| == |old(members)|
        invariant index <= n && members == old(members)[pos := old(members)[pos].(crs := members[pos].crs)]
        invariant members[pos].crs.len <= n && |members[pos].crs.buf| == |was.buf|
        invariant RangeRemove(members[pos].crs.buf, members[pos].crs.len, n, index, crKind, crName) == result
      {
        var list := members[pos].crs;
        if list.buf[index].kind == crKind && list.buf[index].name == crName {
          if index + 1 > list.len {
            RemoveOnUnique(old(Value()), pos, was, crKind, crName);
            return false;
          }
          members := members[pos := members[pos].(crs := Slice(Shift(list.buf, list.len, index), list.len - 1))];
        }
        index := index + 1;
      }
      RemoveOnUnique(old(Value()), pos, was, crKind, crName);
      ok := true;
      assert Views(members) == old(Views(members))[pos := members[pos].View()];
    }

    method RemoveOperandPhase(name: string)
      requires Valid()
      modifies this`members
      ensures Valid() && Value() == S.RemoveOperandPhase(old(Value()), name)
    {
      var pos := GetMemberStatus(name);
      if pos < |members| { SetMember(pos, members[pos].(operatorPhase := "", operandPhase := "")); }
    }

    /** FreshMemberStatus: a new list of the members that are requested or remain. */
    method FreshMemberStatus(requested: set<string>, remaining: set<string>)
      requires Valid()
      modifies this`members
      ensures Valid() && Value() == S.FreshMemberStatus(old(Value()), requested, remaining)
    {
      var newMembers: seq<Entry> := [];
      ghost var all := Views(members);
      for index := 0 to |members|
        invariant members == old(members)
        invariant AllValid(newMembers) && Views(newMembers) == Keep(all[..index], requested + remaining)
      {
        KeepOneMore(all, index, requested + remaining);
        if members[index].name in requested || members[index].name in remaining {
          ghost var before := newMembers;
          newMembers := newMembers + [members[index]];
          assert Views(newMembers) == Views(before) + [members[index].View()];
        }
      }
      assert all[..|members|] == all;
      members := newMembers;
    }
  }

  lemma RemoveOnUnique(s: Status, i: nat, was: Slice, kind: string, name: string)
    requires was.Valid() && i < |s.members| && s.members[i].crs == was.List()
    ensures Coherent(s) ==>
      var r := RangeRemove(was.buf, was.len, was.len, 0, kind, name);
      r.Ranged? && r.buf[..r.len] == Without(was.List(), kind, name)
  {
    if Coherent(s) {
      assert s.members[i] in s.members;
      RangeRemoveOnUnique(was.buf, was.len, kind, name);
    }
  }

  lemma {:induction false} KeepAppend(a: seq<Member>, b: seq<Member>, names: set<string>)
    ensures Keep(a + b, names) == Keep(a, names) + Keep(b, names)
    decreases |a|
  {
    if a == [] {
      assert a + b == b;
    } else {
      assert (a + b)[1..] == a[1..] + b;
      KeepAppend(a[1..], b, names);
    }
  }

  lemma KeepOneMore(all: seq<Member>, index: nat, names: set<string>)
    requires index < |all|
    ensures Keep(all[..index + 1], names) == Keep(all[..index], names) + (if all[index].name in names then [all[index]] else [])
  {
    assert all[..index + 1] == all[..index] + [all[index]];
    KeepAppend(all[..index], [all[index]], names);
  }
}
