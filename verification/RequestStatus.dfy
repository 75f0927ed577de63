/**
 The status of an OperandRequest as values: members, their custom resources and conditions, and
 what each status call makes of them (api/v1alpha1/operandrequest_types.go).
 */
module RequestStatus {

  datatype CR = CR(name: string, kind: string, apiVersion: string)

  datatype Member = Member(name: string, operatorPhase: string, operandPhase: string, crs: seq<CR>)

  datatype Condition = Condition(ctype: string, status: string, reason: string, message: string, time: string)

  datatype Status = Status(members: seq<Member>, conditions: seq<Condition>)

  const READY := "Ready"
  const RUNNING := "Running"
  const TRUE := "True"
  const FALSE := "False"

  // ---------------------------------------------------------------------------------------
  // Lists searched by key

  /** The first position holding name, the length when there is none. */
  function FindMember(members: seq<Member>, name: string): (i: nat)
    ensures i <= |members|
    ensures i < |members| ==> members[i].name == name
    ensures forall j | 0 <= j < i :: members[j].name != name
  {
    if members == [] then 0
    else if members[0].name == name then 0
    else
      var i := FindMember(members[1..], name) + 1;
      assert forall j | 1 <= j < i :: members[j] == members[1..][j - 1];
      i
  }

  function FindCondition(conditions: seq<Condition>, ctype: string, message: string): (i: nat)
    ensures i <= |conditions|
    ensures i < |conditions| ==> conditions[i].ctype == ctype && conditions[i].message == message
    ensures forall j | 0 <= j < i :: !(conditions[j].ctype == ctype && conditions[j].message == message)
  {
    if conditions == [] then 0
    else if conditions[0].ctype == ctype && conditions[0].message == message then 0
    else
      var i := FindCondition(conditions[1..], ctype, message) + 1;
      assert forall j | 1 <= j < i :: conditions[j] == conditions[1..][j - 1];
      i
  }

  predicate SameCR(cr: CR, kind: string, name: string) {
    cr.kind == kind && cr.name == name
  }

  predicate HasCR(crs: seq<CR>, kind: string, name: string) {
    exists i | 0 <= i < |crs| :: SameCR(crs[i], kind, name)
  }

  /** The list without the entries of that kind and name, in order. */
  function Without(crs: seq<CR>, kind: string, name: string): seq<CR> {
    if crs == [] then []
    else (if SameCR(crs[0], kind, name) then [] else [crs[0]]) + Without(crs[1..], kind, name)
  }

  // ---------------------------------------------------------------------------------------
  // The calls

  /** setCondition: a condition of the same type and message is replaced, otherwise appended. */
  function WithCondition(conditions: seq<Condition>, c: Condition): seq<Condition> {
    var i := FindCondition(conditions, c.ctype, c.message);
    if i < |conditions| then conditions[i := c] else conditions + [c]
  }

  function OperatorReady(name: string, phase: string, now: string): Condition {
    Condition(READY, if phase == RUNNING then TRUE else FALSE, "operator is ready", "operator " + name + " is ready", now)
  }

  function OperandReady(name: string, phase: string, now: string): Condition {
    Condition(READY, if phase == RUNNING then TRUE else FALSE, "operands are created", "operands from " + name + " are created", now)
  }

  function SetMemberStatus(s: Status, name: string, operatorPhase: string, operandPhase: string, now: string): Status {
    var i := FindMember(s.members, name);
    if i < |s.members| then
      var m := s.members[i];
      var s1 :=
        if operatorPhase != "" && operatorPhase != m.operatorPhase
        then Status(s.members[i := m.(operatorPhase := operatorPhase)], WithCondition(s.conditions, OperatorReady(name, operatorPhase, now)))
        else s;
      if operandPhase != "" && operandPhase != m.operandPhase
      then Status(s1.members[i := s1.members[i].(operandPhase := operandPhase)], WithCondition(s1.conditions, OperandReady(name, operandPhase, now)))
      else s1
    else
      Status(s.members + [Member(name, operatorPhase, operandPhase, [])], WithCondition(s.conditions, OperatorReady(name, operatorPhase, now)))
  }

  function SetMemberCRStatus(s: Status, name: string, cr: CR): Status {
    var i := FindMember(s.members, name);
    if i < |s.members| && !HasCR(s.members[i].crs, cr.kind, cr.name)
    then s.(members := s.members[i := s.members[i].(crs := s.members[i].crs + [cr])])
    else s
  }

  /** What RemoveMemberCRStatus is for; see RangeRemove for what it does. */
  function RemoveMemberCRStatus(s: Status, name: string, crName: string, crKind: string): Status {
    var i := FindMember(s.members, name);
    if i < |s.members|
    then s.(members := s.members[i := s.members[i].(crs := Without(s.members[i].crs, crKind, crName))])
    else s
  }

  function RemoveOperandPhase(s: Status, name: string): Status {
    var i := FindMember(s.members, name);
    if i < |s.members|
    then s.(members := s.members[i := s.members[i].(operatorPhase := "", operandPhase := "")])
    else s
  }

  /** The members whose names are kept, in order. */
  function Keep(members: seq<Member>, names: set<string>): (r: seq<Member>)
    ensures forall m | m in r :: m in members && m.name in names
    ensures forall m | m in members && m.name in names :: m in r
  {
    if members == [] then []
    else (if members[0].name in names then [members[0]] else []) + Keep(members[1..], names)
  }

  function FreshMemberStatus(s: Status, requested: set<string>, remaining: set<string>): Status {
    s.(members := Keep(s.members, requested + remaining))
  }

  // ---------------------------------------------------------------------------------------
  // What each call does

  /** Only the first member of that name changes, to m. */
  ghost predicate OnlyMember(was: seq<Member>, now: seq<Member>, name: string, i: nat, m: Member) {
    && i < |was| == |now| && was[i].name == name && (forall j | 0 <= j < i :: was[j].name != name)
    && now[i] == m && forall j | 0 <= j < |was| && j != i :: now[j] == was[j]
  }

  ghost predicate NoMember(members: seq<Member>, name: string) {
    forall m | m in members :: m.name != name
  }

  /** A condition set takes the place of the first of its type and message or comes last; conditions of
      another type or message stay, and no others come. */
  lemma WithConditionMeans(conditions: seq<Condition>, c: Condition)
    ensures var r := WithCondition(conditions, c);
      && (r == conditions + [c] || exists i | 0 <= i < |conditions| ::
            conditions[i].ctype == c.ctype && conditions[i].message == c.message && r == conditions[i := c])
      && (r == conditions + [c] ==> forall d | d in conditions :: d.ctype != c.ctype || d.message != c.message)
      && c in r && (forall d | d in conditions && (d.ctype != c.ctype || d.message != c.message) :: d in r)
      && forall d | d in r :: d == c || d in conditions
  {
    var r := WithCondition(conditions, c);
    var i := FindCondition(conditions, c.ctype, c.message);
    assert r[i] == c;
    if i < |conditions| { assert |r| != |conditions + [c]|; }
    forall d | d in conditions && (d.ctype != c.ctype || d.message != c.message) ensures d in r {
      var j :| 0 <= j < |conditions| && conditions[j] == d;
      assert r[j] == d;
    }
  }

  /** The Ready condition for a phase, but for its time. */
  predicate Tells(c: Condition, message: string, phase: string) {
    c.ctype == "Ready" && c.message == message && c.status == if phase == "Running" then "True" else "False"
  }

  /** A non-empty phase stands in the member afterwards, an empty one changes nothing; other members are
      untouched and an unknown member is appended. A phase that changes, and any for a new member's
      operator, is told by a Ready condition; all other conditions stay. */
  lemma SetMemberStatusMeans(s: Status, name: string, operatorPhase: string, operandPhase: string, now: string)
    ensures var r := SetMemberStatus(s, name, operatorPhase, operandPhase, now);
      var operatorSays, operandSays := "operator " + name + " is ready", "operands from " + name + " are created";
      && (NoMember(s.members, name) ==>
            && r.members == s.members + [Member(name, operatorPhase, operandPhase, [])]
            && (exists c | c in r.conditions :: Tells(c, operatorSays, operatorPhase)))
      && (!NoMember(s.members, name) ==> exists i | 0 <= i < |s.members| ::
            var m := s.members[i];
            && OnlyMember(s.members, r.members, name, i,
                 Member(name, if operatorPhase != "" then operatorPhase else m.operatorPhase, if operandPhase != "" then operandPhase else m.operandPhase, m.crs))
            && (operatorPhase !in ["", m.operatorPhase] ==> exists c | c in r.conditions :: Tells(c, operatorSays, operatorPhase))
            && (operandPhase !in ["", m.operandPhase] ==> exists c | c in r.conditions :: Tells(c, operandSays, operandPhase))
            && (operatorPhase in ["", m.operatorPhase] && operandPhase in ["", m.operandPhase] ==> r.conditions == s.conditions))
      && (forall c | c in s.conditions && c.message != operatorSays && c.message != operandSays :: c in r.conditions)
      && (forall c | c in r.conditions :: c in s.conditions || Tells(c, operatorSays, operatorPhase) || Tells(c, operandSays, operandPhase))
  {
    hide WithCondition;
    var i := FindMember(s.members, name);
    var first, second := OperatorReady(name, operatorPhase, now), OperandReady(name, operandPhase, now);
    WithConditionMeans(s.conditions, first);
    ReadyMessagesDiffer(name, name);
    if i < |s.members| {
      var m := s.members[i];
      assert m in s.members;
      var before := if operatorPhase != "" && operatorPhase != m.operatorPhase then WithCondition(s.conditions, first) else s.conditions;
      WithConditionMeans(before, second);
      assert OnlyMember(s.members, SetMemberStatus(s, name, operatorPhase, operandPhase, now).members, name, i,
        Member(name, if operatorPhase != "" then operatorPhase else m.operatorPhase, if operandPhase != "" then operandPhase else m.operandPhase, m.crs));
    } else {
      forall m | m in s.members ensures m.name != name { var j :| 0 <= j < |s.members| && s.members[j] == m; }
    }
  }

  /** A custom resource is appended to the member's unless one of its kind and name is there. */
  lemma SetMemberCRStatusMeans(s: Status, name: string, cr: CR)
    ensures var r := SetMemberCRStatus(s, name, cr);
      && r.conditions == s.conditions
      && (NoMember(s.members, name) ==> r == s)
      && (!NoMember(s.members, name) ==> exists i | 0 <= i < |s.members| ::
            var m := s.members[i];
            OnlyMember(s.members, r.members, name, i,
              if exists c | c in m.crs :: c.kind == cr.kind && c.name == cr.name then m else m.(crs := m.crs + [cr])))
  {
    var i := FindMember(s.members, name);
    if i < |s.members| {
      var m := s.members[i];
      assert m in s.members;
      assert HasCR(m.crs, cr.kind, cr.name) <==> exists c | c in m.crs :: c.kind == cr.kind && c.name == cr.name by {
        if c :| c in m.crs && c.kind == cr.kind && c.name == cr.name {
          var j :| 0 <= j < |m.crs| && m.crs[j] == c;
          assert SameCR(m.crs[j], cr.kind, cr.name);
        }
      }
      assert OnlyMember(s.members, SetMemberCRStatus(s, name, cr).members, name, i,
        if exists c | c in m.crs :: c.kind == cr.kind && c.name == cr.name then m else m.(crs := m.crs + [cr]));
    } else {
      forall m | m in s.members ensures m.name != name { var j :| 0 <= j < |s.members| && s.members[j] == m; }
    }
  }

  /** The member's custom resources of that kind and name are gone, nothing else. */
  lemma RemoveMemberCRStatusMeans(s: Status, name: string, crName: string, crKind: string)
    ensures var r := RemoveMemberCRStatus(s, name, crName, crKind);
      && r.conditions == s.conditions
      && (NoMember(s.members, name) ==> r == s)
      && (!NoMember(s.members, name) ==> exists i, crs | 0 <= i < |s.members| ::
            && OnlyMember(s.members, r.members, name, i, s.members[i].(crs := crs))
            && forall cr :: cr in crs <==> cr in s.members[i].crs && !(cr.kind == crKind && cr.name == crName))
  {
    var i := FindMember(s.members, name);
    if i < |s.members| {
      assert s.members[i] in s.members;
      var crs := Without(s.members[i].crs, crKind, crName);
      WithoutIs(s.members[i].crs, crKind, crName);
      assert OnlyMember(s.members, RemoveMemberCRStatus(s, name, crName, crKind).members, name, i, s.members[i].(crs := crs));
    } else {
      forall m | m in s.members ensures m.name != name { var j :| 0 <= j < |s.members| && s.members[j] == m; }
    }
  }

  /** Both phases of the member are emptied, nothing else. */
  lemma RemoveOperandPhaseMeans(s: Status, name: string)
    ensures var r := RemoveOperandPhase(s, name);
      && r.conditions == s.conditions
      && (NoMember(s.members, name) ==> r == s)
      && (!NoMember(s.members, name) ==> exists i | 0 <= i < |s.members| ::
            OnlyMember(s.members, r.members, name, i, Member(name, "", "", s.members[i].crs)))
  {
    var i := FindMember(s.members, name);
    if i < |s.members| {
      assert s.members[i] in s.members;
      assert OnlyMember(s.members, RemoveOperandPhase(s, name).members, name, i, Member(name, "", "", s.members[i].crs));
    } else {
      forall m | m in s.members ensures m.name != name { var j :| 0 <= j < |s.members| && s.members[j] == m; }
    }
  }

  // ---------------------------------------------------------------------------------------
  // Coherence

  ghost predicate UniqueNames(members: seq<Member>) {
    forall i, j | 0 <= i < j < |members| :: members[i].name != members[j].name
  }

  ghost predicate UniqueConditions(conditions: seq<Condition>) {
    forall i, j | 0 <= i < j < |conditions| ::
      !(conditions[i].ctype == conditions[j].ctype && conditions[i].message == conditions[j].message)
  }

  ghost predicate UniqueCRs(crs: seq<CR>) {
    forall i, j | 0 <= i < j < |crs| :: !SameCR(crs[j], crs[i].kind, crs[i].name)
  }

  /** A Ready condition for this operator stands, saying what the phase says. */
  ghost predicate ReadyAs(conditions: seq<Condition>, name: string, phase: string) {
    exists i | 0 <= i < |conditions| ::
      && conditions[i].ctype == READY && conditions[i].message == OperatorReady(name, phase, "").message
      && conditions[i].status == (if phase == RUNNING then TRUE else FALSE)
  }

  ghost predicate Coherent(s: Status) {
    && UniqueNames(s.members)
    && UniqueConditions(s.conditions)
    && (forall m | m in s.members :: UniqueCRs(m.crs))
    && (forall m | m in s.members && m.operatorPhase != "" :: ReadyAs(s.conditions, m.name, m.operatorPhase))
  }

  /** The Ready condition of a member is the only one with its message, so its status decides. */
  lemma ReadyConditionIsUnique(s: Status, m: Member)
    requires Coherent(s) && m in s.members && m.operatorPhase != ""
    ensures exists i | 0 <= i < |s.conditions| ::
      && s.conditions[i].ctype == READY && s.conditions[i].message == "operator " + m.name + " is ready"
      && (s.conditions[i].status == TRUE <==> m.operatorPhase == RUNNING)
      && forall j | 0 <= j < |s.conditions| && j != i ::
           !(s.conditions[j].ctype == READY && s.conditions[j].message == "operator " + m.name + " is ready")
  {
    var i :| 0 <= i < |s.conditions|
      && s.conditions[i].ctype == READY && s.conditions[i].message == OperatorReady(m.name, m.operatorPhase, "").message
      && s.conditions[i].status == (if m.operatorPhase == RUNNING then TRUE else FALSE);
    assert TRUE[0] != FALSE[0];
  }

  /** Setting a condition keeps them unique and disturbs no other. */
  lemma WithConditionKeepsOthers(conditions: seq<Condition>, c: Condition)
    requires UniqueConditions(conditions)
    ensures UniqueConditions(WithCondition(conditions, c)) && c in WithCondition(conditions, c)
    ensures forall d | d in conditions && !(d.ctype == c.ctype && d.message == c.message) :: d in WithCondition(conditions, c)
  {
    var r := WithCondition(conditions, c);
    var i := FindCondition(conditions, c.ctype, c.message);
    assert r[i] == c;
    forall d | d in conditions && !(d.ctype == c.ctype && d.message == c.message) ensures d in r {
      var j :| 0 <= j < |conditions| && conditions[j] == d;
      assert r[j] == d;
    }
  }

  /** Ready messages tell operators apart from each other and from operands. */
  lemma ReadyMessagesDiffer(name: string, other: string)
    ensures "operator " + name + " is ready" == "operator " + other + " is ready" <==> name == other
    ensures "operator " + name + " is ready" != "operands from " + other + " are created"
  {
    var a, b := "operator " + name + " is ready", "operator " + other + " is ready";
    assert a[9..|a| - 9] == name && b[9..|b| - 9] == other;
    assert a[7] == 'r' && ("operands from " + other + " are created")[7] == 's';
  }

  /** Another condition with its own type or message leaves a Ready condition standing. */
  lemma ReadyStays(conditions: seq<Condition>, c: Condition, name: string, phase: string)
    requires UniqueConditions(conditions) && ReadyAs(conditions, name, phase)
    requires c.ctype != READY || c.message != OperatorReady(name, phase, "").message
    ensures ReadyAs(WithCondition(conditions, c), name, phase)
  {
    WithConditionKeepsOthers(conditions, c);
    var i :| 0 <= i < |conditions|
      && conditions[i].ctype == READY && conditions[i].message == OperatorReady(name, phase, "").message
      && conditions[i].status == (if phase == RUNNING then TRUE else FALSE);
    assert conditions[i] in WithCondition(conditions, c);
  }

  lemma ReadySet(conditions: seq<Condition>, name: string, phase: string, now: string)
    requires UniqueConditions(conditions)
    ensures ReadyAs(WithCondition(conditions, OperatorReady(name, phase, now)), name, phase)
  {
    WithConditionKeepsOthers(conditions, OperatorReady(name, phase, now));
    assert OperatorReady(name, phase, now) in WithCondition(conditions, OperatorReady(name, phase, now));
  }

  // ---------------------------------------------------------------------------------------
  // Every call keeps it

  datatype Call =
    | MemberStatus(name: string, operatorPhase: string, operandPhase: string, now: string)
    | MemberCR(name: string, cr: CR)
    | RemoveCR(name: string, crName: string, crKind: string)
    | RemovePhase(name: string)
    | Fresh(requested: set<string>, remaining: set<string>)
    | OtherCondition(c: Condition)

  function Apply(s: Status, call: Call): Status {
    match call
    case MemberStatus(name, op, opd, now) => SetMemberStatus(s, name, op, opd, now)
    case MemberCR(name, cr) => SetMemberCRStatus(s, name, cr)
    case RemoveCR(name, crName, crKind) => RemoveMemberCRStatus(s, name, crName, crKind)
    case RemovePhase(name) => RemoveOperandPhase(s, name)
    case Fresh(requested, remaining) => FreshMemberStatus(s, requested, remaining)
    case OtherCondition(c) => s.(conditions := WithCondition(s.conditions, c))
  }

  /** The exported condition setters never write a Ready condition. */
  predicate Exported(call: Call) {
    call.OtherCondition? ==> call.c.ctype != READY
  }

  lemma OperatorPhaseSet(s: Status, i: nat, m: Member, now: string)
    requires Coherent(s)
    requires i <= |s.members| && forall j | 0 <= j < |s.members| && j != i :: s.members[j].name != m.name
    requires UniqueCRs(m.crs)
    ensures Coherent(Status(if i < |s.members| then s.members[i := m] else s.members + [m],
                            WithCondition(s.conditions, OperatorReady(m.name, m.operatorPhase, now))))
  {
    var members := if i < |s.members| then s.members[i := m] else s.members + [m];
    var c := OperatorReady(m.name, m.operatorPhase, now);
    WithConditionKeepsOthers(s.conditions, c);
    forall j | 0 <= j < |members|
      ensures UniqueCRs(members[j].crs)
      ensures members[j].operatorPhase != "" ==> ReadyAs(WithCondition(s.conditions, c), members[j].name, members[j].operatorPhase)
    {
      if j == i {
        ReadySet(s.conditions, m.name, m.operatorPhase, now);
      } else {
        assert members[j] == s.members[j] && s.members[j] in s.members;
        ReadyMessagesDiffer(members[j].name, m.name);
        if members[j].operatorPhase != "" { ReadyStays(s.conditions, c, members[j].name, members[j].operatorPhase); }
      }
    }
  }

  /** Replacing a member by one that makes no new claim about its operator. */
  lemma MemberReplaced(s: Status, i: nat, m: Member)
    requires Coherent(s) && i < |s.members| && m.name == s.members[i].name && UniqueCRs(m.crs)
    requires m.operatorPhase == s.members[i].operatorPhase || m.operatorPhase == ""
    ensures Coherent(s.(members := s.members[i := m]))
  {
    var members := s.members[i := m];
    forall j | 0 <= j < |members|
      ensures UniqueCRs(members[j].crs)
      ensures members[j].operatorPhase != "" ==> ReadyAs(s.conditions, members[j].name, members[j].operatorPhase)
    {
      assert s.members[j] in s.members;
    }
  }

  lemma ConditionAdded(s: Status, c: Condition)
    requires Coherent(s)
    requires c.ctype != READY || forall name: string :: c.message != "operator " + name + " is ready"
    ensures Coherent(s.(conditions := WithCondition(s.conditions, c)))
  {
    WithConditionKeepsOthers(s.conditions, c);
    forall m | m in s.members && m.operatorPhase != ""
      ensures ReadyAs(WithCondition(s.conditions, c), m.name, m.operatorPhase)
    {
      ReadyStays(s.conditions, c, m.name, m.operatorPhase);
    }
  }

  lemma SetMemberStatusCoherent(s: Status, name: string, operatorPhase: string, operandPhase: string, now: string)
    requires Coherent(s)
    ensures Coherent(SetMemberStatus(s, name, operatorPhase, operandPhase, now))
  {
    var i := FindMember(s.members, name);
    if i < |s.members| {
      var m := s.members[i];
      assert m in s.members;
      var m1 := m.(operatorPhase := operatorPhase);
      var changed := operatorPhase != "" && operatorPhase != m.operatorPhase;
      var s1 := if changed then Status(s.members[i := m1], WithCondition(s.conditions, OperatorReady(name, operatorPhase, now))) else s;
      if changed { OperatorPhaseSet(s, i, m1, now); }
      if operandPhase != "" && operandPhase != m.operandPhase {
        var m2 := s1.members[i].(operandPhase := operandPhase);
        assert s1.members[i] in s1.members;
        MemberReplaced(s1, i, m2);
        forall n ensures OperandReady(name, operandPhase, now).message != "operator " + n + " is ready" {
          ReadyMessagesDiffer(n, name);
        }
        ConditionAdded(s1.(members := s1.members[i := m2]), OperandReady(name, operandPhase, now));
      }
    } else {
      OperatorPhaseSet(s, i, Member(name, operatorPhase, operandPhase, []), now);
    }
  }

  lemma {:induction false} WithoutIs(crs: seq<CR>, kind: string, name: string)
    ensures UniqueCRs(crs) ==> UniqueCRs(Without(crs, kind, name))
    ensures forall cr :: cr in Without(crs, kind, name) <==> cr in crs && !SameCR(cr, kind, name)
    decreases |crs|
  {
    if crs != [] {
      var rest := Without(crs[1..], kind, name);
      WithoutIs(crs[1..], kind, name);
      assert crs == [crs[0]] + crs[1..];
      if UniqueCRs(crs) && !SameCR(crs[0], kind, name) {
        forall j | 0 <= j < |rest| ensures !SameCR(rest[j], crs[0].kind, crs[0].name) {
          assert rest[j] in rest;
          var k :| 0 <= k < |crs[1..]| && crs[1..][k] == rest[j];
          assert crs[k + 1] == rest[j];
        }
      }
    }
  }

  lemma {:induction false} KeepUnique(members: seq<Member>, names: set<string>)
    requires UniqueNames(members)
    ensures UniqueNames(Keep(members, names))
    decreases |members|
  {
    if members != [] {
      KeepUnique(members[1..], names);
      var rest := Keep(members[1..], names);
      forall j | 0 <= j < |rest| ensures rest[j].name != members[0].name {
        assert rest[j] in members[1..];
      }
    }
  }

  /** Every status call keeps the status coherent. */
  lemma CallKeepsCoherent(s: Status, call: Call)
    requires Coherent(s) && Exported(call)
    ensures Coherent(Apply(s, call))
  {
    match call
    case MemberStatus(name, op, opd, now) => SetMemberStatusCoherent(s, name, op, opd, now);
    case MemberCR(name, cr) =>
      var i := FindMember(s.members, name);
      if i < |s.members| && !HasCR(s.members[i].crs, cr.kind, cr.name) {
        assert s.members[i] in s.members;
        MemberReplaced(s, i, s.members[i].(crs := s.members[i].crs + [cr]));
      }
    case RemoveCR(name, crName, crKind) =>
      var i := FindMember(s.members, name);
      if i < |s.members| {
        assert s.members[i] in s.members;
        WithoutIs(s.members[i].crs, crKind, crName);
        MemberReplaced(s, i, s.members[i].(crs := Without(s.members[i].crs, crKind, crName)));
      }
    case RemovePhase(name) =>
      var i := FindMember(s.members, name);
      if i < |s.members| {
        assert s.members[i] in s.members;
        MemberReplaced(s, i, s.members[i].(operatorPhase := "", operandPhase := ""));
      }
    case Fresh(requested, remaining) => KeepUnique(s.members, requested + remaining);
    case OtherCondition(c) => ConditionAdded(s, c);
  }

  function ApplyAll(s: Status, calls: seq<Call>): Status
    decreases |calls|
  {
    if calls == [] then s else ApplyAll(Apply(s, calls[0]), calls[1..])
  }

  /** In every state reached by any mix of status calls: member names, conditions and custom
      resources are unique, and every member with an operator phase has its operator's Ready
      condition, True exactly when the phase is Running. */
  lemma {:induction false} EveryStatusIsCoherent(s: Status, calls: seq<Call>)
    requires Coherent(s) && forall call | call in calls :: Exported(call)
    ensures Coherent(ApplyAll(s, calls))
    decreases |calls|
  {
    if calls != [] {
      CallKeepsCoherent(s, calls[0]);
      EveryStatusIsCoherent(Apply(s, calls[0]), calls[1..]);
    }
  }

  // ---------------------------------------------------------------------------------------
  // Removals in any order

  /** One finished removal: the custom resource of one member. */
  datatype Removal = Removal(member: string, kind: string, name: string)

  function RemoveAll(s: Status, removals: seq<Removal>): Status
    decreases |removals|
  {
    if removals == [] then s
    else RemoveAll(RemoveMemberCRStatus(s, removals[0].member, removals[0].name, removals[0].kind), removals[1..])
  }

  /** What is left of a member's list when a set of removals is through. */
  function Left(crs: seq<CR>, member: string, removals: set<Removal>): seq<CR> {
    if crs == [] then []
    else (if Removal(member, crs[0].kind, crs[0].name) in removals then [] else [crs[0]]) + Left(crs[1..], member, removals)
  }

  function LeftOver(s: Status, removals: set<Removal>): Status {
    s.(members := seq(|s.members|, i requires 0 <= i < |s.members| =>
      s.members[i].(crs := Left(s.members[i].crs, s.members[i].name, removals))))
  }

  lemma {:induction false} LeftWithout(crs: seq<CR>, member: string, r: Removal, removals: set<Removal>)
    ensures r.member == member ==> Left(Without(crs, r.kind, r.name), member, removals) == Left(crs, member, removals + {r})
    ensures r.member != member ==> Left(crs, member, removals) == Left(crs, member, removals + {r})
    decreases |crs|
  {
    if crs != [] {
      LeftWithout(crs[1..], member, r, removals);
      var rest := Without(crs[1..], r.kind, r.name);
      assert ([crs[0]] + rest)[1..] == rest && [] + rest == rest;
      if r.member == member {
        assert SameCR(crs[0], r.kind, r.name) <==> Removal(member, crs[0].kind, crs[0].name) == r;
        if !SameCR(crs[0], r.kind, r.name) { assert Without(crs, r.kind, r.name) == [crs[0]] + rest; }
      }
    }
  }

  lemma LeftNothing(crs: seq<CR>, member: string)
    ensures Left(crs, member, {}) == crs
  {
  }

  /** Removals, one at a time and each under the lock, leave the same status in every order: each
      list keeps exactly the entries nobody removed, in their order. */
  lemma {:induction false} RemovalsCommute(s: Status, removals: seq<Removal>)
    requires UniqueNames(s.members)
    ensures RemoveAll(s, removals) == LeftOver(s, set r | r in removals)
    decreases |removals|
  {
    if removals == [] {
      forall i | 0 <= i < |s.members| { LeftNothing(s.members[i].crs, s.members[i].name); }
      assert (set r | r in removals) == {};
      assert LeftOver(s, {}).members == s.members;
    } else {
      var r, rest := removals[0], set x | x in removals[1..];
      var s1 := RemoveMemberCRStatus(s, r.member, r.name, r.kind);
      RemovalsCommute(s1, removals[1..]);
      assert (set x | x in removals) == rest + {r} by {
        assert removals == [r] + removals[1..];
      }
      var i := FindMember(s.members, r.member);
      forall j | 0 <= j < |s.members|
        ensures LeftOver(s1, rest).members[j] == LeftOver(s, rest + {r}).members[j]
      {
        LeftWithout(s.members[j].crs, s.members[j].name, r, rest);
      }
      assert LeftOver(s1, rest).members == LeftOver(s, rest + {r}).members;
    }
  }

  // ---------------------------------------------------------------------------------------
  // Deleting from a slice while ranging over its old header

  datatype Ranged = Panic | Ranged(buf: seq<CR>, len: nat)

  /** append(list[:i], list[i+1:]...) on a backing array whose first len entries are the list. */
  function Shift(buf: seq<CR>, len: nat, i: nat): (r: seq<CR>)
    requires i < len <= |buf|
    ensures |r| == |buf|
  {
    buf[..i] + buf[i + 1..len] + buf[len - 1..]
  }

  /** The loop from index i: it always visits n entries of the backing array, while the list
      it cuts shrinks to len. Cutting beyond the list's end panics. */
  function RangeRemove(buf: seq<CR>, len: nat, n: nat, i: nat, kind: string, name: string): (r: Ranged)
    requires len <= n <= |buf| && i <= n
    ensures r.Ranged? ==> r.len <= n && |r.buf| == |buf|
    decreases n - i
  {
    if i == n then Ranged(buf, len)
    else if SameCR(buf[i], kind, name) then
      if i + 1 > len then Panic else RangeRemove(Shift(buf, len, i), len - 1, n, i + 1, kind, name)
    else RangeRemove(buf, len, n, i + 1, kind, name)
  }

  lemma {:induction false} RangeSkips(buf: seq<CR>, len: nat, n: nat, i: nat, j: nat, kind: string, name: string)
    requires len <= n <= |buf| && i <= j <= n
    requires forall k | i <= k < j :: !SameCR(buf[k], kind, name)
    ensures RangeRemove(buf, len, n, i, kind, name) == RangeRemove(buf, len, n, j, kind, name)
    decreases j - i
  {
    if i < j { RangeSkips(buf, len, n, i + 1, j, kind, name); }
  }

  lemma {:induction false} WithoutNone(crs: seq<CR>, kind: string, name: string)
    requires !HasCR(crs, kind, name)
    ensures Without(crs, kind, name) == crs
    decreases |crs|
  {
    if crs != [] {
      assert !SameCR(crs[0], kind, name);
      assert forall i | 0 <= i < |crs[1..]| :: crs[1..][i] == crs[i + 1];
      WithoutNone(crs[1..], kind, name);
    }
  }

  lemma {:induction false} WithoutOne(crs: seq<CR>, i: nat, kind: string, name: string)
    requires i < |crs| && SameCR(crs[i], kind, name)
    requires forall j | 0 <= j < |crs| && j != i :: !SameCR(crs[j], kind, name)
    ensures Without(crs, kind, name) == crs[..i] + crs[i + 1..]
    decreases |crs|
  {
    if i == 0 {
      assert forall j | 0 <= j < |crs[1..]| :: crs[1..][j] == crs[j + 1];
      WithoutNone(crs[1..], kind, name);
    } else {
      assert forall j | 0 <= j < |crs[1..]| :: crs[1..][j] == crs[j + 1];
      WithoutOne(crs[1..], i - 1, kind, name);
      assert crs[1..][..i - 1] == crs[1..i] && crs[1..][i..] == crs[i + 1..];
    }
  }

  lemma ShiftAt(buf: seq<CR>, len: nat, i: nat)
    requires i < len <= |buf|
    ensures forall k | i <= k < len - 1 :: Shift(buf, len, i)[k] == buf[k + 1]
    ensures Shift(buf, len, i)[len - 1] == buf[len - 1]
    ensures Shift(buf, len, i)[..len - 1] == buf[..i] + buf[i + 1..len]
  {
    assert |buf[..i] + buf[i + 1..len]| == len - 1;
  }

  /** The one match at i is cut out; the rest of the loop runs over the shifted entries and the
      stale last one and finds nothing more. */
  lemma RangeRemoveAt(buf: seq<CR>, n: nat, i: nat, kind: string, name: string)
    requires i < n <= |buf| && SameCR(buf[i], kind, name)
    requires forall j | 0 <= j < n && j != i :: !SameCR(buf[j], kind, name)
    ensures RangeRemove(buf, n, n, 0, kind, name) == Ranged(Shift(buf, n, i), n - 1)
  {
    RangeSkips(buf, n, n, 0, i, kind, name);
    ShiftAt(buf, n, i);
    RangeSkips(Shift(buf, n, i), n - 1, n, i + 1, n, kind, name);
  }

  /** On a list without duplicates the loop never panics and removes exactly the one entry. */
  lemma RangeRemoveOnUnique(buf: seq<CR>, n: nat, kind: string, name: string)
    requires n <= |buf| && UniqueCRs(buf[..n])
    ensures var r := RangeRemove(buf, n, n, 0, kind, name);
      r.Ranged? && r.buf[..r.len] == Without(buf[..n], kind, name)
  {
    var crs := buf[..n];
    if HasCR(crs, kind, name) {
      var i :| 0 <= i < |crs| && SameCR(crs[i], kind, name);
      forall j | 0 <= j < n && j != i ensures !SameCR(crs[j], kind, name) && crs[j] == buf[j] {
      }
      RangeRemoveAt(buf, n, i, kind, name);
      ShiftAt(buf, n, i);
      WithoutOne(crs, i, kind, name);
      assert crs[..i] == buf[..i] && crs[i + 1..] == buf[i + 1..n];
    } else {
      forall k | 0 <= k < n ensures !SameCR(buf[k], kind, name) {
        assert crs[k] == buf[k];
      }
      RangeSkips(buf, n, n, 0, n, kind, name);
      WithoutNone(crs, kind, name);
    }
  }

  // What the loop does on any list

  ghost predicate AtMostOnce(crs: seq<CR>, kind: string, name: string) {
    forall i, j | 0 <= i < j < |crs| :: !(SameCR(crs[i], kind, name) && SameCR(crs[j], kind, name))
  }

  ghost predicate NoNeighbours(crs: seq<CR>, kind: string, name: string) {
    forall i | 0 <= i < |crs| - 1 :: !(SameCR(crs[i], kind, name) && SameCR(crs[i + 1], kind, name))
  }

  /** Removing and then not looking at the entry that moves into the gap. */
  function Skipping(crs: seq<CR>, kind: string, name: string): seq<CR> {
    if crs == [] then []
    else if !SameCR(crs[0], kind, name) then [crs[0]] + Skipping(crs[1..], kind, name)
    else if |crs| == 1 then []
    else [crs[1]] + Skipping(crs[2..], kind, name)
  }

  /** Skipping removes every match exactly when no two neighbours match. */
  lemma {:induction false} SkippingMisses(crs: seq<CR>, kind: string, name: string)
    ensures NoNeighbours(crs, kind, name) ==> Skipping(crs, kind, name) == Without(crs, kind, name)
    ensures !NoNeighbours(crs, kind, name) ==> HasCR(Skipping(crs, kind, name), kind, name)
    decreases |crs|
  {
    if crs == [] {
    } else if !SameCR(crs[0], kind, name) {
      assert forall k | 0 <= k < |crs| - 1 :: crs[1..][k] == crs[k + 1];
      SkippingMisses(crs[1..], kind, name);
      if !NoNeighbours(crs, kind, name) {
        var i :| 0 <= i < |crs| - 1 && SameCR(crs[i], kind, name) && SameCR(crs[i + 1], kind, name);
        assert SameCR(crs[1..][i - 1], kind, name) && SameCR(crs[1..][i], kind, name);
        Later([crs[0]], Skipping(crs[1..], kind, name), kind, name);
      }
    } else if |crs| > 1 {
      assert forall k | 0 <= k < |crs| - 2 :: crs[2..][k] == crs[k + 2];
      SkippingMisses(crs[2..], kind, name);
      assert crs[1..][1..] == crs[2..];
      if !NoNeighbours(crs, kind, name) && !SameCR(crs[1], kind, name) {
        var i :| 0 <= i < |crs| - 1 && SameCR(crs[i], kind, name) && SameCR(crs[i + 1], kind, name);
        assert SameCR(crs[2..][i - 2], kind, name) && SameCR(crs[2..][i - 1], kind, name);
        Later([crs[1]], Skipping(crs[2..], kind, name), kind, name);
      } else if SameCR(crs[1], kind, name) {
        assert SameCR(Skipping(crs, kind, name)[0], kind, name);
      }
    }
  }

  lemma Later(a: seq<CR>, b: seq<CR>, kind: string, name: string)
    requires HasCR(b, kind, name)
    ensures HasCR(a + b, kind, name)
  {
    var i :| 0 <= i < |b| && SameCR(b[i], kind, name);
    assert (a + b)[|a| + i] == b[i];
  }

  lemma WithoutHasNone(crs: seq<CR>, kind: string, name: string)
    ensures !HasCR(Without(crs, kind, name), kind, name)
  {
    WithoutIs(crs, kind, name);
  }

  /** Once the list is shorter than what is ranged over, a stale match at the end panics. */
  lemma {:induction false} StalePanics(buf: seq<CR>, len: nat, n: nat, i: nat, kind: string, name: string)
    requires len < n <= |buf| && i < n && SameCR(buf[n - 1], kind, name)
    ensures RangeRemove(buf, len, n, i, kind, name) == Panic
    decreases n - i
  {
    if SameCR(buf[i], kind, name) {
      if i + 1 <= len {
        assert Shift(buf, len, i)[n - 1] == buf[n - 1];
        StalePanics(Shift(buf, len, i), len - 1, n, i + 1, kind, name);
      }
    } else {
      StalePanics(buf, len, n, i + 1, kind, name);
    }
  }

  lemma SkipOver(buf: seq<CR>, len: nat, i: nat, kind: string, name: string)
    requires i + 1 < len <= |buf| && SameCR(buf[i], kind, name)
    ensures var cut := Shift(buf, len, i);
      cut[..i + 1] + Skipping(cut[i + 1..len - 1], kind, name) == buf[..i] + Skipping(buf[i..len], kind, name)
  {
    var cut, rest := Shift(buf, len, i), buf[i..len];
    ShiftAt(buf, len, i);
    assert cut[..i + 1] == buf[..i] + [buf[i + 1]];
    assert cut[i + 1..len - 1] == buf[i + 2..len] == rest[2..];
    assert Skipping(rest, kind, name) == [buf[i + 1]] + Skipping(rest[2..], kind, name);
  }

  lemma SkipPast(buf: seq<CR>, len: nat, i: nat, kind: string, name: string)
    requires i < len <= |buf| && !SameCR(buf[i], kind, name)
    ensures buf[..i + 1] + Skipping(buf[i + 1..len], kind, name) == buf[..i] + Skipping(buf[i..len], kind, name)
  {
    var rest := buf[i..len];
    assert rest[1..] == buf[i + 1..len] && buf[..i + 1] == buf[..i] + [buf[i]];
    assert Skipping(rest, kind, name) == [buf[i]] + Skipping(rest[1..], kind, name);
  }

  /** If the last entry does not match, the stale ones never do, and the loop skips. */
  lemma {:induction false} RangeSkipping(buf: seq<CR>, len: nat, n: nat, i: nat, kind: string, name: string)
    requires 0 < len <= n <= |buf| && i <= n && !SameCR(buf[n - 1], kind, name)
    requires forall k | len - 1 <= k < n :: buf[k] == buf[n - 1]
    ensures var r, at := RangeRemove(buf, len, n, i, kind, name), if i < len then i else len;
      r.Ranged? && r.buf[..r.len] == buf[..at] + Skipping(buf[at..len], kind, name)
    decreases n - i
  {
    if i >= len {
      RangeSkips(buf, len, n, i, n, kind, name);
    } else if SameCR(buf[i], kind, name) {
      assert i < len - 1;
      ShiftAt(buf, len, i);
      RangeSkipping(Shift(buf, len, i), len - 1, n, i + 1, kind, name);
      SkipOver(buf, len, i, kind, name);
      if i + 1 == len - 1 { assert Shift(buf, len, i)[len - 1..len - 1] == []; }
    } else {
      RangeSkipping(buf, len, n, i + 1, kind, name);
      SkipPast(buf, len, i, kind, name);
    }
  }

  /** Exactly when the loop does its job on an arbitrary list: the entry occurs at most once, or
      never twice in a row and not at the end. */
  lemma RangeRemoveExactly(buf: seq<CR>, n: nat, kind: string, name: string)
    requires n <= |buf|
    ensures var crs, r := buf[..n], RangeRemove(buf, n, n, 0, kind, name);
      (r.Ranged? && r.buf[..r.len] == Without(crs, kind, name)) <==>
        AtMostOnce(crs, kind, name) || (NoNeighbours(crs, kind, name) && !SameCR(crs[n - 1], kind, name))
  {
    var crs := buf[..n];
    if AtMostOnce(crs, kind, name) {
      if i :| 0 <= i < n && SameCR(crs[i], kind, name) {
        RangeRemoveAt(buf, n, i, kind, name);
        ShiftAt(buf, n, i);
        WithoutOne(crs, i, kind, name);
        assert crs[..i] == buf[..i] && crs[i + 1..] == buf[i + 1..n];
      } else {
        RangeSkips(buf, n, n, 0, n, kind, name);
        WithoutNone(crs, kind, name);
      }
    } else if SameCR(crs[n - 1], kind, name) {
      var i := FirstMatch(crs, kind, name);
      RangeSkips(buf, n, n, 0, i, kind, name);
      StalePanics(Shift(buf, n, i), n - 1, n, i + 1, kind, name);
    } else {
      RangeSkipping(buf, n, n, 0, kind, name);
      assert buf[0..n] == crs && buf[..0] + Skipping(crs, kind, name) == Skipping(crs, kind, name);
      SkippingMisses(crs, kind, name);
      WithoutHasNone(crs, kind, name);
    }
  }

  lemma FirstMatch(crs: seq<CR>, kind: string, name: string) returns (i: nat)
    requires !AtMostOnce(crs, kind, name)
    ensures i < |crs| - 1 && SameCR(crs[i], kind, name) && forall j | 0 <= j < i :: !SameCR(crs[j], kind, name)
  {
    var p, q :| 0 <= p < q < |crs| && SameCR(crs[p], kind, name) && SameCR(crs[q], kind, name);
    i := 0;
    while !SameCR(crs[i], kind, name)
      invariant i <= p && forall j | 0 <= j < i :: !SameCR(crs[j], kind, name)
      decreases p - i
    {
      i := i + 1;
    }
  }
}
