/**
 Whole runs of the shared-Subscription protocol: registrants come, reconcile and leave in any
 order; the string-encoded decision is the one a set of registrations would give, and the
 last one out turns off the light.
 */
module LastOneOut {
  import opened Annotations
  import opened Uninstall

  type Registrations = map<Registrant, Registration>

  /** The decision stated on registrations: what t's departure means for those who stay. */
  ghost function Decide(regs: Registrations, t: Registrant, ns: string, managed: bool, noop: bool): Flags
    requires t in regs
  {
    var stay := regs.Keys - {t};
    var operator := managed && !(exists u :: u in stay && regs[u].operatorNamespace == ns);
    var keep :=
      || (!operator && noop)
      || (operator && stay != {})
      || (exists u :: u in stay && u.op == t.op)
      || regs[t].config == None || regs[t].config == Some("")
      || (exists u :: u in stay && regs[u].config == regs[t].config);
    Flags(operator, !keep)
  }

  lemma HeldMeans(annotations: map<string, string>, regs: Registrations, kind: string, value: string)
    requires Represents(annotations, regs) && Kind(kind)
    ensures Held(annotations, annotations.Keys, kind, value) <==>
      exists u :: u in regs && Key(u, kind) in annotations && annotations[Key(u, kind)] == value
  {
    if u :| u in regs && Key(u, kind) in annotations && annotations[Key(u, kind)] == value {
      MatchesOwnKind(u, kind, kind);
    }
  }

  lemma OperatorHeldMeans(annotations: map<string, string>, regs: Registrations, op: string)
    requires Represents(annotations, regs)
    ensures OperatorHeld(annotations.Keys, op) <==> exists u :: u in regs && u.op == op
  {
    forall u | u in regs
      ensures Key(u, "request") in annotations && Matches(Key(u, "request"), "request")
      ensures OperatorOf(Key(u, "request")) == u.op
    {
      MatchesOwnKind(u, "request", "request");
      OperatorIsRecovered(u, "request");
    }
    if key :| key in annotations.Keys && Matches(key, "request") && OperatorOf(key) == op {
      var u :| u in regs && key == Key(u, "request");
    }
    if u :| u in regs && u.op == op {
      assert Key(u, "request") in annotations.Keys;
    }
  }

  lemma AnyKeyMeans(annotations: map<string, string>, regs: Registrations)
    requires Represents(annotations, regs)
    ensures AnyKey(annotations, "operatorNamespace") <==> regs.Keys != {}
  {
    if u :| u in regs.Keys {
      MatchesOwnKind(u, "operatorNamespace", "operatorNamespace");
      assert Key(u, "operatorNamespace") in annotations;
    }
  }

  /** The decision taken from the annotation strings is the decision on the registrations. */
  lemma DecisionRefines(annotations: map<string, string>, regs: Registrations, t: Registrant, ns: string,
                        managed: bool, noop: bool)
    requires Represents(annotations, regs) && t in regs
    ensures UninstallFlags(annotations, t, ns, managed, noop) == Decide(regs, t, ns, managed, noop)
  {
    var rest, stay := annotations - OwnKeys(t), regs - {t};
    UnregisterRepresents(annotations, regs, t);
    var config := CurrentConfig(annotations, t);
    HeldMeans(rest, stay, "operatorNamespace", ns);
    HeldMeans(rest, stay, "config", config);
    OperatorHeldMeans(rest, stay, t.op);
    AnyKeyMeans(rest, stay);
    assert stay.Keys == regs.Keys - {t};
    forall u | u in stay
      ensures Registered(rest, u, regs[u])
    {
    }
  }

  // ---------------------------------------------------------------------------------------
  // Runs

  /** The steps of the protocol on one Subscription, each read-decide-write atomic. UserManaged is a
      reconcile whose operator the user manages by now. A failed step is one whose last write, or anything
      before it, the API server refuses. */
  datatype Event =
    | Reconcile(t: Registrant, registryNs: string, registryName: string, channel: string,
                optNamespace: string, operatorNamespace: string, config: string, noop: bool, failed: bool)
    | UserManaged(t: Registrant, failed: bool)
    | Unregister(t: Registrant, noop: bool, csvs: bool, failed: bool)
    | Relabel(labels: Control)

  datatype ControlLabel = Absent | OtherValue | Controlled

  /** The control label; whether the do-not-uninstall label is "true". */
  datatype Control = Control(control: ControlLabel, spared: bool) {
    predicate Managed() { control.Controlled? }
  }

  datatype Sub = Sub(ns: string, labels: Control, annotations: map<string, string>)

  function Marked(annotations: map<string, string>, e: Event, config: Option<string>): map<string, string>
    requires e.Reconcile?
  {
    Mark(annotations, e.registryNs, e.registryName, e.t, Registration(e.channel, e.operatorNamespace, config))
  }

  /** Creating writes no config name, reconciling does. A Subscription outside the operator's
      namespace that nobody asks for any more is deleted, one whose operator the user manages is, and
      one whose last registrant of its own namespace leaves, unless its label spares it. Without the
      control label it is let alone. */
  function Step(w: Option<Sub>, e: Event): Option<Sub> {
    match e
    case Reconcile(t, _, _, _, optNs, opNs, config, noop, failed) =>
      if failed then w
      else if w.None? then if noop then None else Some(Sub(opNs, Control(Controlled, false), Marked(map[], e, None)))
      else if w.value.labels.control.Absent? then w
      else
        var Sub(ns, labels, annotations) := w.value;
        if ns != optNs && AnyKey(annotations, "operatorNamespace") && !Held(annotations, annotations.Keys, "operatorNamespace", ns)
        then if labels.spared then w else None
        else Some(Sub(ns, labels, Marked(annotations, e, Some(config))))
    case UserManaged(t, failed) =>
      if failed || w.None? || w.value.labels.control.Absent? || w.value.labels.spared then w else None
    case Unregister(t, noop, csvs, failed) =>
      if failed || w.None? || w.value.labels.control.Absent? then w
      else
        var Sub(ns, labels, annotations) := w.value;
        if !UninstallFlags(annotations, t, ns, labels.Managed(), noop).operator then Some(Sub(ns, labels, annotations - OwnKeys(t)))
        else if csvs && labels.spared then w
        else None
    case Relabel(labels) => if w.None? then None else Some(w.value.(labels := labels))
  }

  function Run(w: Option<Sub>, events: seq<Event>): Option<Sub>
    decreases |events|
  {
    if events == [] then w else Run(Step(w, events[0]), events[1..])
  }

  /** The same run on registrations. */
  datatype Shared = Shared(ns: string, labels: Control, regs: Registrations)

  ghost predicate Claimed(a: Shared) {
    exists u | u in a.regs :: a.regs[u].operatorNamespace == a.ns
  }

  ghost function AbstractStep(a: Option<Shared>, e: Event): Option<Shared> {
    match e
    case Reconcile(t, _, _, channel, optNs, opNs, config, noop, failed) =>
      if failed then a
      else if a.None? then
        if noop then None else Some(Shared(opNs, Control(Controlled, false), map[t := Registration(channel, opNs, None)]))
      else if a.value.labels.control.Absent? then a
      else if a.value.ns != optNs && a.value.regs.Keys != {} && !Claimed(a.value) then
        if a.value.labels.spared then a else None
      else Some(a.value.(regs := a.value.regs[t := Registration(channel, opNs, Some(config))]))
    case UserManaged(t, failed) =>
      if failed || a.None? || a.value.labels.control.Absent? || a.value.labels.spared then a else None
    case Unregister(t, noop, csvs, failed) =>
      if failed || a.None? || a.value.labels.control.Absent? then a
      else
        var left := a.value.(regs := a.value.regs - {t});
        if Claimed(left) || !a.value.labels.Managed() then Some(left)
        else if csvs && a.value.labels.spared then a
        else None
    case Relabel(labels) => if a.None? then None else Some(a.value.(labels := labels))
  }

  ghost function AbstractRun(a: Option<Shared>, events: seq<Event>): Option<Shared>
    decreases |events|
  {
    if events == [] then a else AbstractRun(AbstractStep(a, events[0]), events[1..])
  }

  /** Names as the API server admits them, and registries without a dot in their name. */
  predicate WellNamedEvent(e: Event) {
    !e.Relabel? ==> WellNamed(e.t) && (e.Reconcile? ==> WellNamedRegistry(e.registryNs, e.registryName))
  }

  ghost predicate Corresponds(w: Option<Sub>, a: Option<Shared>) {
    match (w, a)
    case (None, None) => true
    case (Some(sub), Some(shared)) => sub.ns == shared.ns && sub.labels == shared.labels && Represents(sub.annotations, shared.regs)
    case _ => false
  }

  lemma ClaimedMeans(annotations: map<string, string>, a: Shared)
    requires Represents(annotations, a.regs)
    ensures Held(annotations, annotations.Keys, "operatorNamespace", a.ns) <==> Claimed(a)
    ensures AnyKey(annotations, "operatorNamespace") <==> a.regs.Keys != {}
  {
    HeldMeans(annotations, a.regs, "operatorNamespace", a.ns);
    AnyKeyMeans(annotations, a.regs);
  }

  lemma StepCorresponds(w: Option<Sub>, a: Option<Shared>, e: Event)
    requires Corresponds(w, a) && WellNamedEvent(e)
    ensures Corresponds(Step(w, e), AbstractStep(a, e))
  {
    match e
    case Reconcile(t, _, _, _, _, _, config, _, _) =>
      if w.None? {
        MarkRepresents(map[], map[], e.registryNs, e.registryName, t, Registration(e.channel, e.operatorNamespace, None));
      } else {
        ClaimedMeans(w.value.annotations, a.value);
        MarkRepresents(w.value.annotations, a.value.regs, e.registryNs, e.registryName, t, Registration(e.channel, e.operatorNamespace, Some(config)));
      }
    case Unregister(t, _, _, _) =>
      if w.Some? {
        UnregisterRepresents(w.value.annotations, a.value.regs, t);
        ClaimedMeans(w.value.annotations - OwnKeys(t), a.value.(regs := a.value.regs - {t}));
      }
    case _ =>
  }

  /** In every run the annotations stand for exactly the registrations made and not withdrawn,
      and a departure deletes the Subscription exactly when nobody left claims its namespace and no
      label keeps it. */
  lemma {:induction false} RunCorresponds(w: Option<Sub>, a: Option<Shared>, events: seq<Event>)
    requires Corresponds(w, a) && forall e | e in events :: WellNamedEvent(e)
    ensures Corresponds(Run(w, events), AbstractRun(a, events))
    decreases |events|
  {
    if events != [] {
      StepCorresponds(w, a, events[0]);
      RunCorresponds(Step(w, events[0]), AbstractStep(a, events[0]), events[1..]);
    }
  }

  // ---------------------------------------------------------------------------------------
  // Who can take the Subscription from whom

  lemma {:induction false} RunOneMore(w: Option<Sub>, events: seq<Event>, n: nat)
    requires n < |events|
    ensures Run(w, events[..n + 1]) == Step(Run(w, events[..n]), events[n])
    decreases n
  {
    hide Step;
    if n > 0 {
      RunOneMore(Step(w, events[0]), events[1..], n - 1);
      assert events[..n + 1][1..] == events[1..][..n] && events[..n][1..] == events[1..][..n - 1];
    } else {
      assert events[..1][1..] == [] && events[..0] == [];
    }
  }

  /** u is registered and claims the Subscription's own namespace. */
  ghost predicate Keeps(w: Option<Sub>, u: Registrant, reg: Registration) {
    w.Some? && Registered(w.value.annotations, u, reg) && reg.operatorNamespace == w.value.ns
  }

  /** The step deletes the Subscription because the user manages its operator. */
  predicate TakesAway(w: Option<Sub>, e: Event) {
    e.UserManaged? && !e.failed && w.Some? && !w.value.labels.control.Absent? && !w.value.labels.spared
  }

  /** Whatever another registrant does, u loses the Subscription exactly if that happens. */
  lemma ClaimantLosesExactly(w: Option<Sub>, a: Option<Shared>, e: Event, u: Registrant, reg: Registration)
    requires Corresponds(w, a) && WellNamedEvent(e) && a.Some? && u in a.value.regs && a.value.regs[u] == reg
    requires Keeps(w, u, reg) && (e.Relabel? || e.t != u)
    ensures Keeps(Step(w, e), u, reg) <==> !TakesAway(w, e)
    ensures Step(w, e).Some? ==>
      var b := AbstractStep(a, e); b.Some? && u in b.value.regs && b.value.regs[u] == reg && Keeps(Step(w, e), u, reg)
  {
    hide Registered, Matches, UninstallFlags, AnyKey, Held, Marked;
    StepCorresponds(w, a, e);
    assert Claimed(a.value);
    if e.Unregister? {
      var left := a.value.(regs := a.value.regs - {e.t});
      assert left.regs[u].operatorNamespace == left.ns;
    }
    var b := AbstractStep(a, e);
    if b.Some? { assert u in b.value.regs && b.value.regs[u] == reg; }
  }

  /** Over a whole run of others: u keeps the Subscription throughout exactly if it never happens. */
  lemma ClaimantKeepsExactly(w: Option<Sub>, a: Option<Shared>, events: seq<Event>, u: Registrant, reg: Registration)
    requires Corresponds(w, a) && a.Some? && u in a.value.regs && a.value.regs[u] == reg && Keeps(w, u, reg)
    requires forall e | e in events :: WellNamedEvent(e) && (e.Relabel? || e.t != u)
    ensures (forall n | 0 <= n <= |events| :: Keeps(Run(w, events[..n]), u, reg))
      <==> forall i | 0 <= i < |events| :: !TakesAway(Run(w, events[..i]), events[i])
  {
    hide Keeps, TakesAway, Step, AbstractStep, Corresponds, WellNamedEvent;
    if forall i | 0 <= i < |events| :: !TakesAway(Run(w, events[..i]), events[i]) {
      forall n | 0 <= n <= |events| ensures Keeps(Run(w, events[..n]), u, reg) {
        var b := KeptSoFar(w, a, events, u, reg, n);
      }
    } else {
      var i := FirstTakenAway(w, events, |events|);
      var b := KeptSoFar(w, a, events, u, reg, i);
      ClaimantLosesExactly(Run(w, events[..i]), b, events[i], u, reg);
      RunOneMore(w, events, i);
    }
  }

  lemma {:induction false} FirstTakenAway(w: Option<Sub>, events: seq<Event>, n: nat) returns (i: nat)
    requires n <= |events| && exists j | 0 <= j < n :: TakesAway(Run(w, events[..j]), events[j])
    ensures i < n && TakesAway(Run(w, events[..i]), events[i])
    ensures forall j | 0 <= j < i :: !TakesAway(Run(w, events[..j]), events[j])
  {
    hide TakesAway, Run;
    if exists j | 0 <= j < n - 1 :: TakesAway(Run(w, events[..j]), events[j]) {
      i := FirstTakenAway(w, events, n - 1);
    } else {
      i := n - 1;
    }
  }

  lemma {:induction false} KeptSoFar(w: Option<Sub>, a: Option<Shared>, events: seq<Event>, u: Registrant, reg: Registration, n: nat)
    returns (b: Option<Shared>)
    requires Corresponds(w, a) && a.Some? && u in a.value.regs && a.value.regs[u] == reg && Keeps(w, u, reg)
    requires n <= |events| && forall e | e in events :: WellNamedEvent(e) && (e.Relabel? || e.t != u)
    requires forall i | 0 <= i < n :: !TakesAway(Run(w, events[..i]), events[i])
    ensures Corresponds(Run(w, events[..n]), b) && b.Some? && u in b.value.regs && b.value.regs[u] == reg
    ensures Keeps(Run(w, events[..n]), u, reg)
  {
    hide TakesAway, Step, AbstractStep, Corresponds, WellNamedEvent;
    if n == 0 {
      assert events[..0] == [];
      b := a;
    } else {
      var c := KeptSoFar(w, a, events, u, reg, n - 1);
      var e := events[n - 1];
      ClaimantLosesExactly(Run(w, events[..n - 1]), c, e, u, reg);
      StepCorresponds(Run(w, events[..n - 1]), c, e);
      RunOneMore(w, events, n - 1);
      b := AbstractStep(c, e);
    }
  }

  /** An uninstall that flags the operator and finds no CSVs. */
  predicate EndsUnsaved(w: Option<Sub>, e: Event) {
    && e.Unregister? && !e.failed && !e.csvs && w.Some? && w.value.labels.Managed()
    && var rest := w.value.annotations - OwnKeys(e.t); !Held(rest, rest.Keys, "operatorNamespace", w.value.ns)
  }

  lemma SparedGoesExactly(sub: Sub, e: Event)
    requires sub.labels.spared && !e.Relabel?
    ensures Step(Some(sub), e).None? <==> EndsUnsaved(Some(sub), e)
    ensures Step(Some(sub), e).Some? ==> Step(Some(sub), e).value.labels.spared
  {
  }

  lemma {:induction false} SparedSoFar(w: Option<Sub>, events: seq<Event>, n: nat)
    requires w.Some? && w.value.labels.spared && n <= |events| && forall e | e in events :: !e.Relabel?
    requires forall i | 0 <= i < n :: !EndsUnsaved(Run(w, events[..i]), events[i])
    ensures Run(w, events[..n]).Some? && Run(w, events[..n]).value.labels.spared
  {
    hide EndsUnsaved, Step;
    if n == 0 {
      assert events[..0] == [];
    } else {
      SparedSoFar(w, events, n - 1);
      SparedGoesExactly(Run(w, events[..n - 1]).value, events[n - 1]);
      RunOneMore(w, events, n - 1);
    }
  }

  /** While it is there, the do-not-uninstall label protects from everything else: the Subscription is there
      throughout a run exactly if no such uninstall occurs in it. */
  lemma SparedStaysExactly(w: Option<Sub>, events: seq<Event>)
    requires w.Some? && w.value.labels.spared && forall e | e in events :: !e.Relabel?
    ensures (forall n | 0 <= n <= |events| :: Run(w, events[..n]).Some?)
      <==> forall i | 0 <= i < |events| :: !EndsUnsaved(Run(w, events[..i]), events[i])
  {
    hide EndsUnsaved, Step, Run;
    if forall i | 0 <= i < |events| :: !EndsUnsaved(Run(w, events[..i]), events[i]) {
      forall n | 0 <= n <= |events| ensures Run(w, events[..n]).Some? { SparedSoFar(w, events, n); }
    } else {
      var i := FirstUnsaved(w, events, |events|);
      SparedSoFar(w, events, i);
      SparedGoesExactly(Run(w, events[..i]).value, events[i]);
      RunOneMore(w, events, i);
      assert Run(w, events[..i + 1]).None?;
    }
  }

  lemma {:induction false} FirstUnsaved(w: Option<Sub>, events: seq<Event>, n: nat) returns (i: nat)
    requires n <= |events| && exists j | 0 <= j < n :: EndsUnsaved(Run(w, events[..j]), events[j])
    ensures i < n && EndsUnsaved(Run(w, events[..i]), events[i])
    ensures forall j | 0 <= j < i :: !EndsUnsaved(Run(w, events[..j]), events[j])
  {
    hide EndsUnsaved, Run;
    if exists j | 0 <= j < n - 1 :: EndsUnsaved(Run(w, events[..j]), events[j]) {
      i := FirstUnsaved(w, events, n - 1);
    } else {
      i := n - 1;
    }
  }

  /** The last registrant of a spared Subscription leaves before OLM has made any CSV: the Subscription is
      deleted; with a CSV it would stay, the registration included. */
  lemma SparedIsDeleted(t: Registrant, reg: Registration, ns: string)
    requires WellNamed(t) && reg.config.Some?
    ensures var sub := Sub(ns, Control(Controlled, true), WithRegistration(map[], t, reg));
      && Step(Some(sub), Unregister(t, false, false, false)) == None
      && Step(Some(sub), Unregister(t, false, true, false)) == Some(sub)
  {
    hide Matches;
    var annotations := WithRegistration(map[], t, reg);
    assert annotations - OwnKeys(t) == map[];
    var sub := Sub(ns, Control(Controlled, true), annotations);
    SparedGoesExactly(sub, Unregister(t, false, false, false));
  }

  // ---------------------------------------------------------------------------------------
  // Everybody leaves

  /** The flags raised when the registrants leave one after the other. */
  function Teardown(annotations: map<string, string>, order: seq<Registrant>, ns: string): (flags: seq<Flags>)
    ensures |flags| == |order|
  {
    if order == [] then []
    else
      [UninstallFlags(annotations, order[0], ns, true, false)]
      + Teardown(annotations - OwnKeys(order[0]), order[1..], ns)
  }

  /** Every registration was reconciled, claims the namespace and names a config. */
  ghost predicate Settled(regs: Registrations, ns: string) {
    forall t | t in regs :: regs[t].operatorNamespace == ns && regs[t].config.Some? && regs[t].config.value != ""
  }

  /** order lists every registrant once. */
  ghost predicate Lists(order: seq<Registrant>, regs: Registrations) {
    && (forall t :: t in order <==> t in regs)
    && (forall i, j | 0 <= i < j < |order| :: order[i] != order[j])
  }

  /** Nobody who leaves after the i-th shares its operator or its config. */
  ghost predicate LastOfItsKind(regs: Registrations, order: seq<Registrant>, i: nat)
    requires Lists(order, regs) && i < |order|
  {
    forall j | i < j < |order| :: order[j].op != order[i].op && regs[order[j]].config != regs[order[i]].config
  }

  /** Leaving in any order: the operator is flagged for the last one and for no other, the
      operands for exactly those after whom nobody shares their operator or config. */
  lemma {:induction false} TeardownFlags(annotations: map<string, string>, regs: Registrations,
                                         order: seq<Registrant>, ns: string)
    requires Represents(annotations, regs) && Settled(regs, ns) && Lists(order, regs)
    ensures forall i | 0 <= i < |order| ::
      Teardown(annotations, order, ns)[i] == Flags(i == |order| - 1, LastOfItsKind(regs, order, i))
    decreases |order|
  {
    if order != [] {
      hide Represents, Settled, Lists, LastOfItsKind, UninstallFlags, Decide;
      var t, rest := order[0], order[1..];
      FirstAway(annotations, regs, order, ns);
      TeardownFlags(annotations - OwnKeys(t), regs - {t}, rest, ns);
      LaterFlags(annotations, regs, order, ns);
    }
  }

  /** The first one's flags, and what is left for the others. */
  lemma FirstAway(annotations: map<string, string>, regs: Registrations, order: seq<Registrant>, ns: string)
    requires order != [] && Represents(annotations, regs) && Settled(regs, ns) && Lists(order, regs)
    ensures var t := order[0];
      && Represents(annotations - OwnKeys(t), regs - {t}) && Settled(regs - {t}, ns) && Lists(order[1..], regs - {t})
      && UninstallFlags(annotations, t, ns, true, false) == Flags(|order| == 1, LastOfItsKind(regs, order, 0))
  {
    hide Matches, Registered, UninstallFlags, Decide, LastOfItsKind;
    var t := order[0];
    assert t in order;
    UnregisterRepresents(annotations, regs, t);
    ListsRest(order, regs);
    DecisionRefines(annotations, regs, t, ns, true, false);
    FirstToLeave(regs, order, ns);
  }

  lemma LaterFlags(annotations: map<string, string>, regs: Registrations, order: seq<Registrant>, ns: string)
    requires order != [] && Lists(order, regs) && Lists(order[1..], regs - {order[0]})
    requires forall i | 0 <= i < |order| - 1 ::
      Teardown(annotations - OwnKeys(order[0]), order[1..], ns)[i] ==
        Flags(i == |order| - 2, LastOfItsKind(regs - {order[0]}, order[1..], i))
    ensures forall i | 1 <= i < |order| ::
      Teardown(annotations, order, ns)[i] == Flags(i == |order| - 1, LastOfItsKind(regs, order, i))
  {
    hide Lists, LastOfItsKind, UninstallFlags;
    forall i | 1 <= i < |order|
      ensures Teardown(annotations, order, ns)[i] == Flags(i == |order| - 1, LastOfItsKind(regs, order, i))
    {
      LaterToLeave(regs, order, i);
    }
  }

  lemma LaterToLeave(regs: Registrations, order: seq<Registrant>, i: nat)
    requires 1 <= i < |order| && Lists(order, regs) && Lists(order[1..], regs - {order[0]})
    ensures LastOfItsKind(regs - {order[0]}, order[1..], i - 1) <==> LastOfItsKind(regs, order, i)
  {
    var rest := order[1..];
    assert forall j | 0 < j < |order| :: order[j] == rest[j - 1];
    assert forall j | 0 <= j < |rest| :: rest[j] == order[j + 1];
  }

  lemma ListsRest(order: seq<Registrant>, regs: Registrations)
    requires order != [] && Lists(order, regs)
    ensures Lists(order[1..], regs - {order[0]})
  {
    forall t ensures t in order[1..] <==> t in regs - {order[0]} {
      if t in order && t != order[0] {
        var i :| 0 <= i < |order| && order[i] == t;
        assert order[1..][i - 1] == t;
      }
    }
  }

  lemma FirstToLeave(regs: Registrations, order: seq<Registrant>, ns: string)
    requires order != [] && Settled(regs, ns) && Lists(order, regs)
    ensures Decide(regs, order[0], ns, true, false) == Flags(|order| == 1, LastOfItsKind(regs, order, 0))
  {
    var t := order[0];
    var stay := regs.Keys - {t};
    assert forall j | 0 < j < |order| :: order[j] in stay;
    assert forall u | u in stay :: exists j :: 0 < j < |order| && order[j] == u;
    if |order| > 1 { assert order[1] in stay; }
  }

  /** When the config name is a function of the operator name, the operands of every config are
      flagged exactly once, when its last registrant leaves. */
  lemma EachConfigOnce(annotations: map<string, string>, regs: Registrations, order: seq<Registrant>, ns: string,
                       configOf: map<string, string>, config: string) returns (last: nat)
    requires Represents(annotations, regs) && Settled(regs, ns) && Lists(order, regs)
    requires forall t | t in regs :: t.op in configOf && regs[t].config == Some(configOf[t.op])
    requires exists t :: t in regs && configOf[t.op] == config
    ensures last < |order| && regs[order[last]].config == Some(config)
    ensures var flags := Teardown(annotations, order, ns);
      forall i | 0 <= i < |order| && regs[order[i]].config == Some(config) :: i <= last && (flags[i].operand <==> i == last)
  {
    TeardownFlags(annotations, regs, order, ns);
    last := LastWithConfig(regs, order, config);
    forall i | 0 <= i < |order| && regs[order[i]].config == Some(config)
      ensures LastOfItsKind(regs, order, i) <==> i == last
    {
      if i < last { assert regs[order[last]].config == regs[order[i]].config; }
    }
  }

  lemma LastWithConfig(regs: Registrations, order: seq<Registrant>, config: string) returns (last: nat)
    requires Lists(order, regs) && exists t :: t in regs && regs[t].config == Some(config)
    ensures last < |order| && regs[order[last]].config == Some(config)
    ensures forall j | last < j < |order| :: regs[order[j]].config != Some(config)
  {
    var t :| t in regs && regs[t].config == Some(config);
    assert t in order;
    last := |order| - 1;
    while regs[order[last]].config != Some(config)
      invariant last < |order|
      invariant forall j | last < j < |order| :: regs[order[j]].config != Some(config)
      decreases last
    {
      last := last - 1;
    }
  }

  /** Two configs behind one operator: the first one's operands are never flagged, because the
      operator is still asked for when its last registrant leaves. */
  lemma SharedOperatorHidesConfig(ns: string, x: string, y: string)
    returns (annotations: map<string, string>, order: seq<Registrant>)
    requires x != "" && y != "" && x != y
    ensures |order| == 2 && CurrentConfig(annotations, order[0]) == x && CurrentConfig(annotations, order[1]) == y
    ensures Teardown(annotations, order, ns) == [Flags(false, false), Flags(true, true)]
  {
    var t, u := Registrant("p", "a", "op"), Registrant("p", "b", "op");
    var regs: Registrations := map[t := Registration("v1", ns, Some(x)), u := Registration("v1", ns, Some(y))];
    assert WellNamed(t) && WellNamed(u);
    assert Represents(map[], map[]);
    RegisterRepresents(map[], map[], t, regs[t]);
    RegisterRepresents(WithRegistration(map[], t, regs[t]), map[t := regs[t]], u, regs[u]);
    annotations := WithRegistration(WithRegistration(map[], t, regs[t]), u, regs[u]);
    order := [t, u];
    assert map[t := regs[t]][u := regs[u]] == regs;
    assert Registered(annotations, t, regs[t]) && Registered(annotations, u, regs[u]);
    TeardownFlags(annotations, regs, order, ns);
    assert !LastOfItsKind(regs, order, 0) && LastOfItsKind(regs, order, 1);
  }

  /** No registrant of the config shares its operator with one of another config. */
  ghost predicate OwnOperators(regs: Registrations, config: string) {
    forall t, u | t in regs && u in regs && regs[t].config == Some(config) && regs[u].config != Some(config) :: t.op != u.op
  }

  /** Somebody of the config is flagged to take the operands along. */
  ghost predicate TornDown(annotations: map<string, string>, regs: Registrations, order: seq<Registrant>, ns: string, config: string)
    requires Lists(order, regs)
  {
    exists i | 0 <= i < |order| :: regs[order[i]].config == Some(config) && Teardown(annotations, order, ns)[i].operand
  }

  /** A config's operands are torn down whatever the order of departures if and only if it has its
      operators to itself. */
  lemma TornDownExactly(annotations: map<string, string>, regs: Registrations, ns: string, config: string)
    requires Represents(annotations, regs) && Settled(regs, ns) && exists t :: t in regs && regs[t].config == Some(config)
    ensures (forall order | Lists(order, regs) :: TornDown(annotations, regs, order, ns, config)) <==> OwnOperators(regs, config)
  {
    hide Represents, Settled, Lists, Teardown;
    if OwnOperators(regs, config) {
      forall order | Lists(order, regs) ensures TornDown(annotations, regs, order, ns, config) {
        TeardownFlags(annotations, regs, order, ns);
        var last := LastWithConfig(regs, order, config);
        LastIsLastOfItsKind(regs, order, config, last);
      }
    } else {
      var t, u :| t in regs && u in regs && regs[t].config == Some(config) && regs[u].config != Some(config) && t.op == u.op;
      var order := ListedLast(regs, t, u);
      TeardownFlags(annotations, regs, order, ns);
      forall i | 0 <= i < |order| && regs[order[i]].config == Some(config) ensures !LastOfItsKind(regs, order, i) {
        assert order[|order| - 2] == t && order[|order| - 1] == u;
      }
      assert !TornDown(annotations, regs, order, ns, config);
    }
  }

  lemma LastIsLastOfItsKind(regs: Registrations, order: seq<Registrant>, config: string, last: nat)
    requires Lists(order, regs) && last < |order| && OwnOperators(regs, config) && regs[order[last]].config == Some(config)
    requires forall j | last < j < |order| :: regs[order[j]].config != Some(config)
    ensures LastOfItsKind(regs, order, last)
  {
    forall j | last < j < |order| ensures order[j].op != order[last].op {
      assert order[j] in regs && order[last] in regs;
    }
  }

  /** An order in which t and u leave last. */
  lemma ListedLast(regs: Registrations, t: Registrant, u: Registrant) returns (order: seq<Registrant>)
    requires t in regs && u in regs && t != u
    ensures Lists(order, regs) && |order| >= 2 && order[|order| - 2] == t && order[|order| - 1] == u
  {
    var others := AnyOrder(regs.Keys - {t, u});
    order := others + [t, u];
    assert forall x :: x in order <==> x in others || x == t || x == u;
  }

  lemma {:induction false} AnyOrder(rest: set<Registrant>) returns (order: seq<Registrant>)
    ensures (forall x :: x in order <==> x in rest) && forall i, j | 0 <= i < j < |order| :: order[i] != order[j]
    decreases rest
  {
    if rest == {} { return []; }
    var t :| t in rest;
    var others := AnyOrder(rest - {t});
    order := others + [t];
  }
}
