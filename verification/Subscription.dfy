/**
 A Subscription shared by many OperandRequests: what one reconcile makes of it, what leaving
 makes of it, and the channel it follows over whole runs
 (controllers/operandrequest/reconcile_operator.go).
 */
module Subscriptions {
  import opened Annotations
  import opened Semver
  import opened Channels
  import opened Uninstall

  const OPREQ_LABEL := "operator.ibm.com/opreq-control"
  const NOT_UNINSTALL_LABEL := "operator.ibm.com/opreq-do-not-uninstall"
  const CLUSTER_OPERATOR_NAMESPACE := "openshift-operators"

  datatype InstallMode = Cluster | Namespace | Noop

  datatype Spec = Spec(channel: string, catalogSource: string, catalogSourceNamespace: string,
                       package: string, approval: string, config: Option<string>)

  /** The part of a Subscription that reconciling may rewrite. */
  datatype State = State(annotations: map<string, string>, spec: Spec)

  /** A registry's operator entry, its source and channel as discovery left them. */
  datatype Operator = Operator(name: string, ns: string, installMode: InstallMode, channel: string,
                               fallbackChannels: seq<string>, sourceName: string, sourceNamespace: string,
                               packageName: string, approval: string, configName: string, config: Option<string>)

  /** Who asks: one operand of one request, through one registry; explicit says that the
      registry itself names the catalog source. */
  datatype Asking = Asking(t: Registrant, registryNs: string, registryName: string, explicit: bool)

  predicate ControlledBy(labels: map<string, string>) {
    OPREQ_LABEL in labels && labels[OPREQ_LABEL] == "true"
  }

  function OperatorNamespace(opt: Operator): string {
    if opt.installMode == Cluster then CLUSTER_OPERATOR_NAMESPACE else opt.ns
  }

  // ---------------------------------------------------------------------------------------
  // One reconcile, on values

  function Marked(annotations: map<string, string>, who: Asking, opt: Operator): map<string, string> {
    Mark(annotations, who.registryNs, who.registryName, who.t,
         Registration(opt.channel, OperatorNamespace(opt), Some(if opt.configName != "" then opt.configName else opt.name)))
  }

  /** Both have a version and the first one's is lower. */
  predicate Older(channel: string, than: string) {
    IsValid(FindSemantic(channel)) && IsValid(FindSemantic(than)) && Compare(FindSemantic(channel), FindSemantic(than)) < 0
  }

  function SpecAfter(spec: Spec, choice: string, opt: Operator, explicit: bool): Spec {
    var moved := spec.(channel := if choice != "" then choice else spec.channel);
    if moved.channel != opt.channel then moved
    else
      var sourced := if explicit || moved.channel != spec.channel
                     then moved.(catalogSource := opt.sourceName, catalogSourceNamespace := opt.sourceNamespace)
                     else moved;
      sourced.(package := opt.packageName,
               approval := if opt.approval != "" then opt.approval else sourced.approval,
               config := if opt.config.Some? then opt.config else sourced.config)
  }

  /** r is a state reconciling may leave when it finds s: which one depends only on the order in
      which annotations of equal version are visited. */
  ghost predicate ReconciledTo(s: State, r: State, who: Asking, opt: Operator) {
    var marked := Marked(s.annotations, who, opt);
    if opt.installMode == Noop then
      r == State(if Older(s.spec.channel, opt.channel) then marked[Key(who.t, "request") := s.spec.channel] else marked, s.spec)
    else if opt.sourceNamespace == "" || opt.sourceName == "" then
      r == State(marked, s.spec)
    else
      exists choice :: ChannelChoice(marked, s.spec.channel, choice) && r == State(marked, SpecAfter(s.spec, choice, opt, who.explicit))
  }

  /** What the spec holds after a reconcile that may choose the channel. */
  predicate SpecFollows(was: Spec, now: Spec, who: Asking, opt: Operator) {
    if now.channel != opt.channel then now == was.(channel := now.channel)
    else
      && now.package == opt.packageName
      && now.approval == (if opt.approval != "" then opt.approval else was.approval)
      && now.config == (if opt.config.Some? then opt.config else was.config)
      && now.catalogSource == (if who.explicit || now.channel != was.channel then opt.sourceName else was.catalogSource)
      && now.catalogSourceNamespace == (if who.explicit || now.channel != was.channel then opt.sourceNamespace else was.catalogSourceNamespace)
  }

  /** The request's entry: a no-op operator whose entry asks for a greater version is asked for at the
      channel the Subscription has. */
  function RequestEntry(channel: string, opt: Operator): string {
    var there, asked := FindSemantic(channel), FindSemantic(opt.channel);
    if opt.installMode == Noop && IsValid(there) && IsValid(asked) && NumericLess(there, asked) then channel else opt.channel
  }

  /** What the annotations hold: the request's own three entries, its registry's two, which an own entry of
      the same key overwrites, and everything else as it was. */
  predicate AnnotationsSay(was: map<string, string>, now: map<string, string>, who: Asking, opt: Operator, channel: string) {
    var own := {Key(who.t, "request"), Key(who.t, "operatorNamespace"), Key(who.t, "config")};
    var registry := {RegistryKey(who.registryNs, who.registryName, "registry"), RegistryKey(who.registryNs, who.registryName, "config")};
    && now.Keys == was.Keys + own + registry
    && now[Key(who.t, "request")] == RequestEntry(channel, opt)
    && now[Key(who.t, "operatorNamespace")] == (if opt.installMode == Cluster then CLUSTER_OPERATOR_NAMESPACE else opt.ns)
    && now[Key(who.t, "config")] == (if opt.configName != "" then opt.configName else opt.name)
    && (forall key | key in registry && key !in own :: now[key] == "true")
    && (forall key | key in was && key !in own && key !in registry :: now[key] == was[key])
  }

  lemma SpecAfterFollows(spec: Spec, choice: string, opt: Operator, who: Asking)
    ensures SpecFollows(spec, SpecAfter(spec, choice, opt, who.explicit), who, opt)
  {
  }

  lemma SpecAfterChannel(spec: Spec, choice: string, opt: Operator, who: Asking)
    ensures SpecAfter(spec, choice, opt, who.explicit).channel == if choice != "" then choice else spec.channel
  {
  }

  lemma OwnKeysApart(t: Registrant)
    ensures Key(t, "request") != Key(t, "operatorNamespace") && Key(t, "request") != Key(t, "config")
    ensures Key(t, "operatorNamespace") != Key(t, "config")
  {
    assert Key(t, "request")[|Key(t, "request")| - 1] == 't' && Key(t, "config")[|Key(t, "config")| - 1] == 'g';
    assert Key(t, "operatorNamespace")[|Key(t, "operatorNamespace")| - 1] == 'e';
  }

  lemma MarkedSays(annotations: map<string, string>, who: Asking, opt: Operator, channel: string)
    ensures var marked := Marked(annotations, who, opt);
      AnnotationsSay(annotations, if opt.installMode == Noop && Older(channel, opt.channel) then marked[Key(who.t, "request") := channel] else marked,
                     who, opt, channel)
  {
    hide IsValid, FindSemantic, Compare, NumericLess;
    OwnKeysApart(who.t);
    if IsValid(FindSemantic(channel)) && IsValid(FindSemantic(opt.channel)) {
      CompareIsNumeric(FindSemantic(channel), FindSemantic(opt.channel));
    }
  }

  /** The channel is the one the annotations call for, or as it was when they call for none. */
  ghost predicate FollowsChoice(annotations: map<string, string>, was: string, now: string) {
    exists choice :: ChannelChoice(annotations, was, choice) && now == if choice != "" then choice else was
  }

  /** Every state reconciling may leave is like that, and the spec is touched only where the channel is up
      for choice. */
  lemma ReconciledMeans(s: State, r: State, who: Asking, opt: Operator)
    requires ReconciledTo(s, r, who, opt)
    ensures AnnotationsSay(s.annotations, r.annotations, who, opt, s.spec.channel)
    ensures if Chooses(opt) then SpecFollows(s.spec, r.spec, who, opt) else r.spec == s.spec
    ensures Chooses(opt) ==> FollowsChoice(r.annotations, s.spec.channel, r.spec.channel)
  {
    hide AnnotationsSay, SpecFollows, SpecAfter, Marked, Older, ChannelChoice;
    MarkedSays(s.annotations, who, opt, s.spec.channel);
    if Chooses(opt) {
      var choice :| ChannelChoice(Marked(s.annotations, who, opt), s.spec.channel, choice)
        && r == State(Marked(s.annotations, who, opt), SpecAfter(s.spec, choice, opt, who.explicit));
      SpecAfterFollows(s.spec, choice, opt, who);
      assert r.spec.channel == (if choice != "" then choice else s.spec.channel) by { SpecAfterChannel(s.spec, choice, opt, who); }
    }
  }

  /** Marking again writes the same, whatever the request's own channel entry was set to since. */
  lemma MarkedTwice(annotations: map<string, string>, who: Asking, opt: Operator, channel: string)
    ensures var m := Marked(annotations, who, opt);
      Marked(m, who, opt) == m && Marked(m[Key(who.t, "request") := channel], who, opt) == m
  {
    var m := Marked(annotations, who, opt);
    var n := m[Key(who.t, "request") := channel];
    assert Marked(m, who, opt) == m;
    assert Marked(n, who, opt).Keys == m.Keys;
    assert Marked(n, who, opt) == m;
  }

  /** With an unchanged registry a second reconcile changes nothing, whatever order the
      annotations are visited in, if the choice of channel settles. */
  lemma SecondReconcileChangesNothing(s: State, r: State, q: State, who: Asking, opt: Operator)
    requires ReconciledTo(s, r, who, opt) && ReconciledTo(r, q, who, opt)
    requires opt.installMode != Noop ==> Settles(Marked(s.annotations, who, opt), s.spec.channel)
    ensures q == r
  {
    hide Settles, ChannelChoice, Older, SpecAfter;
    MarkedTwice(s.annotations, who, opt, s.spec.channel);
    if Chooses(opt) { SecondChoiceChangesNothing(s, r, q, who, opt); }
  }

  /** The channel is up for choice: an operator that is not no-op and has a catalog. */
  predicate Chooses(opt: Operator) {
    opt.installMode != Noop && opt.sourceNamespace != "" && opt.sourceName != ""
  }

  lemma SecondChoiceChangesNothing(s: State, r: State, q: State, who: Asking, opt: Operator)
    requires ReconciledTo(s, r, who, opt) && ReconciledTo(r, q, who, opt) && Chooses(opt)
    requires Settles(Marked(s.annotations, who, opt), s.spec.channel)
    ensures q == r
  {
    hide Settles, ChannelChoice, Marked;
    var marked := Marked(s.annotations, who, opt);
    MarkedTwice(s.annotations, who, opt, s.spec.channel);
    var first :| ChannelChoice(marked, s.spec.channel, first) && r == State(marked, SpecAfter(s.spec, first, opt, who.explicit));
    var second :| ChannelChoice(marked, r.spec.channel, second) && q == State(marked, SpecAfter(r.spec, second, opt, who.explicit));
    assert r.spec.channel == Followed(s.spec.channel, first);
    ChoiceIsStable(marked, s.spec.channel, first, second);
    SpecAfterTwice(s.spec, first, second, opt, who.explicit);
  }

  ghost predicate Idempotent(s: State, r: State, q: State, who: Asking, opt: Operator) {
    ReconciledTo(s, r, who, opt) && ReconciledTo(r, q, who, opt) ==> q == r
  }

  /** And exactly then, where the channel is up for choice. */
  lemma IdempotentExactly(s: State, who: Asking, opt: Operator)
    requires Chooses(opt)
    ensures (forall r, q :: Idempotent(s, r, q, who, opt)) <==> Settles(Marked(s.annotations, who, opt), s.spec.channel)
  {
    hide ReconciledTo, Marked, LeastRequested, ChannelChoice;
    var marked := Marked(s.annotations, who, opt);
    if Settles(marked, s.spec.channel) {
      forall r, q ensures Idempotent(s, r, q, who, opt) {
        if ReconciledTo(s, r, who, opt) && ReconciledTo(r, q, who, opt) { SecondReconcileChangesNothing(s, r, q, who, opt); }
      }
    } else {
      var channel :| LeastRequested(marked, channel) && channel != "";
      var r, q := Unsettled(s, who, opt, channel);
      assert !Idempotent(s, r, q, who, opt);
    }
  }

  /** The first pass comes out with the empty channel, the second with another. */
  lemma Unsettled(s: State, who: Asking, opt: Operator, channel: string) returns (r: State, q: State)
    requires Chooses(opt) && channel != ""
    requires var marked := Marked(s.annotations, who, opt);
      !HeldNow(marked, s.spec.channel) && LeastRequested(marked, "") && LeastRequested(marked, channel)
    ensures ReconciledTo(s, r, who, opt) && ReconciledTo(r, q, who, opt) && q != r
  {
    hide Marked, LeastRequested, ChannelChoice, HeldNow;
    var marked := Marked(s.annotations, who, opt);
    MarkedTwice(s.annotations, who, opt, s.spec.channel);
    UnsettledChoice(marked, s.spec.channel, channel);
    r := State(marked, SpecAfter(s.spec, "", opt, who.explicit));
    q := State(marked, SpecAfter(r.spec, channel, opt, who.explicit));
    assert r.spec.channel == s.spec.channel && q.spec.channel == channel;
  }

  lemma SpecAfterTwice(spec: Spec, first: string, second: string, opt: Operator, explicit: bool)
    requires var r := SpecAfter(spec, first, opt, explicit); second == "" || second == r.channel
    ensures var r := SpecAfter(spec, first, opt, explicit); SpecAfter(r, second, opt, explicit) == r
  {
  }

  /** The channel moves only when no request is left for its version, and then to a requested
      channel of least version. */
  lemma ChannelMovesOnlyUnrequested(s: State, r: State, who: Asking, opt: Operator)
    requires ReconciledTo(s, r, who, opt) && r.spec.channel != s.spec.channel
    ensures opt.installMode != Noop
    ensures !HeldNow(r.annotations, s.spec.channel)
    ensures LeastRequested(r.annotations, r.spec.channel)
  {
  }

  // ---------------------------------------------------------------------------------------
  // Whole runs

  datatype Event = Reconcile(who: Asking, opt: Operator) | Leave(t: Registrant)

  ghost predicate StepTo(s: State, r: State, e: Event) {
    match e
    case Reconcile(who, opt) => ReconciledTo(s, r, who, opt)
    case Leave(t) => r == State(s.annotations - OwnKeys(t), s.spec)
  }

  ghost predicate IsRun(states: seq<State>, events: seq<Event>) {
    |states| == |events| + 1 && forall i | 0 <= i < |events| :: StepTo(states[i], states[i + 1], events[i])
  }

  /** Events of others: they neither withdraw nor rewrite t's request. */
  predicate ByOthers(e: Event, t: Registrant) {
    match e
    case Reconcile(who, _) => WellNamed(who.t) && WellNamedRegistry(who.registryNs, who.registryName) && who.t != t
    case Leave(u) => WellNamed(u) && u != t
  }

  /** t's request asks for the version of the Subscription's channel. */
  predicate Asks(s: State, t: Registrant) {
    Key(t, "request") in s.annotations && FindSemantic(s.annotations[Key(t, "request")]) == FindSemantic(s.spec.channel)
  }

  lemma OthersLeaveRequest(s: State, r: State, e: Event, t: Registrant)
    requires WellNamed(t) && ByOthers(e, t) && StepTo(s, r, e) && Key(t, "request") in s.annotations
    ensures Key(t, "request") in r.annotations && r.annotations[Key(t, "request")] == s.annotations[Key(t, "request")]
  {
    var key := Key(t, "request");
    var u := if e.Reconcile? then e.who.t else e.t;
    KeysApart(t, u);
    assert key in OwnKeys(t);
    if e.Reconcile? {
      MatchesOwnKind(t, "request", "request");
      RegistryKeyMatches(e.who.registryNs, e.who.registryName, "registry", "request");
      RegistryKeyMatches(e.who.registryNs, e.who.registryName, "config", "request");
    }
  }

  /** While one registrant keeps asking for the current channel's version, one that semver accepts, nothing
      the others do in any order moves the channel. */
  lemma {:induction false} ChannelIsHeld(states: seq<State>, events: seq<Event>, t: Registrant)
    requires IsRun(states, events) && WellNamed(t) && Asks(states[0], t)
    requires states[0].spec.channel != "" && IsValid(FindSemantic(states[0].spec.channel))
    requires forall e | e in events :: ByOthers(e, t)
    ensures forall i | 0 <= i < |states| :: states[i].spec.channel == states[0].spec.channel
    decreases |events|
  {
    hide FindSemantic, IsValid, Matches;
    if events != [] {
      var s, r := states[0], states[1];
      assert StepTo(s, r, events[0]) && events[0] in events;
      OthersLeaveRequest(s, r, events[0], t);
      MatchesOwnKind(t, "request", "request");
      assert RequestedVersion(r.annotations, r.annotations.Keys, FindSemantic(s.spec.channel));
      if r.spec.channel != s.spec.channel {
        ChannelMovesOnlyUnrequested(s, r, events[0].who, events[0].opt);
      }
      assert IsRun(states[1..], events[1..]);
      ChannelIsHeld(states[1..], events[1..], t);
      forall i | 1 <= i < |states| ensures states[i].spec.channel == states[0].spec.channel {
        assert states[i] == states[1..][i - 1];
      }
    }
  }

  ghost predicate HeldInRun(states: seq<State>, events: seq<Event>, t: Registrant) {
    IsRun(states, events) && WellNamed(t) && Asks(states[0], t) && (forall e | e in events :: ByOthers(e, t)) ==>
      forall i | 0 <= i < |states| :: states[i].spec.channel == states[0].spec.channel
  }

  /** For other channels it is not so: a channel is held in every run like that if and only if it has a name
      and semver accepts its version. */
  lemma ChannelIsHeldExactly(channel: string)
    ensures (forall states: seq<State>, events, t | states != [] && states[0].spec.channel == channel :: HeldInRun(states, events, t))
      <==> channel != "" && IsValid(FindSemantic(channel))
  {
    hide FindSemantic, IsValid, IsRun, Asks;
    if channel != "" && IsValid(FindSemantic(channel)) {
      forall states: seq<State>, events, t | states != [] && states[0].spec.channel == channel ensures HeldInRun(states, events, t) {
        if IsRun(states, events) && WellNamed(t) && Asks(states[0], t) && forall e | e in events :: ByOthers(e, t) {
          ChannelIsHeld(states, events, t);
        }
      }
    } else {
      var states, events, t := RunAway(channel);
      assert !HeldInRun(states, events, t);
    }
  }

  /** t asks for the channel the Subscription follows, u comes and asks for its rival. */
  lemma RunAway(channel: string) returns (states: seq<State>, events: seq<Event>, t: Registrant)
    requires channel == "" || !IsValid(FindSemantic(channel))
    ensures IsRun(states, events) && WellNamed(t) && Asks(states[0], t) && forall e | e in events :: ByOthers(e, t)
    ensures |states| == 2 && states[0].spec.channel == channel != states[1].spec.channel
  {
    hide FindSemantic, IsValid, Marked, Represents, ChannelChoice, Matches, Rival;
    t := Registrant("p", "a", "op");
    var u := Registrant("p", "b", "op");
    var opt := Operator("op", "p", Namespace, Rival(channel), [], "source", "p", "package", "", "", None);
    var who := Asking(u, "p", "registry", false);
    var annotations := WithRegistration(map[], t, Registration(channel, "p", Some("op")));
    var s := State(annotations, Spec(channel, "", "", "", "", None));
    OwnKeysDistinct(t);
    assert annotations[Key(t, "request")] == channel;
    RivalComes(annotations, channel, t, who, opt);
    RivalIsAsLow(channel);
    var r := State(Marked(annotations, who, opt), SpecAfter(s.spec, Rival(channel), opt, false));
    assert ReconciledTo(s, r, who, opt);
    states, events := [s, r], [Reconcile(who, opt)];
    assert StepTo(states[0], states[1], events[0]);
  }

  lemma RivalComes(annotations: map<string, string>, channel: string, t: Registrant, who: Asking, opt: Operator)
    requires channel == "" || !IsValid(FindSemantic(channel))
    requires opt.channel == Rival(channel) && opt.configName == "" && t != who.t
    requires WellNamed(t) && WellNamed(who.t) && WellNamedRegistry(who.registryNs, who.registryName)
    requires annotations == WithRegistration(map[], t, Registration(channel, "p", Some("op")))
    ensures ChannelChoice(Marked(annotations, who, opt), channel, Rival(channel))
  {
    hide FindSemantic, IsValid, Matches, Rival, ChannelChoice;
    var marked := Marked(annotations, who, opt);
    var reg := Registration(opt.channel, OperatorNamespace(opt), Some(opt.name));
    var regs: map<Registrant, Registration> := map[t := Registration(channel, "p", Some("op"))];
    assert Represents(map[], map[]);
    RegisterRepresents(map[], map[], t, regs[t]);
    assert map[][t := regs[t]] == regs;
    MarkRepresents(annotations, regs, who.registryNs, who.registryName, who.t, reg);
    forall key | key in marked && Matches(key, "request") ensures marked[key] == channel || marked[key] == Rival(channel) {
      var x :| x in regs[who.t := reg] && key == Key(x, "request");
      assert Registered(marked, x, regs[who.t := reg][x]);
    }
    assert Registered(marked, who.t, reg);
    MatchesOwnKind(who.t, "request", "request");
    RivalMayBeChosen(marked, channel);
  }

  // ---------------------------------------------------------------------------------------
  // The object itself

  /** How a reconcile of an existing Subscription ends. */
  datatype Ending =
    | NotOurs
    | Spared
    | ToDelete
    | Written(matched: bool, inScope: bool)

  class Subscription {
    var namespace: string
    var labels: map<string, string>
    var annotations: map<string, string>
    var spec: Spec

    function Value(): State
      reads this
    {
      State(annotations, spec)
    }

    /** Removes the registrant's own annotations, scans what is left in any order, decides. */
    method CheckAnnotationsForUninstall(t: Registrant, noop: bool)
      returns (uninstallOperator: bool, uninstallOperand: bool)
      modifies this`annotations
      ensures annotations == old(annotations) - OwnKeys(t)
      ensures Flags(uninstallOperator, uninstallOperand) == 
        UninstallFlags(old(annotations), t, namespace, OPREQ_LABEL in labels && labels[OPREQ_LABEL] == "true", noop)
    {
      uninstallOperator, uninstallOperand := true, true;
      var currentConfigName := "";
      if Key(t, "config") in annotations {
        currentConfigName := annotations[Key(t, "config")];
      }
      annotations := annotations - {Key(t, "request")};
      annotations := annotations - {Key(t, "operatorNamespace")};
      annotations := annotations - {Key(t, "config")};
      assert annotations == old(annotations) - OwnKeys(t);

      var opreqNsSlice, operatorNameSlice, configNameSlice := ScanAnnotations(annotations);
      if namespace in opreqNsSlice { uninstallOperator := false; }
      if !ControlledBy(labels) { uninstallOperator := false; }
      if (!uninstallOperator && noop) || (uninstallOperator && |opreqNsSlice| != 0)
         || t.op in operatorNameSlice
         || (currentConfigName != "" && currentConfigName in configNameSlice) || currentConfigName == "" {
        uninstallOperand := false;
      }
    }

    /** reconcileSubscription for a Subscription that exists. ToDelete and Spared are the
        namespace migration, NotOurs a Subscription without the control label. */
    method ReconcileExisting(who: Asking, opt: Operator) returns (ending: Ending)
      modifies this`annotations, this`spec
      ensures ending.NotOurs? <==> OPREQ_LABEL !in labels
      ensures ending.Spared? || ending.ToDelete? <==>
        && OPREQ_LABEL in labels && namespace != opt.ns && AnyKey(old(annotations), "operatorNamespace")
        && !Held(old(annotations), old(annotations).Keys, "operatorNamespace", namespace)
      ensures ending.Spared? ==> NOT_UNINSTALL_LABEL in labels && labels[NOT_UNINSTALL_LABEL] == "true"
      ensures ending.ToDelete? ==> !(NOT_UNINSTALL_LABEL in labels && labels[NOT_UNINSTALL_LABEL] == "true")
      ensures !ending.Written? ==> Value() == old(Value())
      ensures ending.Written? ==> ReconciledTo(old(Value()), Value(), who, opt)
      ensures ending.Written? ==> AnnotationsSay(old(annotations), annotations, who, opt, old(spec).channel)
      ensures ending.Written? && (opt.installMode == Noop || opt.sourceName == "" || opt.sourceNamespace == "") ==> spec == old(spec)
      ensures ending.Written? && opt.installMode != Noop && opt.sourceName != "" && opt.sourceNamespace != "" ==>
        SpecFollows(old(spec), spec, who, opt) && FollowsChoice(annotations, old(spec).channel, spec.channel)
      ensures spec.channel != old(spec).channel ==>
        LeastRequested(annotations, spec.channel) && !HeldNow(annotations, old(spec).channel)
      ensures ending.Written? ==> (ending.inScope <==> namespace == opt.ns)
      ensures ending.Written? ==> (ending.matched <==>
        opt.installMode == Noop ||
        (opt.sourceName != "" && opt.sourceNamespace != "" && spec.channel in [opt.channel] + opt.fallbackChannels))
    {
      hide Marked, SpecAfter, ChannelChoice, LeastRequested, RequestedVersion, AnnotationsSay, SpecFollows, FollowsChoice;
      if OPREQ_LABEL !in labels { return NotOurs; }
      var isMatchedChannel, isInScope := false, false;
      if namespace == opt.ns {
        isInScope := true;
      } else {
        var nsAnnoSlice, _, _ := ScanAnnotations(annotations);
        if |nsAnnoSlice| != 0 && namespace !in nsAnnoSlice {
          if NOT_UNINSTALL_LABEL in labels && labels[NOT_UNINSTALL_LABEL] == "true" { return Spared; }
          return ToDelete;
        }
      }

      MarkAnnotations(who, opt);
      if opt.installMode == Noop {
        isMatchedChannel := true;
        if Older(spec.channel, opt.channel) {
          annotations := annotations[Key(who.t, "request") := spec.channel];
        }
      } else if opt.sourceNamespace != "" && opt.sourceName != "" {
        isMatchedChannel := FollowChannel(opt, who.explicit);
      }
      ending := Written(isMatchedChannel, isInScope);
      ReconciledMeans(old(Value()), Value(), who, opt);
      if spec.channel != old(spec).channel { ChannelMovesOnlyUnrequested(old(Value()), Value(), who, opt); }
    }

    method MarkAnnotations(who: Asking, opt: Operator)
      modifies this`annotations
      ensures annotations == Marked(old(annotations), who, opt)
    {
      annotations := annotations[RegistryKey(who.registryNs, who.registryName, "registry") := "true"];
      annotations := annotations[RegistryKey(who.registryNs, who.registryName, "config") := "true"];
      annotations := annotations[Key(who.t, "request") := opt.channel];
      annotations := annotations[Key(who.t, "operatorNamespace") := OperatorNamespace(opt)];
      if opt.configName != "" {
        annotations := annotations[Key(who.t, "config") := opt.configName];
      } else {
        annotations := annotations[Key(who.t, "config") := opt.name];
      }
    }

    /** Moves to the channel the annotations call for; the rest of the spec follows the operator
        entry only when that is the entry's own channel. */
    method FollowChannel(opt: Operator, explicit: bool) returns (isMatchedChannel: bool)
      modifies this`spec
      ensures exists choice :: ChannelChoice(annotations, old(spec).channel, choice) && spec == SpecAfter(old(spec), choice, opt, explicit)
      ensures isMatchedChannel <==> spec.channel in [opt.channel] + opt.fallbackChannels
    {
      var was := spec;
      var minChannel := FindMinSemverFromAnnotations(annotations, spec.channel);
      if minChannel != "" { spec := spec.(channel := minChannel); }
      isMatchedChannel := spec.channel in [opt.channel] + opt.fallbackChannels;
      if spec.channel == opt.channel {
        if explicit || spec.channel != was.channel {
          spec := spec.(catalogSource := opt.sourceName);
          spec := spec.(catalogSourceNamespace := opt.sourceNamespace);
        }
        spec := spec.(package := opt.packageName);
        if opt.approval != "" && spec.approval != opt.approval { spec := spec.(approval := opt.approval); }
        if opt.config != None { spec := spec.(config := opt.config); }
      }
      assert spec == SpecAfter(was, minChannel, opt, explicit);
    }

    /** getSubToRequestMapper: the request some annotation names, or none. */
    method RequestToNotify() returns (r: Option<(string, string)>)
      ensures r.Some? ==> exists key | key in annotations :: Matches(key, "request") && RequestOf(key) == r.value
      ensures r.None? ==> forall key | key in annotations && Matches(key, "request") ::
        exists other | other in annotations :: Matches(other, "request") && (RequestOf(other).0 == "" || RequestOf(other).1 == "")
    {
      var reqNamespace, reqName := "", "";
      ghost var source: string := "";
      var todo := annotations.Keys;
      while todo != {}
        invariant todo <= annotations.Keys
        invariant (source in annotations && Matches(source, "request") && RequestOf(source) == (reqNamespace, reqName)) ||
                  (reqNamespace == "" && reqName == "" && forall key | key in annotations && key !in todo :: !Matches(key, "request"))
        decreases todo
      {
        var key :| key in todo;
        if Matches(key, "request") {
          reqNamespace, reqName := RequestOf(key).0, RequestOf(key).1;
          source := key;
        }
        todo := todo - {key};
      }
      if reqNamespace == "" || reqName == "" { return None; }
      return Some((reqNamespace, reqName));
    }
  }

  /** On a well-named Subscription that mapper names a request that is registered there. */
  lemma NotifiesARegisteredRequest(annotations: map<string, string>, regs: map<Registrant, Registration>, key: string)
    requires Represents(annotations, regs) && key in annotations && Matches(key, "request")
    requires forall t | t in regs :: '.' !in t.name
    ensures exists t | t in regs :: RequestOf(key) == (t.ns, t.name)
  {
    var t :| t in regs && key == Key(t, "request");
    RequestIsRecovered(t, "request");
  }
}
