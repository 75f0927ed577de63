/**
 The steps of the runs in LastOneOut are what reconciling and uninstalling make of the one Subscription
 (controllers/operandrequest/reconcile_operator.go).
 */
module SharedSteps {
  import opened Annotations
  import opened Uninstall
  import C = Cleanup
  import L = LastOneOut
  import S = Subscriptions

  function ControlOf(labels: map<string, string>): L.Control {
    L.Control(
      if S.OPREQ_LABEL !in labels then L.Absent else if labels[S.OPREQ_LABEL] == "true" then L.Controlled else L.OtherValue,
      S.NOT_UNINSTALL_LABEL in labels && labels[S.NOT_UNINSTALL_LABEL] == "true")
  }

  function Seen(ns: string, labels: map<string, string>, annotations: map<string, string>): Option<L.Sub> {
    Some(L.Sub(ns, ControlOf(labels), annotations))
  }

  /** What an uninstall leaves of the only candidate is what the run's departure leaves. */
  lemma UninstallIsStep(subs: C.Subs, t: Registrant, p: C.Place, fate: C.Fate, id: C.Id)
    requires fate.Finished? && C.Candidate(subs, id, p) && forall i | C.Candidate(subs, i, p) :: i == id
    ensures var now := C.Afterwards(subs, t, p, fate);
      L.Step(Seen(id.ns, subs[id].labels, subs[id].annotations),
             L.Unregister(t, p.noop, fate.csvs, !(fate.found && C.Succeeds(subs, t, p, fate)))) ==
        if id in now then Seen(id.ns, now[id].labels, now[id].annotations) else None
  {
    hide UninstallFlags, OwnKeys, C.Succeeds, C.Afterwards;
    C.UninstallOutcome(subs, t, p, fate);
  }

  /** The event a reconcile of an operator that the user does not manage is. */
  function EventOf(who: S.Asking, opt: S.Operator, channel: string): L.Event {
    L.Reconcile(who.t, who.registryNs, who.registryName, S.RequestEntry(channel, opt), opt.ns,
                if opt.installMode == S.Cluster then S.CLUSTER_OPERATOR_NAMESPACE else opt.ns,
                if opt.configName != "" then opt.configName else opt.name, opt.installMode == S.Noop, false)
  }

  /** Where the Subscription stays, reconciling writes the annotations of the run's step. */
  lemma ReconcileIsStep(s: S.State, r: S.State, ns: string, labels: map<string, string>, who: S.Asking, opt: S.Operator)
    requires S.ReconciledTo(s, r, who, opt) && S.OPREQ_LABEL in labels
    requires ns == opt.ns || !AnyKey(s.annotations, "operatorNamespace") || Held(s.annotations, s.annotations.Keys, "operatorNamespace", ns)
    ensures L.Step(Seen(ns, labels, s.annotations), EventOf(who, opt, s.spec.channel)) == Seen(ns, labels, r.annotations)
  {
    hide Held, AnyKey, S.ReconciledTo, L.Marked;
    S.ReconciledMeans(s, r, who, opt);
    var now := L.Marked(s.annotations, EventOf(who, opt, s.spec.channel), Some(EventOf(who, opt, s.spec.channel).config));
    MarkedSaysToo(s.annotations, who, opt, s.spec.channel);
    SaysOne(s.annotations, now, r.annotations, who, opt, s.spec.channel);
  }

  lemma MarkedSaysToo(annotations: map<string, string>, who: S.Asking, opt: S.Operator, channel: string)
    ensures var e := EventOf(who, opt, channel);
      S.AnnotationsSay(annotations, L.Marked(annotations, e, Some(e.config)), who, opt, channel)
  {
    hide S.RequestEntry;
    S.OwnKeysApart(who.t);
  }

  /** There is one map that says all that. */
  lemma SaysOne(was: map<string, string>, a: map<string, string>, b: map<string, string>, who: S.Asking, opt: S.Operator, channel: string)
    requires S.AnnotationsSay(was, a, who, opt, channel) && S.AnnotationsSay(was, b, who, opt, channel)
    ensures a == b
  {
    hide S.RequestEntry;
    forall key | key in a ensures a[key] == b[key] {
    }
  }

  /** A labelled Subscription outside its operator's namespace that nobody asks for there. */
  predicate Strayed(ns: string, labels: map<string, string>, annotations: map<string, string>, opt: S.Operator) {
    && S.OPREQ_LABEL in labels && ns != opt.ns
    && AnyKey(annotations, "operatorNamespace") && !Held(annotations, annotations.Keys, "operatorNamespace", ns)
  }

  /** Where there is none yet, one is created with the control label and four annotations, unless the operator
      is no-op. */
  lemma CreateIsStep(who: S.Asking, opt: S.Operator, channel: string)
    ensures opt.installMode == S.Noop ==> L.Step(None, EventOf(who, opt, channel)) == None
    ensures opt.installMode != S.Noop ==>
      var ns := if opt.installMode == S.Cluster then S.CLUSTER_OPERATOR_NAMESPACE else opt.ns;
      L.Step(None, EventOf(who, opt, channel)) == Some(L.Sub(ns, L.Control(L.Controlled, false),
        map[RegistryKey(who.registryNs, who.registryName, "registry") := "true",
            RegistryKey(who.registryNs, who.registryName, "config") := "true",
            Key(who.t, "request") := opt.channel,
            Key(who.t, "operatorNamespace") := ns]))
  {
    S.OwnKeysApart(who.t);
  }

  /** Where it must not stay, the step deletes it unless the label spares it; without the control label every
      step but a relabelling lets it alone. */
  lemma OtherSteps(ns: string, labels: map<string, string>, annotations: map<string, string>, who: S.Asking, opt: S.Operator,
                   channel: string, e: L.Event)
    ensures Strayed(ns, labels, annotations, opt) ==>
      L.Step(Seen(ns, labels, annotations), EventOf(who, opt, channel)) ==
        if S.NOT_UNINSTALL_LABEL in labels && labels[S.NOT_UNINSTALL_LABEL] == "true" then Seen(ns, labels, annotations) else None
    ensures S.OPREQ_LABEL !in labels && !e.Relabel? ==> L.Step(Seen(ns, labels, annotations), e) == Seen(ns, labels, annotations)
  {
    hide AnyKey, Held, S.RequestEntry;
  }
}
