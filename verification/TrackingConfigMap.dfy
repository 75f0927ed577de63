/**
 The same protocol without OLM (controllers/operandrequestnoolm/reconcile_operator.go): requests
 register under the annotations of a tracking ConfigMap. It differs in two ways: whoever leaves is
 unregistered before its operands are cleaned up, and an unknown config name keeps nothing.
 */
module TrackingConfigMap {
  import opened Annotations
  import opened LastOneOut
  import opened Uninstall
  import S = Subscriptions

  const PACKAGE_NAME := "operator.ibm.com.common-service/packageName"

  // ---------------------------------------------------------------------------------------
  // The decision

  /** Operands are kept for a reason other than their config's name. */
  predicate KeptAnyway(rest: map<string, string>, t: Registrant, operator: bool, noop: bool) {
    (!operator && noop) || (operator && AnyKey(rest, "operatorNamespace")) || OperatorHeld(rest.Keys, t.op)
  }

  function CmFlags(annotations: map<string, string>, t: Registrant, ns: string, managed: bool, noop: bool): Flags {
    var rest := annotations - OwnKeys(t);
    var config := CurrentConfig(annotations, t);
    var operator := !Held(rest, rest.Keys, "operatorNamespace", ns) && managed;
    Flags(operator, !(KeptAnyway(rest, t, operator, noop) || (config != "" && Held(rest, rest.Keys, "config", config))))
  }

  /** Both variants decide alike exactly when the config's name is recorded or operands are kept
      for another reason. */
  lemma VariantsAgree(annotations: map<string, string>, t: Registrant, ns: string, managed: bool, noop: bool)
    ensures var sub, cm := UninstallFlags(annotations, t, ns, managed, noop), CmFlags(annotations, t, ns, managed, noop);
      sub == cm <==> CurrentConfig(annotations, t) != "" || KeptAnyway(annotations - OwnKeys(t), t, cm.operator, noop)
  {
  }

  lemma NothingOwnLeft(annotations: map<string, string>, t: Registrant)
    ensures var rest := annotations - OwnKeys(t); rest - OwnKeys(t) == rest && CurrentConfig(rest, t) == ""
  {
    assert Key(t, "config") in OwnKeys(t);
  }

  /** Deciding again once t is unregistered, as a retry does. With Subscriptions no operands are ever
      flagged then; here those flagged the first time still are, so a failed cleanup is not lost,
      but those that only a shared config had kept are flagged as well. */
  lemma DecidingAgain(annotations: map<string, string>, t: Registrant, ns: string, managed: bool, noop: bool)
    ensures var rest := annotations - OwnKeys(t);
      && UninstallFlags(rest, t, ns, managed, noop) == Flags(UninstallFlags(annotations, t, ns, managed, noop).operator, false)
      && CmFlags(rest, t, ns, managed, noop).operator == CmFlags(annotations, t, ns, managed, noop).operator
      && (CmFlags(annotations, t, ns, managed, noop).operand ==> CmFlags(rest, t, ns, managed, noop).operand)
      && (CmFlags(rest, t, ns, managed, noop) == CmFlags(annotations, t, ns, managed, noop) <==>
            var config := CurrentConfig(annotations, t);
            config == "" || !Held(rest, rest.Keys, "config", config) || KeptAnyway(rest, t, CmFlags(annotations, t, ns, managed, noop).operator, noop))
  {
    NothingOwnLeft(annotations, t);
  }

  /** The decision stated on the registrations of those who stay. */
  ghost function CmDecide(stay: Registrations, config: string, t: Registrant, ns: string, managed: bool,
                          noop: bool): Flags {
    var operator := managed && !(exists u :: u in stay && stay[u].operatorNamespace == ns);
    var keep :=
      || (!operator && noop)
      || (operator && stay.Keys != {})
      || (exists u :: u in stay && u.op == t.op)
      || (config != "" && exists u :: u in stay && stay[u].config == Some(config));
    Flags(operator, !keep)
  }

  /** The decision taken from the annotation strings is that one, for a registrant or for one already
      unregistered. */
  lemma CmDecisionRefines(annotations: map<string, string>, regs: Registrations, t: Registrant, ns: string,
                          managed: bool, noop: bool)
    requires Represents(annotations, regs) && WellNamed(t)
    ensures CmFlags(annotations, t, ns, managed, noop) == CmDecide(regs - {t}, CurrentConfig(annotations, t), t, ns, managed, noop)
  {
    hide Matches, OperatorOf;
    var rest, stay := annotations - OwnKeys(t), regs - {t};
    UnregisterRepresents(annotations, regs, t);
    var config := CurrentConfig(annotations, t);
    HeldMeans(rest, stay, "operatorNamespace", ns);
    HeldMeans(rest, stay, "config", config);
    OperatorHeldMeans(rest, stay, t.op);
    AnyKeyMeans(rest, stay);
    assert forall u | u in stay :: Registered(rest, u, stay[u]);
  }

  /** Two operators share a config: leaving keeps its operands, deciding again does not, although the
      other registrant is still there. */
  lemma RetryTearsDownSharedConfig(ns: string, config: string)
    returns (annotations: map<string, string>, t: Registrant, u: Registrant)
    requires config != ""
    ensures t != u && CurrentConfig(annotations, t) == CurrentConfig(annotations, u) == config
    ensures CmFlags(annotations, t, ns, true, false) == Flags(false, false)
    ensures CmFlags(annotations - OwnKeys(t), t, ns, true, false) == Flags(false, true)
  {
    hide Matches, OperatorOf;
    t, u := Registrant("p", "a", "op1"), Registrant("p", "a", "op2");
    var reg := Registration("v1", ns, Some(config));
    var regs: Registrations;
    annotations, regs := BothRegistered(t, u, reg);
    var left: Registrations := map[u := reg];
    assert regs - {t} == left && left - {t} == left && u in left;
    CmDecisionRefines(annotations, regs, t, ns, true, false);
    UnregisterRepresents(annotations, regs, t);
    NothingOwnLeft(annotations, t);
    CmDecisionRefines(annotations - OwnKeys(t), left, t, ns, true, false);
    assert CmDecide(left, config, t, ns, true, false) == Flags(false, false);
    assert CmDecide(left, "", t, ns, true, false) == Flags(false, true);
  }

  lemma BothRegistered(t: Registrant, u: Registrant, reg: Registration)
    returns (annotations: map<string, string>, regs: Registrations)
    requires WellNamed(t) && WellNamed(u) && reg.config.Some?
    ensures regs == map[u := reg][t := reg] && Represents(annotations, regs)
    ensures CurrentConfig(annotations, t) == CurrentConfig(annotations, u) == reg.config.value
  {
    hide Matches;
    var first := WithRegistration(map[], u, reg);
    annotations, regs := WithRegistration(first, t, reg), map[u := reg][t := reg];
    assert Represents(map[], map[]);
    RegisterRepresents(map[], map[], u, reg);
    RegisterRepresents(first, map[u := reg], t, reg);
    assert Registered(annotations, t, regs[t]) && Registered(annotations, u, regs[u]);
  }

  // ---------------------------------------------------------------------------------------
  // What is written

  /** Creating and reconciling write the same: registry keys, own keys, and the package's name. */
  function CmMark(annotations: map<string, string>, registryNs: string, registryName: string, t: Registrant,
                  reg: Registration, package: string): map<string, string> {
    Mark(annotations, registryNs, registryName, t, reg)[PACKAGE_NAME := package]
  }

  /** What the annotations hold then, entry by entry. */
  predicate CmSays(was: map<string, string>, now: map<string, string>, registryNs: string, registryName: string,
                   t: Registrant, channel: string, ns: string, config: string, package: string) {
    var own := {Key(t, "request"), Key(t, "operatorNamespace"), Key(t, "config")};
    var registry := {RegistryKey(registryNs, registryName, "registry"), RegistryKey(registryNs, registryName, "config")};
    && now.Keys == was.Keys + own + registry + {PACKAGE_NAME}
    && now[Key(t, "request")] == channel && now[Key(t, "operatorNamespace")] == ns && now[Key(t, "config")] == config
    && now[PACKAGE_NAME] == package
    && (forall key | key in registry && key !in own && key != PACKAGE_NAME :: now[key] == "true")
    && (forall key | key in was && key !in own && key !in registry && key != PACKAGE_NAME :: now[key] == was[key])
  }

  lemma CmMarkSays(annotations: map<string, string>, registryNs: string, registryName: string, t: Registrant, reg: Registration, package: string)
    requires reg.config.Some?
    ensures CmSays(annotations, CmMark(annotations, registryNs, registryName, t, reg, package), registryNs, registryName,
                   t, reg.channel, reg.operatorNamespace, reg.config.value, package)
  {
    S.OwnKeysApart(t);
    PackageNameApart(t);
  }

  lemma NoKindBegins(kind: string)
    requires Kind(kind)
    ensures !(kind <= "packageName")
  {
    assert kind[0] != "packageName"[0];
  }

  lemma PackageNameIsNoRegistration(kind: string)
    requires Kind(kind)
    ensures !Matches(PACKAGE_NAME, kind)
  {
    hide Matches, TwoDots;
    NoKindBegins(kind);
    var a, k := "operator.ibm.com.common-service", "packageName";
    assert PACKAGE_NAME == a + "/" + k;
    MatchesMeans(a, k, kind);
  }

  lemma CmMarkRepresents(annotations: map<string, string>, regs: map<Registrant, Registration>, registryNs: string,
                         registryName: string,
                         t: Registrant, reg: Registration, package: string)
    requires Represents(annotations, regs) && WellNamed(t) && WellNamedRegistry(registryNs, registryName) && reg.config.Some?
    ensures Represents(CmMark(annotations, registryNs, registryName, t, reg, package), regs[t := reg])
  {
    MarkRepresents(annotations, regs, registryNs, registryName, t, reg);
    forall kind | Kind(kind) ensures !Matches(PACKAGE_NAME, kind) { PackageNameIsNoRegistration(kind); }
    IrrelevantKey(Mark(annotations, registryNs, registryName, t, reg), regs[t := reg], PACKAGE_NAME, package);
  }

  // ---------------------------------------------------------------------------------------
  // Everybody leaves

  function CmTeardown(annotations: map<string, string>, order: seq<Registrant>, ns: string): (flags: seq<Flags>)
    ensures |flags| == |order|
  {
    if order == [] then []
    else [CmFlags(annotations, order[0], ns, true, false)] + CmTeardown(annotations - OwnKeys(order[0]), order[1..], ns)
  }

  /** Since creating records the config too, nobody need reconcile for the last one out to be found:
      the operator is flagged for the last one only, operands exactly for those after whom nobody
      shares their operator or config. */
  lemma CmTeardownFlags(annotations: map<string, string>, regs: Registrations, order: seq<Registrant>, ns: string)
    requires Represents(annotations, regs) && Settled(regs, ns) && Lists(order, regs)
    ensures forall i | 0 <= i < |order| ::
      CmTeardown(annotations, order, ns)[i] == Flags(i == |order| - 1, LastOfItsKind(regs, order, i))
  {
    TeardownFlags(annotations, regs, order, ns);
    SameTeardown(annotations, regs, order, ns);
  }

  lemma {:induction false} SameTeardown(annotations: map<string, string>, regs: Registrations,
                                        order: seq<Registrant>, ns: string)
    requires Represents(annotations, regs) && Settled(regs, ns) && Lists(order, regs)
    ensures CmTeardown(annotations, order, ns) == Teardown(annotations, order, ns)
    decreases |order|
  {
    if order != [] {
      var t := order[0];
      assert Registered(annotations, t, regs[t]);
      VariantsAgree(annotations, t, ns, true, false);
      UnregisterRepresents(annotations, regs, t);
      ListsRest(order, regs);
      SameTeardown(annotations - OwnKeys(t), regs - {t}, order[1..], ns);
    }
  }

  // ---------------------------------------------------------------------------------------
  // Runs

  /** A departure is unregistered when its update is written; the ConfigMap goes when the cleanup then
      succeeds and the ConfigMap's own deletion does. */
  datatype CmEvent =
    | Reconcile(t: Registrant, registryNs: string, registryName: string, channel: string, optNamespace: string,
                operatorNamespace: string, config: string, package: string, noop: bool, failed: bool)
    | Unregister(t: Registrant, noop: bool, written: bool, cleaned: bool)
    | Relabel(labels: Control)

  function AsRegistration(e: CmEvent): Registration
    requires e.Reconcile?
  {
    Registration(e.channel, e.operatorNamespace, Some(e.config))
  }

  function CmMarked(annotations: map<string, string>, e: CmEvent): map<string, string>
    requires e.Reconcile?
  {
    CmMark(annotations, e.registryNs, e.registryName, e.t, AsRegistration(e), e.package)
  }

  function CmStep(w: Option<Sub>, e: CmEvent): Option<Sub> {
    match e
    case Reconcile(_, _, _, _, optNs, opNs, _, _, noop, failed) =>
      if failed then w
      else if w.None? then if noop then None else Some(Sub(opNs, Control(Controlled, false), CmMarked(map[], e)))
      else if w.value.labels.control.Absent? then w
      else
        var Sub(ns, labels, annotations) := w.value;
        if ns != optNs && AnyKey(annotations, "operatorNamespace") && !Held(annotations, annotations.Keys, "operatorNamespace", ns)
        then if labels.spared then w else None
        else Some(Sub(ns, labels, CmMarked(annotations, e)))
    case Unregister(t, noop, written, cleaned) =>
      if !written || w.None? then w
      else
        var Sub(ns, labels, annotations) := w.value;
        if CmFlags(annotations, t, ns, labels.Managed(), noop).operator && cleaned && !labels.spared then None
        else Some(Sub(ns, labels, annotations - OwnKeys(t)))
    case Relabel(labels) => if w.None? then None else Some(w.value.(labels := labels))
  }

  /** A reconcile lets a ConfigMap without the control label alone; a departure whose update is written
      drops the registration whatever the label says, and deletes only a ConfigMap that is controlled, not
      spared, and claimed by nobody else. */
  lemma CmStepMeans(sub: Sub, e: CmEvent)
    ensures e.Reconcile? && sub.labels.control == Absent ==> CmStep(Some(sub), e) == Some(sub)
    ensures e.Unregister? && !e.written ==> CmStep(Some(sub), e) == Some(sub)
    ensures e.Unregister? && e.written ==>
      var rest := sub.annotations - OwnKeys(e.t);
      CmStep(Some(sub), e) ==
        if sub.labels.control == Controlled && !sub.labels.spared && e.cleaned && !Held(rest, rest.Keys, "operatorNamespace", sub.ns)
        then None else Some(sub.(annotations := rest))
  {
    hide Held, AnyKey, OperatorHeld;
  }

  ghost function AbstractCmStep(a: Option<Shared>, e: CmEvent): Option<Shared> {
    match e
    case Reconcile(t, _, _, _, optNs, opNs, _, _, noop, failed) =>
      if failed then a
      else if a.None? then if noop then None else Some(Shared(opNs, Control(Controlled, false), map[t := AsRegistration(e)]))
      else if a.value.labels.control.Absent? then a
      else if a.value.ns != optNs && a.value.regs.Keys != {} && !Claimed(a.value) then if a.value.labels.spared then a else None
      else Some(a.value.(regs := a.value.regs[t := AsRegistration(e)]))
    case Unregister(t, _, written, cleaned) =>
      if !written || a.None? then a
      else
        var left := a.value.(regs := a.value.regs - {t});
        if a.value.labels.Managed() && !Claimed(left) && cleaned && !a.value.labels.spared then None else Some(left)
    case Relabel(labels) => if a.None? then None else Some(a.value.(labels := labels))
  }

  predicate WellNamedCmEvent(e: CmEvent) {
    !e.Relabel? ==> WellNamed(e.t) && (e.Reconcile? ==> WellNamedRegistry(e.registryNs, e.registryName) && e.config != "")
  }

  /** Every registration names a config. */
  ghost predicate AllConfigured(a: Option<Shared>) {
    a.Some? ==> forall t | t in a.value.regs :: a.value.regs[t].config.Some? && a.value.regs[t].config.value != ""
  }

  lemma CmStepCorresponds(w: Option<Sub>, a: Option<Shared>, e: CmEvent)
    requires Corresponds(w, a) && AllConfigured(a) && WellNamedCmEvent(e)
    ensures Corresponds(CmStep(w, e), AbstractCmStep(a, e)) && AllConfigured(AbstractCmStep(a, e))
  {
    hide Matches, Registered, CmMark, Held, AnyKey, OperatorHeld;
    match e
    case Reconcile(t, _, _, _, _, _, _, _, _, _) =>
      if w.None? {
        CmMarkRepresents(map[], map[], e.registryNs, e.registryName, t, AsRegistration(e), e.package);
      } else {
        ClaimedMeans(w.value.annotations, a.value);
        CmMarkRepresents(w.value.annotations, a.value.regs, e.registryNs, e.registryName, t, AsRegistration(e), e.package);
      }
    case Unregister(t, _, _, _) =>
      if w.Some? {
        UnregisterRepresents(w.value.annotations, a.value.regs, t);
        ClaimedMeans(w.value.annotations - OwnKeys(t), a.value.(regs := a.value.regs - {t}));
      }
    case Relabel(_) =>
  }

  function CmRun(w: Option<Sub>, events: seq<CmEvent>): Option<Sub>
    decreases |events|
  {
    if events == [] then w else CmRun(CmStep(w, events[0]), events[1..])
  }

  ghost function AbstractCmRun(a: Option<Shared>, events: seq<CmEvent>): Option<Shared>
    decreases |events|
  {
    if events == [] then a else AbstractCmRun(AbstractCmStep(a, events[0]), events[1..])
  }

  /** In every run the annotations stand for exactly the registrations made and not withdrawn, each
      with a config's name. */
  lemma {:induction false} CmRunCorresponds(w: Option<Sub>, a: Option<Shared>, events: seq<CmEvent>)
    requires Corresponds(w, a) && AllConfigured(a) && forall e | e in events :: WellNamedCmEvent(e)
    ensures Corresponds(CmRun(w, events), AbstractCmRun(a, events)) && AllConfigured(AbstractCmRun(a, events))
    decreases |events|
  {
    if events != [] {
      CmStepCorresponds(w, a, events[0]);
      CmRunCorresponds(CmStep(w, events[0]), AbstractCmStep(a, events[0]), events[1..]);
    }
  }

  // ---------------------------------------------------------------------------------------
  // The object itself

  /** What the API server does during one uninstall: whether the ConfigMap's update is written, the
      deployments can be listed, there are any, they are ODLM's, custom and other resources go, the
      ConfigMap goes. */
  datatype CmFate = CmFate(written: bool, listed: bool, deployments: bool, ours: bool,
                           crsDeleted: bool, resourcesDeleted: bool, deleted: bool)

  /** What becomes of the stored ConfigMap. */
  datatype Stored = Unchanged | Updated | Deleted

  predicate CleansUp(fate: CmFate) {
    (fate.deployments ==> fate.crsDeleted) && fate.resourcesDeleted
  }

  predicate Spares(labels: map<string, string>) {
    S.NOT_UNINSTALL_LABEL in labels && labels[S.NOT_UNINSTALL_LABEL] == "true"
  }

  class ConfigMap {
    var namespace: string
    var labels: map<string, string>
    var annotations: map<string, string>

    /** Removes the registrant's own annotations, scans what is left in any order, decides. */
    method CheckOpReqCMAnnotationsForUninstall(t: Registrant, noop: bool)
      returns (uninstallOperator: bool, uninstallOperand: bool)
      modifies this`annotations
      ensures annotations == old(annotations) - OwnKeys(t)
      ensures Flags(uninstallOperator, uninstallOperand) ==
        CmFlags(old(annotations), t, namespace, S.OPREQ_LABEL in labels && labels[S.OPREQ_LABEL] == "true", noop)
    {
      uninstallOperator, uninstallOperand := true, true;
      var currentConfigName := "";
      if Key(t, "config") in annotations { currentConfigName := annotations[Key(t, "config")]; }
      annotations := annotations - {Key(t, "request")};
      annotations := annotations - {Key(t, "operatorNamespace")};
      annotations := annotations - {Key(t, "config")};
      assert annotations == old(annotations) - OwnKeys(t);
      var opreqNsSlice, operatorNameSlice, configNameSlice := ScanAnnotations(annotations);
      if namespace in opreqNsSlice { uninstallOperator := false; }
      if !S.ControlledBy(labels) { uninstallOperator := false; }
      if (!uninstallOperator && noop) || (uninstallOperator && |opreqNsSlice| != 0) || t.op in operatorNameSlice
         || (currentConfigName != "" && currentConfigName in configNameSlice) {
        uninstallOperand := false;
      }
    }

    /** The registration is gone from the stored ConfigMap as soon as its update is written, whatever
        happens to the cleanup afterwards; the ConfigMap itself goes only after the cleanup. */
    method UninstallOperatorsAndOperands(t: Registrant, noop: bool, fate: CmFate)
      returns (ok: bool, cleaned: bool, stored: Stored)
      modifies this`annotations
      ensures annotations == old(annotations) - OwnKeys(t)
      ensures var flags := CmFlags(old(annotations), t, namespace, S.OPREQ_LABEL in labels && labels[S.OPREQ_LABEL] == "true", noop);
        var spared := S.NOT_UNINSTALL_LABEL in labels && labels[S.NOT_UNINSTALL_LABEL] == "true";
        var cleans := (fate.deployments ==> fate.crsDeleted) && fate.resourcesDeleted;
        var aside := fate.deployments && !fate.ours;
        var through := aside || ((flags.operand ==> cleans) && (flags.operator ==> spared || fate.deleted));
        && (ok <==> fate.written && (flags == Flags(false, false) || (fate.listed && through)))
        && (cleaned <==> fate.written && fate.listed && !aside && flags.operand && cleans)
        && (stored.Unchanged? <==> !fate.written)
        && (stored.Deleted? <==> ok && flags.operator && !aside && !spared)
        && (stored.Deleted? && flags.operand ==> cleaned)
    {
      cleaned := false;
      var uninstallOperator, uninstallOperand := CheckOpReqCMAnnotationsForUninstall(t, noop);
      if !fate.written { return false, cleaned, Unchanged; }
      stored := Updated;
      if !uninstallOperand && !uninstallOperator { return true, cleaned, stored; }
      if !fate.listed { return false, cleaned, stored; }
      if fate.deployments {
        if !fate.ours { return true, cleaned, stored; }
        if uninstallOperand && !fate.crsDeleted { return false, cleaned, stored; }
      }
      if uninstallOperand {
        if !fate.resourcesDeleted { return false, cleaned, stored; }
        cleaned := true;
      }
      if uninstallOperator {
        if Spares(labels) { return true, cleaned, stored; }
        if !fate.deleted { return false, cleaned, stored; }
        stored := Deleted;
      }
      return true, cleaned, stored;
    }

    method MarkAnnotations(who: S.Asking, opt: S.Operator)
      modifies this`annotations
      ensures annotations == CmMark(old(annotations), who.registryNs, who.registryName, who.t, RegistrationOf(opt), opt.packageName)
    {
      annotations := annotations[RegistryKey(who.registryNs, who.registryName, "registry") := "true"];
      annotations := annotations[RegistryKey(who.registryNs, who.registryName, "config") := "true"];
      annotations := annotations[Key(who.t, "request") := opt.channel];
      annotations := annotations[Key(who.t, "operatorNamespace") := S.OperatorNamespace(opt)];
      ghost var beforeName := annotations;
      annotations := annotations[PACKAGE_NAME := opt.packageName];
      var config := if opt.configName != "" then opt.configName else opt.name;
      annotations := annotations[Key(who.t, "config") := config];
      PackageNameApart(who.t);
      assert annotations == beforeName[Key(who.t, "config") := config][PACKAGE_NAME := opt.packageName];
    }

    /** reconcileOpReqCM for a ConfigMap that exists. */
    method ReconcileOpReqCM(who: S.Asking, opt: S.Operator) returns (ending: S.Ending)
      modifies this`annotations
      ensures ending.NotOurs? <==> S.OPREQ_LABEL !in labels
      ensures ending.Spared? || ending.ToDelete? <==>
        && S.OPREQ_LABEL in labels && namespace != opt.ns && AnyKey(old(annotations), "operatorNamespace")
        && !Held(old(annotations), old(annotations).Keys, "operatorNamespace", namespace)
      ensures ending.Spared? ==> S.NOT_UNINSTALL_LABEL in labels && labels[S.NOT_UNINSTALL_LABEL] == "true"
      ensures ending.ToDelete? ==> !(S.NOT_UNINSTALL_LABEL in labels && labels[S.NOT_UNINSTALL_LABEL] == "true")
      ensures !ending.Written? ==> annotations == old(annotations)
      ensures ending.Written? ==> (ending.inScope <==> namespace == opt.ns)
      ensures ending.Written? ==> annotations == CmMark(old(annotations), who.registryNs, who.registryName, who.t, RegistrationOf(opt), opt.packageName)
      ensures ending.Written? ==> CmSays(old(annotations), annotations, who.registryNs, who.registryName, who.t, opt.channel,
        if opt.installMode == S.Cluster then S.CLUSTER_OPERATOR_NAMESPACE else opt.ns,
        if opt.configName != "" then opt.configName else opt.name, opt.packageName)
    {
      hide Matches, AnyKey, Held, CmSays, CmMark;
      if S.OPREQ_LABEL !in labels { return S.NotOurs; }
      if namespace != opt.ns {
        var nsAnnoSlice, _, _ := ScanAnnotations(annotations);
        if |nsAnnoSlice| != 0 && namespace !in nsAnnoSlice {
          if Spares(labels) { return S.Spared; }
          return S.ToDelete;
        }
      }
      CmMarkSays(annotations, who.registryNs, who.registryName, who.t, RegistrationOf(opt), opt.packageName);
      MarkAnnotations(who, opt);
      ending := S.Written(true, namespace == opt.ns);
    }
  }

  function RegistrationOf(opt: S.Operator): Registration {
    Registration(opt.channel, S.OperatorNamespace(opt), Some(if opt.configName != "" then opt.configName else opt.name))
  }

  /** The package's name is stored under no registrant's key. */
  lemma PackageNameApart(t: Registrant)
    ensures Key(t, "config") != PACKAGE_NAME && Key(t, "request") != PACKAGE_NAME && Key(t, "operatorNamespace") != PACKAGE_NAME
  {
    assert Key(t, "config")[|Key(t, "config")| - 1] == 'g' && Key(t, "request")[|Key(t, "request")| - 1] == 't';
    var key := Key(t, "operatorNamespace");
    assert key[|key| - 4] == 'p' && PACKAGE_NAME[|PACKAGE_NAME| - 4] == 'N';
  }
}
