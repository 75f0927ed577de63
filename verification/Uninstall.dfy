/**
 Reference counting on a shared Subscription: OperandRequests register under its annotations,
 and whoever leaves decides from what remains whether operator and operands go too
 (controllers/operandrequest/reconcile_operator.go).
 */
module Uninstall {
  import opened Annotations

  datatype Option<+T> = None | Some(value: T)

  /** What checkSubAnnotationsForUninstall answers. */
  datatype Flags = Flags(operator: bool, operand: bool)

  // ---------------------------------------------------------------------------------------
  // The decision, on the annotation map

  function OwnKeys(t: Registrant): set<string> {
    {Key(t, "request"), Key(t, "operatorNamespace"), Key(t, "config")}
  }

  /** Some of the given keys matches the pattern of its kind and holds the value. */
  predicate Held(annotations: map<string, string>, keys: set<string>, kind: string, value: string) {
    exists key | key in keys && key in annotations :: Matches(key, kind) && annotations[key] == value
  }

  predicate AnyKey(annotations: map<string, string>, kind: string) {
    exists key | key in annotations :: Matches(key, kind)
  }

  /** Some of the given keys is a request for the operator. */
  predicate OperatorHeld(keys: set<string>, op: string) {
    exists key | key in keys :: Matches(key, "request") && OperatorOf(key) == op
  }

  function CurrentConfig(annotations: map<string, string>, t: Registrant): string {
    if Key(t, "config") in annotations then annotations[Key(t, "config")] else ""
  }

  /** The flags for t leaving a Subscription in namespace ns; managed says that the control
      label is "true", noop that the operator's install mode is no-op. */
  function UninstallFlags(annotations: map<string, string>, t: Registrant, ns: string, managed: bool,
                          noop: bool): Flags {
    var rest := annotations - OwnKeys(t);
    var config := CurrentConfig(annotations, t);
    var operator := !Held(rest, rest.Keys, "operatorNamespace", ns) && managed;
    var keep :=
      || (!operator && noop)
      || (operator && AnyKey(rest, "operatorNamespace"))
      || OperatorHeld(rest.Keys, t.op)
      || (config != "" && Held(rest, rest.Keys, "config", config))
      || config == "";
    Flags(operator, !keep)
  }

  /** The loop over the annotations that are left. */
  method ScanAnnotations(annotations: map<string, string>)
    returns (opreqNsSlice: seq<string>, operatorNameSlice: seq<string>, configNameSlice: seq<string>)
    ensures forall v :: v in opreqNsSlice <==> Held(annotations, annotations.Keys, "operatorNamespace", v)
    ensures forall v :: v in operatorNameSlice <==> OperatorHeld(annotations.Keys, v)
    ensures forall v :: v in configNameSlice <==> Held(annotations, annotations.Keys, "config", v)
    ensures opreqNsSlice == [] <==> !AnyKey(annotations, "operatorNamespace")
  {
    opreqNsSlice, operatorNameSlice, configNameSlice := [], [], [];
    var todo := annotations.Keys;
    while todo != {}
      invariant todo <= annotations.Keys
      invariant forall v :: v in opreqNsSlice <==> Held(annotations, annotations.Keys - todo, "operatorNamespace", v)
      invariant forall v :: v in operatorNameSlice <==> OperatorHeld(annotations.Keys - todo, v)
      invariant forall v :: v in configNameSlice <==> Held(annotations, annotations.Keys - todo, "config", v)
      decreases todo
    {
      var key :| key in todo;
      ghost var seen := annotations.Keys - todo;
      if Matches(key, "operatorNamespace") { opreqNsSlice := opreqNsSlice + [annotations[key]]; }
      if Matches(key, "request") { operatorNameSlice := operatorNameSlice + [OperatorOf(key)]; }
      if Matches(key, "config") { configNameSlice := configNameSlice + [annotations[key]]; }
      todo := todo - {key};
      assert annotations.Keys - todo == seen + {key};
    }
    assert annotations.Keys - todo == annotations.Keys;
    if opreqNsSlice != [] { assert opreqNsSlice[0] in opreqNsSlice; }
    if key :| key in annotations && Matches(key, "operatorNamespace") {
      assert Held(annotations, annotations.Keys, "operatorNamespace", annotations[key]);
    }
  }

  // ---------------------------------------------------------------------------------------
  // The registrations the annotations stand for

  /** One registration; the config name is only recorded when an existing Subscription is
      reconciled, not when it is created. */
  datatype Registration = Registration(channel: string, operatorNamespace: string, config: Option<string>)

  /** The annotations hold exactly these registrations: every registrant's keys with their
      values, and no other key that matches a pattern. */
  ghost predicate Represents(annotations: map<string, string>, regs: map<Registrant, Registration>) {
    && (forall t | t in regs :: WellNamed(t) && Registered(annotations, t, regs[t]))
    && (forall key, kind | key in annotations && Kind(kind) && Matches(key, kind) ::
        exists t :: t in regs && key == Key(t, kind))
  }

  predicate Registered(annotations: map<string, string>, t: Registrant, reg: Registration) {
    && Key(t, "request") in annotations && annotations[Key(t, "request")] == reg.channel
    && Key(t, "operatorNamespace") in annotations && annotations[Key(t, "operatorNamespace")] == reg.operatorNamespace
    && (if reg.config.Some? then Key(t, "config") in annotations && annotations[Key(t, "config")] == reg.config.value
        else Key(t, "config") !in annotations)
  }

  /** Unregistering one registrant touches no other. */
  lemma UnregisterRepresents(annotations: map<string, string>, regs: map<Registrant, Registration>, t: Registrant)
    requires Represents(annotations, regs) && WellNamed(t)
    ensures Represents(annotations - OwnKeys(t), regs - {t})
  {
    var rest := annotations - OwnKeys(t);
    forall u | u in regs && u != t
      ensures Registered(rest, u, regs[u])
    {
      KeysApart(t, u);
    }
    forall key, kind | key in rest && Kind(kind) && Matches(key, kind)
      ensures exists u :: u in regs - {t} && key == Key(u, kind)
    {
      var u :| u in regs && key == Key(u, kind);
      assert u != t;
    }
  }

  lemma KeysApart(t: Registrant, u: Registrant)
    requires DotFree(t) && DotFree(u) && t != u
    ensures OwnKeys(t) !! OwnKeys(u)
  {
    forall k, l | Kind(k) && Kind(l) ensures Key(t, k) != Key(u, l) {
      KeysNeverCollide(t, u, k, l);
    }
  }

  /** What the annotations are when a registrant has written its three. */
  function WithRegistration(annotations: map<string, string>, t: Registrant, reg: Registration): map<string, string> {
    var base := annotations[Key(t, "request") := reg.channel][Key(t, "operatorNamespace") := reg.operatorNamespace];
    if reg.config.Some? then base[Key(t, "config") := reg.config.value] else base
  }

  /** The keys a request writes: its registry's and its own. */
  function Mark(annotations: map<string, string>, registryNs: string, registryName: string, t: Registrant,
                reg: Registration): map<string, string> {
    WithRegistration(
      annotations[RegistryKey(registryNs, registryName, "registry") := "true"][RegistryKey(registryNs, registryName, "config") := "true"],
      t, reg)
  }

  /** Registering, or registering again with other values, touches no other registrant. */
  lemma RegisterRepresents(annotations: map<string, string>, regs: map<Registrant, Registration>, t: Registrant,
                           reg: Registration)
    requires Represents(annotations, regs) && WellNamed(t)
    requires reg.config.None? ==> t !in regs
    ensures Represents(WithRegistration(annotations, t, reg), regs[t := reg])
  {
    var next := WithRegistration(annotations, t, reg);
    OwnKeysDistinct(t);
    forall u | u in regs && u != t
      ensures Registered(next, u, regs[u])
    {
      KeysApart(t, u);
    }
    if reg.config.None? && Key(t, "config") in annotations {
      MatchesOwnKind(t, "config", "config");
      var u :| u in regs && Key(t, "config") == Key(u, "config");
      KeysNeverCollide(t, u, "config", "config");
    }
    assert Registered(next, t, reg);
    forall key, kind | key in next && Kind(kind) && Matches(key, kind)
      ensures exists u :: u in regs[t := reg] && key == Key(u, kind)
    {
      if key in OwnKeys(t) {
        assert key == Key(t, kind) by { MatchesOnlyOwn(t, key, kind); }
      } else {
        assert key in annotations;
      }
    }
  }

  lemma OwnKeysDistinct(t: Registrant)
    requires WellNamed(t)
    ensures Key(t, "request") != Key(t, "operatorNamespace") && Key(t, "request") != Key(t, "config")
    ensures Key(t, "operatorNamespace") != Key(t, "config")
  {
    KeysNeverCollide(t, t, "request", "operatorNamespace");
    KeysNeverCollide(t, t, "request", "config");
    KeysNeverCollide(t, t, "operatorNamespace", "config");
  }

  lemma MatchesOnlyOwn(t: Registrant, key: string, kind: string)
    requires WellNamed(t) && Kind(kind) && key in OwnKeys(t) && Matches(key, kind)
    ensures key == Key(t, kind)
  {
    MatchesOwnKind(t, "request", kind);
    MatchesOwnKind(t, "operatorNamespace", kind);
    MatchesOwnKind(t, "config", kind);
  }

  /** Keys that match no pattern, like those of a registry with an undotted name, are no
      registrations. */
  lemma IrrelevantKey(annotations: map<string, string>, regs: map<Registrant, Registration>, key: string, value: string)
    requires Represents(annotations, regs)
    requires forall kind | Kind(kind) :: !Matches(key, kind)
    ensures Represents(annotations[key := value], regs)
  {
    hide Matches, Registered;
    forall t | t in regs ensures Registered(annotations[key := value], t, regs[t]) {
      OwnKeysMatch(t);
      StaysRegistered(annotations, t, regs[t], key, value);
    }
  }

  lemma OwnKeysMatch(t: Registrant)
    requires WellNamed(t)
    ensures forall key | key in OwnKeys(t) :: exists kind | Kind(kind) :: Matches(key, kind)
  {
    hide Matches;
    MatchesOwnKind(t, "request", "request");
    MatchesOwnKind(t, "operatorNamespace", "operatorNamespace");
    MatchesOwnKind(t, "config", "config");
  }

  lemma StaysRegistered(annotations: map<string, string>, t: Registrant, reg: Registration, key: string, value: string)
    requires Registered(annotations, t, reg) && key !in OwnKeys(t)
    ensures Registered(annotations[key := value], t, reg)
  {
  }

  lemma MarkRepresents(annotations: map<string, string>, regs: map<Registrant, Registration>,
                       registryNs: string, registryName: string, t: Registrant, reg: Registration)
    requires Represents(annotations, regs) && WellNamed(t) && WellNamedRegistry(registryNs, registryName)
    requires reg.config.None? ==> t !in regs
    ensures Represents(Mark(annotations, registryNs, registryName, t, reg), regs[t := reg])
  {
    var k1, k2 := RegistryKey(registryNs, registryName, "registry"), RegistryKey(registryNs, registryName, "config");
    forall kind | Kind(kind) ensures !Matches(k1, kind) && !Matches(k2, kind) {
      RegistryKeyMatches(registryNs, registryName, "registry", kind);
      RegistryKeyMatches(registryNs, registryName, "config", kind);
    }
    IrrelevantKey(annotations, regs, k1, "true");
    IrrelevantKey(annotations[k1 := "true"], regs, k2, "true");
    RegisterRepresents(annotations[k1 := "true"][k2 := "true"], regs, t, reg);
  }

  /** A registry whose name has no dot. */
  predicate WellNamedRegistry(ns: string, name: string) {
    '.' !in ns && '.' !in name && '/' !in ns + name && '\n' !in ns + name
  }
}
