/**
 Which catalog and channel a package is installed from (controllers/operator/manager.go):
 discovery over the package's manifests, and the lookup in a catalog the registry pins.
 */
module Catalog {
  import opened Semver
  import opened Sorting
  import opened Uninstall
  import opened Channels

  datatype Manifest = Manifest(catalog: string, catalogNs: string, channels: seq<string>)

  datatype CatalogSource = CatalogSource(name: string, ns: string, priority: int)

  /** What is the same for every candidate of one search. */
  datatype Context = Context(opNs: string, odlmCatalog: string, odlmCatalogNs: string)

  datatype Answer = Answer(name: string, ns: string, channel: string)

  const NOWHERE := Answer("", "", "")

  // ---------------------------------------------------------------------------------------
  // The order on candidates

  /** sortableCatalogSource.Less. */
  predicate Less(c: Context, x: CatalogSource, y: CatalogSource) {
    var inOpX, inOpY := x.ns == c.opNs, y.ns == c.opNs;
    var inOdlmX := x.name == c.odlmCatalog && x.ns == c.odlmCatalogNs;
    var inOdlmY := y.name == c.odlmCatalog && y.ns == c.odlmCatalogNs;
    if inOpX && !inOpY then true
    else if !inOpX && inOpY then false
    else if x.priority != y.priority then x.priority > y.priority
    else if inOdlmX && !inOdlmY then true
    else if !inOdlmX && inOdlmY then false
    else if x.ns == y.ns then LexLess(x.name, y.name)
    else LexLess(x.ns, y.ns)
  }

  function By(c: Context): (CatalogSource, CatalogSource) -> bool {
    (x, y) => Less(c, x, y)
  }

  lemma LessIsTotal(c: Context)
    ensures StrictTotal(By(c))
  {
    forall x, y ensures !By(c)(x, x) && (By(c)(x, y) || By(c)(y, x) || x == y) {
      LexIrreflexive(x.name);
      LexTotal(x.name, y.name);
      LexTotal(x.ns, y.ns);
    }
    forall x, y, z | By(c)(x, y) && By(c)(y, z) ensures By(c)(x, z) {
      LessIsTransitive(c, x, y, z);
    }
  }

  lemma LessIsTransitive(c: Context, x: CatalogSource, y: CatalogSource, z: CatalogSource)
    requires Less(c, x, y) && Less(c, y, z)
    ensures Less(c, x, z)
  {
    if x.ns == y.ns == z.ns {
      if LexLess(x.name, y.name) && LexLess(y.name, z.name) { LexTransitive(x.name, y.name, z.name); }
    } else if LexLess(x.ns, y.ns) && LexLess(y.ns, z.ns) {
      LexTransitive(x.ns, y.ns, z.ns);
      LexIrreflexive(x.ns);
    }
  }

  /** Which catalog precedes: one in the operator's own namespace, else one of greater priority, else
      ODLM's own, else the one whose namespace, and in the same namespace whose name, comes first. */
  lemma LessMeans(c: Context, x: CatalogSource, y: CatalogSource)
    ensures x.ns == c.opNs != y.ns ==> Less(c, x, y) && !Less(c, y, x)
    ensures (x.ns == c.opNs <==> y.ns == c.opNs) && x.priority > y.priority ==> Less(c, x, y) && !Less(c, y, x)
    ensures var own := (c.odlmCatalogNs, c.odlmCatalog);
      && ((x.ns == c.opNs <==> y.ns == c.opNs) && x.priority == y.priority && (x.ns, x.name) == own != (y.ns, y.name) ==>
            Less(c, x, y) && !Less(c, y, x))
      && ((x.ns == c.opNs <==> y.ns == c.opNs) && x.priority == y.priority && ((x.ns, x.name) == own <==> (y.ns, y.name) == own) ==>
            (Less(c, x, y) <==> if x.ns == y.ns then LexLess(x.name, y.name) else LexLess(x.ns, y.ns)))
  {
  }

  /** Where every catalog has one priority, Less orders candidates by namespace and name alone. */
  lemma LessTellsNamesApart(c: Context, prio: (string, string) -> int, x: CatalogSource, y: CatalogSource)
    requires x.priority == prio(x.ns, x.name) && y.priority == prio(y.ns, y.name)
    ensures (x.ns, x.name) != (y.ns, y.name) <==> Less(c, x, y) || Less(c, y, x)
    ensures !(Less(c, x, y) && Less(c, y, x))
  {
    LessIsTotal(c);
    assert By(c)(x, y) == Less(c, x, y) && By(c)(y, x) == Less(c, y, x) && !By(c)(x, x);
  }

  // ---------------------------------------------------------------------------------------
  // What is offered

  function AsCandidate(m: Manifest, prio: (string, string) -> int): CatalogSource {
    CatalogSource(m.catalog, m.catalogNs, prio(m.catalogNs, m.catalog))
  }

  predicate Offers(m: Manifest, excluded: seq<string>, channel: string) {
    m.catalog !in excluded && channel in m.channels
  }

  ghost predicate Offered(ms: seq<Manifest>, excluded: seq<string>, channel: string) {
    exists m | m in ms :: Offers(m, excluded, channel)
  }

  ghost predicate OfferedBy(ms: seq<Manifest>, excluded: seq<string>, prio: (string, string) -> int, channel: string,
                            x: CatalogSource) {
    exists m | m in ms :: Offers(m, excluded, channel) && x == AsCandidate(m, prio)
  }

  /** The answer's catalog is not excluded, offers the channel, and precedes every other that does. */
  ghost predicate Best(c: Context, ms: seq<Manifest>, excluded: seq<string>, prio: (string, string) -> int,
                       channel: string, r: Answer) {
    && r.channel == channel
    && exists x :: OfferedBy(ms, excluded, prio, channel, x) && r.name == x.name && r.ns == x.ns &&
         forall y | OfferedBy(ms, excluded, prio, channel, y) && y != x :: Less(c, x, y)
  }

  // ---------------------------------------------------------------------------------------
  // Fallback channels, known by their versions

  function Versions(fallbacks: seq<string>): (r: seq<string>)
    ensures |r| == |fallbacks| && forall i | 0 <= i < |r| :: r[i] == FindSemantic(fallbacks[i])
  {
    seq(|fallbacks|, i requires 0 <= i < |fallbacks| => FindSemantic(fallbacks[i]))
  }

  /** The last fallback of a version stands for it. */
  function Standing(fallbacks: seq<string>, v: string): (r: string)
    ensures v in Versions(fallbacks) ==> r in fallbacks && FindSemantic(r) == v
  {
    if fallbacks == [] then ""
    else if FindSemantic(fallbacks[|fallbacks| - 1]) == v then fallbacks[|fallbacks| - 1]
    else
      assert v in Versions(fallbacks) ==> v in Versions(fallbacks[..|fallbacks| - 1]);
      Standing(fallbacks[..|fallbacks| - 1], v)
  }

  /** It is indeed the last. */
  lemma {:induction false} StandingIsLast(fallbacks: seq<string>, v: string) returns (i: nat)
    requires v in Versions(fallbacks)
    ensures i < |fallbacks| && fallbacks[i] == Standing(fallbacks, v) && FindSemantic(fallbacks[i]) == v
    ensures forall j | i < j < |fallbacks| :: FindSemantic(fallbacks[j]) != v
    decreases |fallbacks|
  {
    hide FindSemantic;
    i := |fallbacks| - 1;
    if FindSemantic(fallbacks[i]) != v {
      var k :| 0 <= k < |fallbacks| && Versions(fallbacks)[k] == v;
      assert Versions(fallbacks[..i])[k] == v;
      i := StandingIsLast(fallbacks[..i], v);
    }
  }

  /** The versions that some offered channel stands for. */
  function StandingIn(fallbacks: seq<string>, offered: set<string>): set<string> {
    set v | v in Versions(fallbacks) && Standing(fallbacks, v) in offered
  }

  /** v is the greatest of the versions. */
  ghost predicate Top(vs: set<string>, v: string) {
    v in vs && forall w | w in vs :: !VersionLess(v, w)
  }

  lemma OneMoreFallback(fallbacks: seq<string>, i: nat)
    requires i < |fallbacks|
    ensures Versions(fallbacks[..i + 1]) == Versions(fallbacks[..i]) + [FindSemantic(fallbacks[i])]
    ensures forall v :: Standing(fallbacks[..i + 1], v) == if FindSemantic(fallbacks[i]) == v then fallbacks[i] else Standing(fallbacks[..i], v)
  {
    var more := fallbacks[..i + 1];
    hide FindSemantic;
    assert more[..|more| - 1] == fallbacks[..i] && more[|more| - 1] == fallbacks[i];
    forall v
      ensures Standing(more, v) == if FindSemantic(fallbacks[i]) == v then fallbacks[i] else Standing(fallbacks[..i], v)
    {
      assert more != [];
    }
  }

  method PrunedSemverChannel(fallbackChannels: seq<string>)
    returns (semverlList: seq<string>, semVerChannelMappings: map<string, string>)
    ensures semverlList == Versions(fallbackChannels)
    ensures forall v :: v in semVerChannelMappings <==> v in semverlList
    ensures forall v | v in semVerChannelMappings :: semVerChannelMappings[v] == Standing(fallbackChannels, v)
  {
    semverlList, semVerChannelMappings := [], map[];
    for i := 0 to |fallbackChannels|
      invariant semverlList == Versions(fallbackChannels[..i])
      invariant forall v :: v in semVerChannelMappings <==> v in semverlList
      invariant forall v | v in semVerChannelMappings :: semVerChannelMappings[v] == Standing(fallbackChannels[..i], v)
    {
      var fc := fallbackChannels[i];
      OneMoreFallback(fallbackChannels, i);
      semVerChannelMappings := semVerChannelMappings[FindSemantic(fc) := fc];
      semverlList := semverlList + [FindSemantic(fc)];
    }
    assert fallbackChannels[..|fallbackChannels|] == fallbackChannels;
  }

  /** In an ordered list the first good version from the end is the greatest. */
  lemma FromTheEnd(vs: seq<string>, sorted: seq<string>, good: set<string>, i: nat)
    requires multiset(sorted) == multiset(vs) && Ordered(sorted, ByVersion) && forall v | v in good :: v in vs
    requires i < |sorted| && sorted[i] in good && forall k | i < k < |sorted| :: sorted[k] !in good
    ensures Top(good, sorted[i])
  {
    forall w | w in good ensures !VersionLess(sorted[i], w) {
      assert w in multiset(vs);
      assert w in multiset(sorted);
      var k :| 0 <= k < |sorted| && sorted[k] == w;
      VersionLessIsTotal(w, w);
      if k < i { assert !ByVersion(sorted[i], sorted[k]); }
    }
  }

  // ---------------------------------------------------------------------------------------
  // Discovery

  method FindCatalogFromFallbackChannels(fallbackChannels: seq<string>, mapping: map<string, seq<CatalogSource>>)
    returns (fallbackChannel: string, fallbackCatalog: seq<CatalogSource>)
    ensures var good := StandingIn(fallbackChannels, mapping.Keys);
      if good != {}
      then exists v :: Top(good, v) && fallbackChannel == Standing(fallbackChannels, v) && fallbackChannel in mapping &&
             fallbackCatalog == mapping[fallbackChannel]
      else fallbackChannel == "" && fallbackCatalog == []
  {
    hide FindSemantic, VersionLess;
    var semverlList, semVerChannelMappings := PrunedSemverChannel(fallbackChannels);
    var v := HighestMapped(semverlList, semVerChannelMappings, mapping.Keys);
    assert StandingIn(fallbackChannels, mapping.Keys) == MappedInto(semverlList, semVerChannelMappings, mapping.Keys);
    if v == None { return "", []; }
    fallbackChannel := semVerChannelMappings[v.value];
    fallbackCatalog := mapping[fallbackChannel];
  }

  function MappedInto(vs: seq<string>, channels: map<string, string>, offered: set<string>): set<string> {
    set v | v in vs && v in channels && channels[v] in offered
  }

  /** Sorts the versions and takes the first from the end whose channel is offered. */
  method HighestMapped(semverlList: seq<string>, channels: map<string, string>, offered: set<string>)
    returns (r: Option<string>)
    requires forall v | v in semverlList :: v in channels
    ensures var good := MappedInto(semverlList, channels, offered); if good == {} then r == None else r.Some? && Top(good, r.value)
  {
    ghost var good := MappedInto(semverlList, channels, offered);
    ByVersionIsTotal();
    var sorted := SortBy(semverlList, ByVersion);
    SameElements(sorted, semverlList);
    for i := |sorted| downto 0
      invariant forall k | i <= k < |sorted| :: sorted[k] !in good
    {
      if channels[sorted[i]] in offered {
        FromTheEnd(semverlList, sorted, good, i);
        return Some(sorted[i]);
      }
    }
    return None;
  }

  lemma SameElements(xs: seq<string>, ys: seq<string>)
    requires multiset(xs) == multiset(ys)
    ensures forall v :: v in xs <==> v in ys
  {
    forall v ensures v in xs <==> v in ys {
      assert v in multiset(xs) <==> v in multiset(ys);
    }
  }

  /** Puts one manifest's candidate under every fallback channel it has. */
  method AddFallbacks(mapping: map<string, seq<CatalogSource>>, fallbackChannels: seq<string>, m: Manifest,
                      x: CatalogSource)
    returns (r: map<string, seq<CatalogSource>>)
    ensures forall fc :: fc in r <==> fc in mapping || (fc in fallbackChannels && fc in m.channels)
    ensures forall fc | fc in r :: forall y ::
      y in r[fc] <==> (fc in mapping && y in mapping[fc]) || (fc in fallbackChannels && fc in m.channels && y == x)
  {
    r := mapping;
    for j := 0 to |fallbackChannels|
      invariant forall fc :: fc in r <==> fc in mapping || (fc in fallbackChannels[..j] && fc in m.channels)
      invariant forall fc | fc in r :: forall y ::
        y in r[fc] <==> (fc in mapping && y in mapping[fc]) || (fc in fallbackChannels[..j] && fc in m.channels && y == x)
    {
      var fc := fallbackChannels[j];
      assert fallbackChannels[..j + 1] == fallbackChannels[..j] + [fc];
      if ChannelCheck(fc, m.channels) {
        r := r[fc := (if fc in r then r[fc] else []) + [x]];
      }
    }
    assert fallbackChannels[..|fallbackChannels|] == fallbackChannels;
  }

  predicate ChannelCheck(channelName: string, channels: seq<string>) {
    channelName in channels
  }

  /** The loop over the manifests. */
  method Collect(ms: seq<Manifest>, excluded: seq<string>, prio: (string, string) -> int, channel: string,
                 fallbackChannels: seq<string>)
    returns (primary: seq<CatalogSource>, mapping: map<string, seq<CatalogSource>>)
    ensures forall x :: x in primary <==> OfferedBy(ms, excluded, prio, channel, x)
    ensures forall fc :: fc in mapping <==> fc in fallbackChannels && Offered(ms, excluded, fc)
    ensures forall fc | fc in mapping :: forall x :: x in mapping[fc] <==> OfferedBy(ms, excluded, prio, fc, x)
  {
    primary, mapping := [], map[];
    for i := 0 to |ms|
      invariant forall x :: x in primary <==> OfferedBy(ms[..i], excluded, prio, channel, x)
      invariant forall fc :: fc in mapping <==> fc in fallbackChannels && Offered(ms[..i], excluded, fc)
      invariant forall fc | fc in mapping :: forall x :: x in mapping[fc] <==> OfferedBy(ms[..i], excluded, prio, fc, x)
    {
      var m := ms[i];
      assert ms[..i + 1] == ms[..i] + [m];
      if m.catalog !in excluded {
        var x := AsCandidate(m, prio);
        if ChannelCheck(channel, m.channels) { primary := primary + [x]; }
        mapping := AddFallbacks(mapping, fallbackChannels, m, x);
      }
    }
    assert ms[..|ms|] == ms;
  }

  ghost function OfferedFallbacks(ms: seq<Manifest>, excluded: seq<string>, fallbacks: seq<string>): set<string> {
    set fc | fc in fallbacks && Offered(ms, excluded, fc)
  }

  /** What discovery answers: the best catalog for the channel, and where nobody offers it, for
      the highest version that an offered fallback stands for. */
  ghost predicate Discovered(c: Context, ms: seq<Manifest>, excluded: seq<string>, prio: (string, string) -> int,
                             channel: string, fallbacks: seq<string>, r: Answer) {
    var good := StandingIn(fallbacks, OfferedFallbacks(ms, excluded, fallbacks));
    if Offered(ms, excluded, channel) then Best(c, ms, excluded, prio, channel, r)
    else if good != {} then exists v :: Top(good, v) && Best(c, ms, excluded, prio, Standing(fallbacks, v), r)
    else r == NOWHERE
  }

  lemma SomebodyOffers(ms: seq<Manifest>, excluded: seq<string>, prio: (string, string) -> int, channel: string)
    ensures Offered(ms, excluded, channel) <==> exists x :: OfferedBy(ms, excluded, prio, channel, x)
  {
    if m :| m in ms && Offers(m, excluded, channel) {
      assert OfferedBy(ms, excluded, prio, channel, AsCandidate(m, prio));
    }
  }

  method Discover(c: Context, ms: seq<Manifest>, excluded: seq<string>, prio: (string, string) -> int,
                  channel: string, fallbackChannels: seq<string>)
    returns (r: Answer)
    ensures Discovered(c, ms, excluded, prio, channel, fallbackChannels, r)
  {
    var primary, mapping := Collect(ms, excluded, prio, channel, fallbackChannels);
    SomebodyOffers(ms, excluded, prio, channel);
    if |primary| > 0 {
      assert primary[0] in primary;
      r := First(c, ms, excluded, prio, channel, primary);
      return;
    }
    assert mapping.Keys == OfferedFallbacks(ms, excluded, fallbackChannels);
    if |mapping| == 0 {
      assert mapping.Keys == {};
      return NOWHERE;
    }
    var fallbackChannel, fallbackCatalog := FindCatalogFromFallbackChannels(fallbackChannels, mapping);
    if |fallbackCatalog| == 0 {
      SomebodyOffers(ms, excluded, prio, fallbackChannel);
      return NOWHERE;
    }
    r := First(c, ms, excluded, prio, fallbackChannel, fallbackCatalog);
  }

  /** The first of the sorted candidates. */
  method First(c: Context, ghost ms: seq<Manifest>, ghost excluded: seq<string>, ghost prio: (string, string) -> int,
               channel: string, candidates: seq<CatalogSource>) returns (r: Answer)
    requires candidates != [] && forall x :: x in candidates <==> OfferedBy(ms, excluded, prio, channel, x)
    ensures Best(c, ms, excluded, prio, channel, r)
  {
    LessIsTotal(c);
    var sorted := SortBy(candidates, By(c));
    assert |sorted| == |multiset(sorted)| == |candidates|;
    r := Answer(sorted[0].name, sorted[0].ns, channel);
    assert sorted[0] in multiset(candidates);
    forall y | OfferedBy(ms, excluded, prio, channel, y) && y != sorted[0]
      ensures Less(c, sorted[0], y)
    {
      assert y in multiset(sorted);
      var k :| 0 <= k < |sorted| && sorted[k] == y;
      assert !By(c)(sorted[k], sorted[0]);
    }
  }

  // ---------------------------------------------------------------------------------------
  // What discovery promises

  /** A catalog that offers the channel itself is always preferred, and what is answered is offered. */
  lemma ChannelFirst(c: Context, ms: seq<Manifest>, excluded: seq<string>, prio: (string, string) -> int,
                     channel: string, fallbacks: seq<string>, r: Answer)
    requires Discovered(c, ms, excluded, prio, channel, fallbacks, r)
    ensures Offered(ms, excluded, channel) ==> r.channel == channel
    ensures r == NOWHERE ||
      (r.channel in [channel] + fallbacks &&
       exists m | m in ms :: m.catalog == r.name && m.catalogNs == r.ns && m.catalog !in excluded && r.channel in m.channels)
  {
    hide FindSemantic, VersionLess, Less;
    if r != NOWHERE {
      if !Offered(ms, excluded, channel) {
        var good := StandingIn(fallbacks, OfferedFallbacks(ms, excluded, fallbacks));
        var v :| Top(good, v) && Best(c, ms, excluded, prio, Standing(fallbacks, v), r);
      }
      var x :| OfferedBy(ms, excluded, prio, r.channel, x) && r.name == x.name && r.ns == x.ns;
      var m :| m in ms && Offers(m, excluded, r.channel) && x == AsCandidate(m, prio);
    }
  }

  /** No catalog that offers what is answered precedes the one answered, each with its own priority. */
  lemma NoneIsBetter(c: Context, ms: seq<Manifest>, excluded: seq<string>, prio: (string, string) -> int,
                     channel: string, fallbacks: seq<string>, r: Answer, m: Manifest)
    requires Discovered(c, ms, excluded, prio, channel, fallbacks, r) && r != NOWHERE
    requires m in ms && m.catalog !in excluded && r.channel in m.channels && (m.catalog, m.catalogNs) != (r.name, r.ns)
    ensures Less(c, CatalogSource(r.name, r.ns, prio(r.ns, r.name)), CatalogSource(m.catalog, m.catalogNs, prio(m.catalogNs, m.catalog)))
  {
    hide FindSemantic, VersionLess, Less;
    if !Offered(ms, excluded, channel) {
      var good := StandingIn(fallbacks, OfferedFallbacks(ms, excluded, fallbacks));
      var v :| Top(good, v) && Best(c, ms, excluded, prio, Standing(fallbacks, v), r);
    }
    assert Best(c, ms, excluded, prio, r.channel, r);
    var y := AsCandidate(m, prio);
    assert Offers(m, excluded, r.channel);
    assert OfferedBy(ms, excluded, prio, r.channel, y);
  }

  lemma BestIsUnique(c: Context, ms: seq<Manifest>, excluded: seq<string>, prio: (string, string) -> int,
                     channel: string, r: Answer, q: Answer)
    requires Best(c, ms, excluded, prio, channel, r) && Best(c, ms, excluded, prio, channel, q)
    ensures r == q
  {
    var x :| OfferedBy(ms, excluded, prio, channel, x) && r.name == x.name && r.ns == x.ns &&
      forall y | OfferedBy(ms, excluded, prio, channel, y) && y != x :: Less(c, x, y);
    var y :| OfferedBy(ms, excluded, prio, channel, y) && q.name == y.name && q.ns == y.ns &&
      forall z | OfferedBy(ms, excluded, prio, channel, z) && z != y :: Less(c, y, z);
    LessTellsNamesApart(c, prio, x, y);
  }

  lemma SameOffers(ms: seq<Manifest>, others: seq<Manifest>, excluded: seq<string>, prio: (string, string) -> int)
    requires forall m :: m in ms <==> m in others
    ensures forall channel :: Offered(ms, excluded, channel) <==> Offered(others, excluded, channel)
    ensures forall channel, x :: OfferedBy(ms, excluded, prio, channel, x) <==> OfferedBy(others, excluded, prio, channel, x)
  {
  }

  lemma BestElsewhere(c: Context, ms: seq<Manifest>, others: seq<Manifest>, excluded: seq<string>, prio: (string,
                      string) -> int, channel: string, r: Answer)
    requires forall m :: m in ms <==> m in others
    requires Best(c, others, excluded, prio, channel, r)
    ensures Best(c, ms, excluded, prio, channel, r)
  {
    SameOffers(ms, others, excluded, prio);
  }

  lemma TopOfOne(v: string)
    ensures Top({v}, v)
  {
    VersionLessIsTotal(v, v);
  }

  lemma TopIsUnique(vs: set<string>, v: string, w: string)
    requires Top(vs, v) && Top(vs, w)
    ensures v == w
  {
    VersionLessIsTotal(v, w);
  }

  /** The answer depends only on which manifests there are, not on their order or repetition. */
  lemma OrderDoesNotMatter(c: Context, ms: seq<Manifest>, others: seq<Manifest>, excluded: seq<string>,
                           prio: (string, string) -> int,
                           channel: string, fallbacks: seq<string>, r: Answer, q: Answer)
    requires forall m :: m in ms <==> m in others
    requires Discovered(c, ms, excluded, prio, channel, fallbacks, r) && Discovered(c, others, excluded, prio, channel, fallbacks, q)
    ensures r == q
  {
    SameOffers(ms, others, excluded, prio);
    assert OfferedFallbacks(ms, excluded, fallbacks) == OfferedFallbacks(others, excluded, fallbacks);
    var good := StandingIn(fallbacks, OfferedFallbacks(ms, excluded, fallbacks));
    if Offered(ms, excluded, channel) {
      BestElsewhere(c, ms, others, excluded, prio, channel, q);
      BestIsUnique(c, ms, excluded, prio, channel, r, q);
    } else if good != {} {
      var v :| Top(good, v) && Best(c, ms, excluded, prio, Standing(fallbacks, v), r);
      var w :| Top(good, w) && Best(c, others, excluded, prio, Standing(fallbacks, w), q);
      TopIsUnique(good, v, w);
      BestElsewhere(c, ms, others, excluded, prio, Standing(fallbacks, v), q);
      BestIsUnique(c, ms, excluded, prio, Standing(fallbacks, v), r, q);
    }
  }

  /** Every fallback but the channel itself stands for its version. */
  ghost predicate EachStands(fallbacks: seq<string>, channel: string) {
    forall f | f in fallbacks && f != channel :: Standing(fallbacks, FindSemantic(f)) == f
  }

  /** Distinct versions are enough for that. */
  lemma DistinctVersionsStand(fallbacks: seq<string>, channel: string)
    requires forall f, g | f in fallbacks && g in fallbacks && FindSemantic(f) == FindSemantic(g) :: f == g
    ensures EachStands(fallbacks, channel)
  {
    forall f | f in fallbacks && f != channel ensures Standing(fallbacks, FindSemantic(f)) == f {
      StandsFor(fallbacks, f);
    }
  }

  /** Then discovery takes the fallback of highest version that anybody offers, from the best catalog
      that offers it, and fails only if nobody offers any. */
  lemma HighestFallback(c: Context, ms: seq<Manifest>, excluded: seq<string>, prio: (string, string) -> int,
                        channel: string, fallbacks: seq<string>, r: Answer)
    requires Discovered(c, ms, excluded, prio, channel, fallbacks, r) && !Offered(ms, excluded, channel)
    requires EachStands(fallbacks, channel)
    ensures if OfferedFallbacks(ms, excluded, fallbacks) == {} then r == NOWHERE
      else
        && r.channel in OfferedFallbacks(ms, excluded, fallbacks)
        && Best(c, ms, excluded, prio, r.channel, r)
        && forall f | f in OfferedFallbacks(ms, excluded, fallbacks) :: !VersionLess(FindSemantic(r.channel), FindSemantic(f))
  {
    var offered := OfferedFallbacks(ms, excluded, fallbacks);
    var good := StandingIn(fallbacks, offered);
    forall f | f in offered ensures FindSemantic(f) in good {
      StandsFor(fallbacks, f);
    }
    if good != {} {
      var v :| Top(good, v) && Best(c, ms, excluded, prio, Standing(fallbacks, v), r);
    }
  }

  lemma StandsFor(fallbacks: seq<string>, f: string)
    requires f in fallbacks
    ensures FindSemantic(f) in Versions(fallbacks)
    ensures Standing(fallbacks, FindSemantic(f)) in fallbacks
    ensures FindSemantic(Standing(fallbacks, FindSemantic(f))) == FindSemantic(f)
  {
    var i :| 0 <= i < |fallbacks| && fallbacks[i] == f;
    assert Versions(fallbacks)[i] == FindSemantic(f);
  }

  predicate Named(ms: seq<Manifest>) {
    forall m | m in ms :: m.catalog != ""
  }

  /** Discovery answers with nothing although somebody offers a fallback. */
  ghost predicate Overlooks(c: Context, ms: seq<Manifest>, prio: (string, string) -> int, channel: string, fallbacks: seq<string>) {
    Named(ms) && Discovered(c, ms, [], prio, channel, fallbacks, NOWHERE) && OfferedFallbacks(ms, [], fallbacks) != {}
  }

  /** That never happens exactly when each fallback stands for its version: of two with one version
      only the last is looked for. */
  lemma NeverOverlooksAFallback(c: Context, prio: (string, string) -> int, channel: string, fallbacks: seq<string>)
    ensures (forall ms :: !Overlooks(c, ms, prio, channel, fallbacks)) <==> EachStands(fallbacks, channel)
  {
    hide FindSemantic, VersionLess, Best, Discovered, OfferedFallbacks;
    if EachStands(fallbacks, channel) {
      forall ms ensures !Overlooks(c, ms, prio, channel, fallbacks) {
        if Overlooks(c, ms, prio, channel, fallbacks) { FoundIfOffered(c, ms, prio, channel, fallbacks); }
      }
    } else {
      var f :| f in fallbacks && f != channel && Standing(fallbacks, FindSemantic(f)) != f;
      Overlooked(c, prio, channel, fallbacks, f);
    }
  }

  lemma FoundIfOffered(c: Context, ms: seq<Manifest>, prio: (string, string) -> int, channel: string, fallbacks: seq<string>)
    requires EachStands(fallbacks, channel) && Named(ms) && OfferedFallbacks(ms, [], fallbacks) != {}
    ensures !Discovered(c, ms, [], prio, channel, fallbacks, NOWHERE)
  {
    hide FindSemantic, VersionLess, Standing, StandingIn, Top, OfferedFallbacks, Less;
    if Discovered(c, ms, [], prio, channel, fallbacks, NOWHERE) {
      if !Offered(ms, [], channel) {
        HighestFallback(c, ms, [], prio, channel, fallbacks, NOWHERE);
      }
    }
  }

  lemma Overlooked(c: Context, prio: (string, string) -> int, channel: string, fallbacks: seq<string>, h: string)
    requires h in fallbacks && h != channel && Standing(fallbacks, FindSemantic(h)) != h
    ensures Overlooks(c, [Manifest("catalog", "ns", [h])], prio, channel, fallbacks)
  {
    hide FindSemantic, VersionLess, Best;
    var ms := [Manifest("catalog", "ns", [h])];
    assert ms[0] in ms && Offers(ms[0], [], h);
    assert h in OfferedFallbacks(ms, [], fallbacks);
    assert !Offered(ms, [], channel);
    assert StandingIn(fallbacks, OfferedFallbacks(ms, [], fallbacks)) == {};
  }

  /** The order of the code is the numeric one on the fallbacks' versions. */
  ghost predicate OrderedByNumbers(fallbacks: seq<string>, channel: string) {
    forall f, g | f in fallbacks && g in fallbacks && f != channel && g != channel && NumericLess(FindSemantic(f), FindSemantic(g)) ::
      VersionLess(FindSemantic(f), FindSemantic(g))
  }

  /** Versions that semver accepts are ordered like that. */
  lemma ValidFallbacksAreOrdered(fallbacks: seq<string>, channel: string)
    requires forall f | f in fallbacks && f != channel :: IsValid(FindSemantic(f))
    ensures OrderedByNumbers(fallbacks, channel)
  {
    hide FindSemantic, IsValid, VersionLess, NumericLess;
    forall f, g | f in fallbacks && g in fallbacks && f != channel && g != channel && NumericLess(FindSemantic(f), FindSemantic(g))
      ensures VersionLess(FindSemantic(f), FindSemantic(g))
    {
      ValidOrderIsNumeric(FindSemantic(f), FindSemantic(g));
    }
  }

  /** Where nobody offers the channel but somebody a fallback, the answer is an offered fallback than which
      no other one has greater numbers. */
  ghost predicate TakesHighest(c: Context, ms: seq<Manifest>, prio: (string, string) -> int, channel: string, fallbacks: seq<string>,
                               r: Answer) {
    Named(ms) && Discovered(c, ms, [], prio, channel, fallbacks, r) && !Offered(ms, [], channel) && OfferedFallbacks(ms, [], fallbacks) != {} ==>
      && r != NOWHERE && r.channel in OfferedFallbacks(ms, [], fallbacks)
      && forall f | f in OfferedFallbacks(ms, [], fallbacks) :: !NumericLess(FindSemantic(r.channel), FindSemantic(f))
  }

  /** Discovery always takes the fallback of highest version if and only if each stands for its version and
      the code's order on them is the numeric one. */
  lemma HighestExactly(c: Context, prio: (string, string) -> int, channel: string, fallbacks: seq<string>)
    ensures (forall ms, r :: TakesHighest(c, ms, prio, channel, fallbacks, r))
      <==> EachStands(fallbacks, channel) && OrderedByNumbers(fallbacks, channel)
  {
    hide FindSemantic, VersionLess, NumericLess, Best, Discovered, OfferedFallbacks, Standing;
    if !EachStands(fallbacks, channel) {
      var ms :| Overlooks(c, ms, prio, channel, fallbacks) by { NeverOverlooksAFallback(c, prio, channel, fallbacks); }
      OverlookedIsNotOffered(c, ms, prio, channel, fallbacks);
      assert !TakesHighest(c, ms, prio, channel, fallbacks, NOWHERE);
    } else if !OrderedByNumbers(fallbacks, channel) {
      var f, g :| f in fallbacks && g in fallbacks && f != channel && g != channel && NumericLess(FindSemantic(f), FindSemantic(g))
        && !VersionLess(FindSemantic(f), FindSemantic(g));
      LowerIsTaken(c, prio, channel, fallbacks, f, g);
      assert !TakesHighest(c, [Manifest("catalog", "ns", [f, g])], prio, channel, fallbacks, Answer("catalog", "ns", f));
    } else {
      forall ms, r ensures TakesHighest(c, ms, prio, channel, fallbacks, r) {
        HighestIsTaken(c, ms, prio, channel, fallbacks, r);
      }
    }
  }

  lemma OverlookedIsNotOffered(c: Context, ms: seq<Manifest>, prio: (string, string) -> int, channel: string, fallbacks: seq<string>)
    requires Overlooks(c, ms, prio, channel, fallbacks)
    ensures !Offered(ms, [], channel)
  {
    hide FindSemantic, VersionLess, Standing, Less;
  }

  lemma HighestIsTaken(c: Context, ms: seq<Manifest>, prio: (string, string) -> int, channel: string, fallbacks: seq<string>, r: Answer)
    requires EachStands(fallbacks, channel) && OrderedByNumbers(fallbacks, channel)
    ensures TakesHighest(c, ms, prio, channel, fallbacks, r)
  {
    hide FindSemantic, VersionLess, NumericLess, Discovered, EachStands, Less;
    if Named(ms) && Discovered(c, ms, [], prio, channel, fallbacks, r) && !Offered(ms, [], channel) && OfferedFallbacks(ms, [], fallbacks) != {} {
      HighestFallback(c, ms, [], prio, channel, fallbacks, r);
      forall f | f in OfferedFallbacks(ms, [], fallbacks) ensures f != channel { }
    }
  }

  /** One catalog offers both, and the text order puts f last. */
  lemma LowerIsTaken(c: Context, prio: (string, string) -> int, channel: string, fallbacks: seq<string>, f: string, g: string)
    requires f in fallbacks && g in fallbacks && f != channel && g != channel && EachStands(fallbacks, channel)
    requires !VersionLess(FindSemantic(f), FindSemantic(g))
    ensures var ms := [Manifest("catalog", "ns", [f, g])];
      && Named(ms) && Discovered(c, ms, [], prio, channel, fallbacks, Answer("catalog", "ns", f))
      && !Offered(ms, [], channel) && OfferedFallbacks(ms, [], fallbacks) == {f, g}
  {
    hide FindSemantic, VersionLess, Less, Standing;
    var ms := [Manifest("catalog", "ns", [f, g])];
    assert ms[0] in ms && Offers(ms[0], [], f) && Offers(ms[0], [], g);
    assert OfferedFallbacks(ms, [], fallbacks) == {f, g};
    var good := StandingIn(fallbacks, {f, g});
    StandsFor(fallbacks, f);
    StandsFor(fallbacks, g);
    VersionLessIsTotal(FindSemantic(f), FindSemantic(f));
    assert Top(good, FindSemantic(f)) by {
      forall w | w in good ensures w == FindSemantic(f) || w == FindSemantic(g) { }
    }
    var x := AsCandidate(ms[0], prio);
    assert OfferedBy(ms, [], prio, f, x);
    assert Best(c, ms, [], prio, f, Answer("catalog", "ns", f));
  }

  /** Where the fallbacks are "4.9" and "4.10" and a catalog offers both, discovery takes "4.9". */
  lemma TextOrderTakesTheLower(c: Context, prio: (string, string) -> int, channel: string, r: Answer)
    requires channel != "4.9" && channel != "4.10"
    requires Discovered(c, [Manifest("catalog", "ns", ["4.9", "4.10"])], [], prio, channel, ["4.9", "4.10"], r)
    ensures r == Answer("catalog", "ns", "4.9")
  {
    var fallbacks := ["4.9", "4.10"];
    TextOrderIsNotNumeric();
    FourNineAndTen();
    hide FindSemantic, VersionLess, NumericLess, Discovered;
    VersionLessIsTotal("4.9", "4.10");
    DistinctVersionsStand(fallbacks, channel);
    LowerIsTaken(c, prio, channel, fallbacks, "4.9", "4.10");
    var ms := [Manifest("catalog", "ns", ["4.9", "4.10"])];
    OrderDoesNotMatter(c, ms, ms, [], prio, channel, fallbacks, r, Answer("catalog", "ns", "4.9"));
  }

  lemma FourNineAndTen()
    ensures FindSemantic("4.9") == "4.9" && FindSemantic("4.10") == "4.10"
  {
    assert DigitsEnd("4.9", 0) == 1 && DigitsEnd("4.9", 2) == 3;
    assert DigitsEnd("4.10", 0) == 1 && DigitsEnd("4.10", 2) == 4;
  }

  // ---------------------------------------------------------------------------------------
  // The catalog a registry pins

  /** What one manifest of the pinned catalog gives: fallbacks are looked for by their version's
      text, not by their name. */
  ghost predicate PinnedPick(channels: seq<string>, channel: string, fallbacks: seq<string>, r: Option<string>) {
    var good := set v | v in Versions(fallbacks) && v in channels;
    if channel in channels then r == Some(channel)
    else if good == {} then r == None
    else exists v :: Top(good, v) && r == Some(Standing(fallbacks, v))
  }

  method PickPinned(channels: seq<string>, channel: string, fallbacks: seq<string>) returns (r: Option<string>)
    ensures PinnedPick(channels, channel, fallbacks, r)
  {
    hide FindSemantic, VersionLess, Standing, TheOnlyOne, Ordered, Top, Versions, StrictTotal;
    if ChannelCheck(channel, channels) { return Some(channel); }
    var semverlList, semVerChannelMappings := PrunedSemverChannel(fallbacks);
    ByVersionIsTotal();
    var sorted := SortBy(semverlList, ByVersion);
    SameElements(sorted, semverlList);
    ghost var good := set v | v in Versions(fallbacks) && v in channels;
    for i := |sorted| downto 0
      invariant forall k | i <= k < |sorted| :: sorted[k] !in good
    {
      if ChannelCheck(sorted[i], channels) {
        FromTheEnd(semverlList, sorted, good, i);
        return Some(semVerChannelMappings[sorted[i]]);
      }
    }
    return None;
  }

  predicate OfCatalog(m: Manifest, catalog: string, ns: string) {
    m.catalog == catalog && m.catalogNs == ns
  }

  /** The first manifest of the catalog that gives anything decides; empty when none does. */
  ghost predicate PinnedChannel(ms: seq<Manifest>, fallbacks: seq<string>, channel: string, catalog: string, ns: string, r: string) {
    || (exists k | 0 <= k < |ms| :: OfCatalog(ms[k], catalog, ns) && PinnedPick(ms[k].channels, channel, fallbacks, Some(r)) &&
          forall j | 0 <= j < k && OfCatalog(ms[j], catalog, ns) :: PinnedPick(ms[j].channels, channel, fallbacks, None))
    || (r == "" && forall m | m in ms && OfCatalog(m, catalog, ns) :: PinnedPick(m.channels, channel, fallbacks, None))
  }

  method GetFirstAvailableSemverChannelFromCatalog(ms: seq<Manifest>, fallbacks: seq<string>, channel: string,
                                                   catalog: string, ns: string)
    returns (r: string)
    ensures PinnedChannel(ms, fallbacks, channel, catalog, ns, r)
  {
    for i := 0 to |ms|
      invariant forall j | 0 <= j < i && OfCatalog(ms[j], catalog, ns) :: PinnedPick(ms[j].channels, channel, fallbacks, None)
    {
      if OfCatalog(ms[i], catalog, ns) {
        var pick := PickPinned(ms[i].channels, channel, fallbacks);
        if pick.Some? { return pick.value; }
      }
    }
    return "";
  }

  /** What a pinned catalog gives is asked for, and it has it under that name or, a fallback, under its version. */
  lemma PinnedIsOffered(ms: seq<Manifest>, fallbacks: seq<string>, channel: string, catalog: string, ns: string, r: string)
    requires PinnedChannel(ms, fallbacks, channel, catalog, ns, r) && r != ""
    ensures r in [channel] + fallbacks
    ensures exists m | m in ms :: m.catalog == catalog && m.catalogNs == ns && ((r == channel && r in m.channels) || FindSemantic(r) in m.channels)
  {
    hide FindSemantic, VersionLess;
    var k :| 0 <= k < |ms| && OfCatalog(ms[k], catalog, ns) && PinnedPick(ms[k].channels, channel, fallbacks, Some(r));
    assert ms[k] in ms;
  }

  function PinnedAnswer(catalog: string, ns: string, pick: Option<string>): Answer {
    if pick.None? || pick.value == "" then NOWHERE else Answer(catalog, ns, pick.value)
  }

  /** GetCatalogSourceAndChannelFromPackage once the manifests are listed. */
  method GetCatalogSourceAndChannelFromPackage(c: Context, ms: seq<Manifest>, excluded: seq<string>, prio: (string,
                                               string) -> int,
                                               opregCatalog: string, opregCatalogNs: string, channel: string, fallbacks: seq<string>)
    returns (r: Answer)
    ensures ms == [] ==> r == Answer(opregCatalog, opregCatalogNs, channel)
    ensures ms != [] && (opregCatalog == "" || opregCatalogNs == "") ==> Discovered(c, ms, excluded, prio, channel, fallbacks, r)
    ensures ms != [] && opregCatalog != "" && opregCatalogNs != "" && r != NOWHERE ==>
      && r.name == opregCatalog && r.ns == opregCatalogNs && r.channel in [channel] + fallbacks
      && exists m | m in ms :: m.catalog == opregCatalog && m.catalogNs == opregCatalogNs
           && ((r.channel == channel && channel in m.channels) || FindSemantic(r.channel) in m.channels)
    ensures ms != [] && opregCatalog != "" && opregCatalogNs != "" ==>
      exists ch :: PinnedChannel(ms, fallbacks, channel, opregCatalog, opregCatalogNs, ch) &&
        r == PinnedAnswer(opregCatalog, opregCatalogNs, Some(ch))
  {
    if |ms| == 0 { return Answer(opregCatalog, opregCatalogNs, channel); }
    if opregCatalog != "" && opregCatalogNs != "" {
      var curChannel := GetFirstAvailableSemverChannelFromCatalog(ms, fallbacks, channel, opregCatalog, opregCatalogNs);
      if curChannel == "" { return NOWHERE; }
      PinnedIsOffered(ms, fallbacks, channel, opregCatalog, opregCatalogNs, curChannel);
      return Answer(opregCatalog, opregCatalogNs, curChannel);
    }
    r := Discover(c, ms, excluded, prio, channel, fallbacks);
  }

  /** Every fallback version is its own name. */
  ghost predicate SelfStanding(fallbacks: seq<string>) {
    forall f | f in fallbacks :: Standing(fallbacks, FindSemantic(f)) == FindSemantic(f)
  }

  ghost predicate Agrees(c: Context, prio: (string, string) -> int, catalog: string, ns: string, channels: seq<string>,
                         channel: string, fallbacks: seq<string>) {
    forall pick, r | PinnedPick(channels, channel, fallbacks, pick)
      && Discovered(c, [Manifest(catalog, ns, channels)], [], prio, channel, fallbacks, r) :: r == PinnedAnswer(catalog, ns, pick)
  }

  /** Pinning a catalog gives what discovery over that catalog alone gives, whatever it offers,
      exactly when every fallback version is its own name. */
  lemma PinnedAgrees(c: Context, prio: (string, string) -> int, catalog: string, ns: string, channel: string,
                     fallbacks: seq<string>)
    requires "" !in fallbacks
    ensures (forall channels: seq<string> | "" !in channels :: Agrees(c, prio, catalog, ns, channels, channel, fallbacks)) <==> SelfStanding(fallbacks)
  {
    hide FindSemantic, VersionLess, Standing, Discovered, PinnedPick;
    if SelfStanding(fallbacks) {
      forall channels: seq<string> | "" !in channels ensures Agrees(c, prio, catalog, ns, channels, channel, fallbacks) {
        AgreesOn(c, prio, catalog, ns, channels, channel, fallbacks);
      }
    } else {
      var f :| f in fallbacks && Standing(fallbacks, FindSemantic(f)) != FindSemantic(f);
      StandsFor(fallbacks, f);
      var v := FindSemantic(f);
      var g := Standing(fallbacks, v);
      FindSemanticFinds(f);
      if g != channel {
        DisagreesOnName(c, prio, catalog, ns, channel, fallbacks, v);
      } else {
        DisagreesOnVersion(c, prio, catalog, ns, channel, fallbacks, v);
      }
    }
  }

  lemma {:induction false} FindSemanticFinds(s: string)
    ensures FindSemantic(s) != ""
  {
    FindFromFinds(s, 0);
  }

  lemma {:induction false} FindFromFinds(s: string, i: nat)
    requires i <= |s|
    ensures FindFrom(s, i) != ""
    decreases |s| - i
  {
    hide MatchEnd;
    if MatchEnd(s, i) <= i && i < |s| { FindFromFinds(s, i + 1); }
  }

  lemma OnlyOne(c: Context, prio: (string, string) -> int, catalog: string, ns: string, channels: seq<string>,
                channel: string)
    ensures Offered([Manifest(catalog, ns, channels)], [], channel) <==> channel in channels
    ensures channel in channels ==> Best(c, [Manifest(catalog, ns, channels)], [], prio, channel, Answer(catalog, ns, channel))
  {
    var m := Manifest(catalog, ns, channels);
    assert m in [m];
    if channel in channels {
      assert Offers(m, [], channel);
      assert OfferedBy([m], [], prio, channel, AsCandidate(m, prio));
    }
  }

  lemma SameVersions(c: Context, prio: (string, string) -> int, catalog: string, ns: string, channels: seq<string>,
                     fallbacks: seq<string>)
    requires SelfStanding(fallbacks)
    ensures StandingIn(fallbacks, OfferedFallbacks([Manifest(catalog, ns, channels)], [], fallbacks)) ==
      set v | v in Versions(fallbacks) && v in channels
  {
    hide FindSemantic, Standing, Offered;
    var ms := [Manifest(catalog, ns, channels)];
    forall v | v in Versions(fallbacks)
      ensures Standing(fallbacks, v) in OfferedFallbacks(ms, [], fallbacks) <==> v in channels
    {
      OnlyOne(c, prio, catalog, ns, channels, v);
      assert Standing(fallbacks, v) == v;
    }
  }

  lemma AgreesOn(c: Context, prio: (string, string) -> int, catalog: string, ns: string, channels: seq<string>,
                 channel: string, fallbacks: seq<string>)
    requires SelfStanding(fallbacks) && "" !in channels
    ensures Agrees(c, prio, catalog, ns, channels, channel, fallbacks)
  {
    hide FindSemantic, Standing, VersionLess, Best;
    var ms := [Manifest(catalog, ns, channels)];
    forall pick, r | PinnedPick(channels, channel, fallbacks, pick) && Discovered(c, ms, [], prio, channel, fallbacks, r)
      ensures r == PinnedAnswer(catalog, ns, pick)
    {
      OnlyOne(c, prio, catalog, ns, channels, channel);
      if channel in channels {
        BestIsUnique(c, ms, [], prio, channel, r, Answer(catalog, ns, channel));
      } else {
        SameVersions(c, prio, catalog, ns, channels, fallbacks);
        var found := set v | v in Versions(fallbacks) && v in channels;
        if found != {} {
          var v :| Top(found, v) && Best(c, ms, [], prio, Standing(fallbacks, v), r);
          var w :| Top(found, w) && pick == Some(Standing(fallbacks, w));
          TopIsUnique(found, v, w);
          assert Standing(fallbacks, v) == v;
          OnlyOne(c, prio, catalog, ns, channels, v);
          BestIsUnique(c, ms, [], prio, v, r, Answer(catalog, ns, v));
        }
      }
    }
  }

  /** Discovery finds a fallback under its name. */
  lemma FoundByName(c: Context, prio: (string, string) -> int, catalog: string, ns: string, channel: string,
                    fallbacks: seq<string>, v: string)
    requires v in Versions(fallbacks) && Standing(fallbacks, v) != channel
    ensures var g := Standing(fallbacks, v);
      Discovered(c, [Manifest(catalog, ns, [g])], [], prio, channel, fallbacks, Answer(catalog, ns, g))
  {
    hide FindSemantic, VersionLess;
    var g := Standing(fallbacks, v);
    var ms := [Manifest(catalog, ns, [g])];
    OnlyOne(c, prio, catalog, ns, [g], channel);
    OnlyOne(c, prio, catalog, ns, [g], g);
    var good := StandingIn(fallbacks, OfferedFallbacks(ms, [], fallbacks));
    assert good == {v} by {
      forall w | w in good ensures w == v {
        OnlyOne(c, prio, catalog, ns, [g], Standing(fallbacks, w));
      }
    }
    TopOfOne(v);
  }

  /** The pinned lookup finds g only as a version's text. */
  lemma PickedByText(channel: string, fallbacks: seq<string>, g: string) returns (pick: Option<string>)
    requires g != channel
    ensures PinnedPick([g], channel, fallbacks, pick)
    ensures pick == if g in Versions(fallbacks) then Some(Standing(fallbacks, g)) else None
  {
    hide FindSemantic, VersionLess, Standing;
    var found := set w | w in Versions(fallbacks) && w in [g];
    if g in Versions(fallbacks) {
      assert found == {g};
      TopOfOne(g);
      return Some(Standing(fallbacks, g));
    }
    assert found == {};
    return None;
  }

  /** The catalog has the fallback under its name: only discovery finds it. */
  lemma DisagreesOnName(c: Context, prio: (string, string) -> int, catalog: string, ns: string, channel: string,
                        fallbacks: seq<string>, v: string)
    requires v in Versions(fallbacks) && Standing(fallbacks, v) !in [v, channel, ""]
    ensures !Agrees(c, prio, catalog, ns, [Standing(fallbacks, v)], channel, fallbacks)
  {
    hide FindSemantic, Discovered, PinnedPick;
    var g := Standing(fallbacks, v);
    FoundByName(c, prio, catalog, ns, channel, fallbacks, v);
    var pick := PickedByText(channel, fallbacks, g);
    assert PinnedAnswer(catalog, ns, pick) != Answer(catalog, ns, g);
  }

  /** The catalog has the version's text as a channel: only the pinned lookup takes it, and
      answers with the fallback's name. */
  lemma DisagreesOnVersion(c: Context, prio: (string, string) -> int, catalog: string, ns: string, channel: string,
                           fallbacks: seq<string>, v: string)
    requires v in Versions(fallbacks) && Standing(fallbacks, v) == channel != v && channel != "" && v != ""
    ensures !Agrees(c, prio, catalog, ns, [v], channel, fallbacks)
  {
    hide FindSemantic, VersionLess;
    var ms := [Manifest(catalog, ns, [v])];
    OnlyOne(c, prio, catalog, ns, [v], channel);
    var found := set w | w in Versions(fallbacks) && w in [v];
    assert found == {v};
    TopOfOne(v);
    assert Top(found, v);
    assert PinnedPick([v], channel, fallbacks, Some(channel));
    var good := StandingIn(fallbacks, OfferedFallbacks(ms, [], fallbacks));
    forall w | w in good ensures Standing(fallbacks, w) == v && w == FindSemantic(v) {
      OnlyOne(c, prio, catalog, ns, [v], Standing(fallbacks, w));
    }
    OnlyOne(c, prio, catalog, ns, [v], v);
    if w :| w in good {
      assert good == {w};
      TopOfOne(w);
      assert Top(good, w);
      assert Discovered(c, ms, [], prio, channel, fallbacks, Answer(catalog, ns, v));
    } else {
      assert Discovered(c, ms, [], prio, channel, fallbacks, NOWHERE);
    }
  }
}
