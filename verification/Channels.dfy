/**
 Which channel a shared Subscription follows: the current one while somebody still asks for its
 version, otherwise the requested one of least version (controllers/util/util.go, FindMinSemver
 and FindSemverFromAnnotations).
 */
module Channels {
  import opened Annotations
  import opened Semver
  import opened Sorting

  /** Some request annotation among the given keys asks for a channel of version v. */
  predicate Requested(annotations: map<string, string>, keys: set<string>, v: string, channel: string) {
    && IsValid(v)
    && exists key | key in keys && key in annotations ::
         Matches(key, "request") && annotations[key] == channel && FindSemantic(channel) == v
  }

  /** Some request annotation among the given keys asks for version v. */
  predicate AskedFor(annotations: map<string, string>, keys: set<string>, v: string) {
    exists key | key in keys && key in annotations :: Matches(key, "request") && FindSemantic(annotations[key]) == v
  }

  /** And v is a version semver accepts, which only versions with a leading v are. */
  predicate RequestedVersion(annotations: map<string, string>, keys: set<string>, v: string) {
    IsValid(v) && AskedFor(annotations, keys, v)
  }

  lemma RequestedHasChannel(annotations: map<string, string>, keys: set<string>, v: string)
    ensures RequestedVersion(annotations, keys, v) <==> exists channel :: Requested(annotations, keys, v, channel)
  {
    if RequestedVersion(annotations, keys, v) {
      var key :| key in keys && key in annotations && Matches(key, "request") && FindSemantic(annotations[key]) == v;
      assert Requested(annotations, keys, v, annotations[key]);
    }
  }

  /** What may come out, whatever the order the annotations are visited in: nothing when no
      request has a version, the current channel while its version is requested, and else some
      requested channel of least version. */
  ghost predicate ChannelChoice(annotations: map<string, string>, current: string, r: string) {
    if !exists v :: RequestedVersion(annotations, annotations.Keys, v) then r == ""
    else if current != "" && RequestedVersion(annotations, annotations.Keys, FindSemantic(current)) then r == current
    else LeastRequested(annotations, r)
  }

  ghost predicate LeastRequested(annotations: map<string, string>, channel: string) {
    && Requested(annotations, annotations.Keys, FindSemantic(channel), channel)
    && forall w :: RequestedVersion(annotations, annotations.Keys, w) ==> !VersionLess(w, FindSemantic(channel))
  }

  /** Requested versions are compared by their numbers. */
  lemma LeastIsNumeric(annotations: map<string, string>, channel: string)
    requires LeastRequested(annotations, channel)
    ensures forall w | RequestedVersion(annotations, annotations.Keys, w) :: !NumericLess(w, FindSemantic(channel))
  {
    hide FindSemantic, VersionLess, NumericLess, AskedFor, IsValid;
    forall w | RequestedVersion(annotations, annotations.Keys, w) ensures !NumericLess(w, FindSemantic(channel)) {
      ValidOrderIsNumeric(w, FindSemantic(channel));
    }
  }

  const ByVersion: (string, string) -> bool := (v, w) => VersionLess(v, w)

  lemma ByVersionIsTotal()
    ensures StrictTotal(ByVersion)
  {
    forall v, w ensures !ByVersion(v, v) && (ByVersion(v, w) || ByVersion(w, v) || v == w) {
      VersionLessIsTotal(v, w);
    }
    forall u, v, w | ByVersion(u, v) && ByVersion(v, w) ensures ByVersion(u, w) {
      VersionLessIsTransitive(u, v, w);
    }
  }

  /** The versions asked for, and for each some channel asked for that has it. */
  method FindSemverFromAnnotations(annotations: map<string, string>)
    returns (semverlList: seq<string>, semVerChannelMappings: map<string, string>)
    ensures forall v :: v in semverlList <==> RequestedVersion(annotations, annotations.Keys, v)
    ensures forall v :: v in semVerChannelMappings <==> v in semverlList
    ensures forall v | v in semVerChannelMappings :: Requested(annotations, annotations.Keys, v, semVerChannelMappings[v])
  {
    semverlList, semVerChannelMappings := [], map[];
    var todo := annotations.Keys;
    while todo != {}
      invariant todo <= annotations.Keys
      invariant forall v :: v in semverlList <==> RequestedVersion(annotations, annotations.Keys - todo, v)
      invariant forall v :: v in semVerChannelMappings <==> v in semverlList
      invariant forall v | v in semVerChannelMappings :: Requested(annotations, annotations.Keys, v, semVerChannelMappings[v])
      decreases todo
    {
      var anno :| anno in todo;
      ghost var seen := annotations.Keys - todo;
      var channel := annotations[anno];
      var prunedChannel := FindSemantic(channel);
      if Matches(anno, "request") && IsValid(prunedChannel) {
        semverlList := semverlList + [prunedChannel];
        semVerChannelMappings := semVerChannelMappings[prunedChannel := channel];
      }
      todo := todo - {anno};
      assert annotations.Keys - todo == seen + {anno};
    }
    assert annotations.Keys - todo == annotations.Keys;
  }

  method FindMinSemver(curChannel: string, semverlList: seq<string>, semVerChannelMappings: map<string, string>)
    returns (r: string)
    requires forall v | v in semverlList :: v in semVerChannelMappings
    ensures semverlList == [] ==> r == ""
    ensures semverlList != [] && curChannel != "" && FindSemantic(curChannel) in semverlList ==> r == curChannel
    ensures semverlList != [] && (curChannel == "" || FindSemantic(curChannel) !in semverlList) ==>
      exists v | v in semverlList ::
        r == semVerChannelMappings[v] && forall w | w in semverlList :: !VersionLess(w, v)
  {
    if |semverlList| == 0 {
      return "";
    } else if FindSemantic(curChannel) !in semverlList || curChannel == "" {
      ByVersionIsTotal();
      var sorted := SortBy(semverlList, ByVersion);
      assert |sorted| == |multiset(sorted)| == |semverlList|;
      assert sorted[0] in multiset(sorted);
      forall w | w in semverlList ensures !VersionLess(w, sorted[0]) {
        assert w in multiset(semverlList);
        var j :| 0 <= j < |sorted| && sorted[j] == w;
        VersionLessIsTotal(w, w);
        if j > 0 { assert !ByVersion(sorted[j], sorted[0]); }
      }
      return semVerChannelMappings[sorted[0]];
    }
    return curChannel;
  }

  method FindMinSemverFromAnnotations(annotations: map<string, string>, curChannel: string) returns (r: string)
    ensures ChannelChoice(annotations, curChannel, r)
  {
    var semverlList, semVerChannelMappings := FindSemverFromAnnotations(annotations);
    r := FindMinSemver(curChannel, semverlList, semVerChannelMappings);
    if semverlList != [] {
      assert semverlList[0] in semverlList;
      assert RequestedVersion(annotations, annotations.Keys, semverlList[0]);
    }
  }

  /** The channel followed after a choice: no choice leaves it as it is. */
  function Followed(current: string, choice: string): string {
    if choice != "" then choice else current
  }

  ghost predicate HeldNow(annotations: map<string, string>, current: string) {
    current != "" && IsValid(FindSemantic(current)) && AskedFor(annotations, annotations.Keys, FindSemantic(current))
  }

  /** Whatever else is requested and whatever the order, the channel stays while its version is asked for. */
  ghost predicate AlwaysHeld(channel: string) {
    forall annotations: map<string, string>, r: string |
      AskedFor(annotations, annotations.Keys, FindSemantic(channel)) && ChannelChoice(annotations, channel, r) ::
      Followed(channel, r) == channel
  }

  /** A channel the Subscription may be moved to from one that is not held. */
  function Rival(channel: string): string {
    if channel == "" then "s" else "v3"
  }

  lemma RivalIsAsLow(channel: string)
    requires channel == "" || !IsValid(FindSemantic(channel))
    ensures IsValid(FindSemantic(Rival(channel))) && Rival(channel) != channel && Rival(channel) != ""
    ensures IsValid(FindSemantic(channel)) ==> FindSemantic(channel) == FindSemantic(Rival(channel))
  {
    VersionThree();
    ZeroVersion();
  }

  /** Where all requests are for the channel or its rival, the rival may be chosen. */
  lemma RivalMayBeChosen(annotations: map<string, string>, channel: string)
    requires channel == "" || !IsValid(FindSemantic(channel))
    requires forall key | key in annotations && Matches(key, "request") :: annotations[key] == channel || annotations[key] == Rival(channel)
    requires exists key | key in annotations :: Matches(key, "request") && annotations[key] == Rival(channel)
    ensures ChannelChoice(annotations, channel, Rival(channel))
  {
    hide FindSemantic, VersionLess, IsValid, Matches, Rival;
    RivalIsAsLow(channel);
    var rival := Rival(channel);
    var v := FindSemantic(rival);
    assert Requested(annotations, annotations.Keys, v, rival);
    assert RequestedVersion(annotations, annotations.Keys, v);
    forall w | RequestedVersion(annotations, annotations.Keys, w) ensures !VersionLess(w, v) { VersionLessIsTotal(w, w); }
  }

  /** That is so exactly for the channels that have a name and whose version semver accepts: others can
      be moved away from although they are asked for. */
  lemma HeldExactly(channel: string)
    ensures AlwaysHeld(channel) <==> channel != "" && IsValid(FindSemantic(channel))
  {
    hide FindSemantic, VersionLess, IsValid, AskedFor, Rival, LeastRequested;
    if channel == "" || !IsValid(FindSemantic(channel)) {
      var t, u := Registrant("p", "a", "op"), Registrant("p", "b", "op");
      MatchesOwnKind(t, "request", "request");
      MatchesOwnKind(u, "request", "request");
      KeysNeverCollide(t, u, "request", "request");
      var annotations := map[Key(t, "request") := channel, Key(u, "request") := Rival(channel)];
      assert annotations[Key(t, "request")] == channel && annotations[Key(u, "request")] == Rival(channel);
      RivalMayBeChosen(annotations, channel);
      RivalIsAsLow(channel);
      StillAskedFor(annotations, Key(t, "request"));
      assert Followed(channel, Rival(channel)) != channel;
    }
  }

  lemma StillAskedFor(annotations: map<string, string>, key: string)
    requires key in annotations && Matches(key, "request")
    ensures AskedFor(annotations, annotations.Keys, FindSemantic(annotations[key]))
  {
  }

  lemma VersionThree()
    ensures FindSemantic("v3") == "v3" && IsValid("v3")
  {
    assert MatchEnd("v3", 0) == 2;
    assert NumberEnd("v3", 1) == 2;
  }

  /** So "4.9" gives way to "v3" while a request still asks for it, in whatever order they are visited. */
  lemma UnprefixedChannelMoves(key: string, other: string, r: string)
    requires Matches(key, "request") && Matches(other, "request") && key != other
    requires ChannelChoice(map[key := "4.9", other := "v3"], "4.9", r)
    ensures r == "v3"
  {
    hide Matches;
    assert DigitsEnd("4.9", 0) == 1 && DigitsEnd("4.9", 2) == 3;
    assert FindSemantic("4.9") == "4.9";
    VersionThree();
    hide FindSemantic, VersionLess;
    var annotations := map[key := "4.9", other := "v3"];
    assert annotations[other] == "v3";
    assert RequestedVersion(annotations, annotations.Keys, "v3");
  }

  /** The current channel is held, or the empty channel is not among those of least version, or is
      the only one. */
  ghost predicate Settles(annotations: map<string, string>, current: string) {
    || HeldNow(annotations, current)
    || !LeastRequested(annotations, "")
    || forall channel :: LeastRequested(annotations, channel) ==> channel == ""
  }

  /** A channel once chosen is chosen again, as long as the same is requested. */
  lemma ChoiceIsStable(annotations: map<string, string>, current: string, r: string, again: string)
    requires Settles(annotations, current)
    requires ChannelChoice(annotations, current, r) && ChannelChoice(annotations, Followed(current, r), again)
    ensures Followed(Followed(current, r), again) == Followed(current, r)
  {
    hide FindSemantic, VersionLess, Requested;
    if LeastRequested(annotations, r) { LeastIsRequested(annotations, r); }
  }

  lemma LeastIsRequested(annotations: map<string, string>, channel: string)
    requires LeastRequested(annotations, channel)
    ensures RequestedVersion(annotations, annotations.Keys, FindSemantic(channel))
  {
    hide FindSemantic, VersionLess;
    RequestedHasChannel(annotations, annotations.Keys, FindSemantic(channel));
  }

  ghost predicate Stable(annotations: map<string, string>, current: string, r: string, again: string) {
    ChannelChoice(annotations, current, r) && ChannelChoice(annotations, Followed(current, r), again) ==>
      Followed(Followed(current, r), again) == Followed(current, r)
  }

  /** Whatever the orders the annotations are visited in, the second choice keeps the first exactly
      under that condition. */
  lemma StableExactly(annotations: map<string, string>, current: string)
    ensures (forall r, again :: Stable(annotations, current, r, again)) <==> Settles(annotations, current)
  {
    hide FindSemantic, VersionLess, LeastRequested, RequestedVersion;
    if Settles(annotations, current) {
      forall r, again ensures Stable(annotations, current, r, again) {
        if ChannelChoice(annotations, current, r) && ChannelChoice(annotations, Followed(current, r), again) {
          ChoiceIsStable(annotations, current, r, again);
        }
      }
    } else {
      var channel :| LeastRequested(annotations, channel) && channel != "";
      UnsettledChoice(annotations, current, channel);
      assert !Stable(annotations, current, "", channel);
    }
  }

  lemma UnsettledChoice(annotations: map<string, string>, current: string, channel: string)
    requires !HeldNow(annotations, current) && LeastRequested(annotations, "") && LeastRequested(annotations, channel) && channel != ""
    ensures ChannelChoice(annotations, current, "") && ChannelChoice(annotations, current, channel) && channel != current
  {
    hide FindSemantic, VersionLess, LeastRequested, AskedFor, IsValid;
    LeastIsRequested(annotations, "");
    LeastIsRequested(annotations, channel);
  }

  /** Where nobody requests the empty channel that is so. */
  lemma NoEmptyRequestSettles(annotations: map<string, string>, current: string)
    requires forall key | key in annotations && Matches(key, "request") :: annotations[key] != ""
    ensures Settles(annotations, current)
  {
    hide FindSemantic, VersionLess, Matches;
  }

  /** With an empty channel among the requests two passes can disagree: "" and "s" both count as
      v0.0.0, the first pass may come out with no channel and keep v3, the second with "s". */
  lemma EmptyChannelUnsettles(key: string, other: string)
    requires Matches(key, "request") && Matches(other, "request") && key != other
    ensures var annotations := map[key := "", other := "s"];
      ChannelChoice(annotations, "v3", "") && ChannelChoice(annotations, "v3", "s")
  {
    ZeroVersion();
    VersionThree();
    hide FindSemantic, IsValid, Matches, VersionLess;
    var annotations := map[key := "", other := "s"];
    var v := "v0.0.0";
    assert Requested(annotations, annotations.Keys, v, "") by { assert annotations[key] == ""; }
    assert Requested(annotations, annotations.Keys, v, "s") by { assert annotations[other] == "s"; }
    forall w | RequestedVersion(annotations, annotations.Keys, w) ensures w == v && !VersionLess(w, v) {
      VersionLessIsTotal(w, v);
    }
    assert RequestedVersion(annotations, annotations.Keys, v);
    assert v != "v3";
  }

  lemma ZeroVersion()
    ensures FindSemantic("") == "v0.0.0" && FindSemantic("s") == "v0.0.0" && IsValid("v0.0.0")
  {
    assert FindFrom("s", 1) == "v0.0.0";
    assert NumberEnd("v0.0.0", 1) == 2 && NumberEnd("v0.0.0", 3) == 4 && NumberEnd("v0.0.0", 5) == 6;
  }
}
