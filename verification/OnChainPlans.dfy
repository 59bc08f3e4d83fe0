/** The contract actions a policy change asks for. */
module OnChainPlans {
  import opened Ordering
  import opened CanonicalJson
  import opened FeedPolicies
  import opened FeedEncoding

  datatype Action =
    | SetTrustedAsset(asset: string, trusted: bool)
    | AddSource(source: string, name: string)
    | RemoveSource(source: string)
    | SetDeviationThreshold(thresholdBps: int)

  /** SHA-256 of a text, as a free constructor. */
  datatype Digest = Sha256(text: string)

  datatype OnChainPlan = OnChainPlan(
    actions: seq<Action>,
    offChainParameters: seq<string>,
    missingSourceAddresses: seq<string>,
    digest: Digest)

  type Addresses = map<string, string>

  predicate HasAddress(addresses: Addresses, source: string) {
    source in addresses && addresses[source] != ""
  }

  // ── Trusted assets ────────────────────────────────────────────────────────

  predicate TrustGained(b: Catalog, a: Catalog, k: string) {
    k in a && a[k].enabled && (k !in b || !b[k].enabled)
  }

  predicate TrustLost(b: Catalog, a: Catalog, k: string) {
    k in b && b[k].enabled && (k !in a || !a[k].enabled)
  }

  function TrustAction(b: Catalog, a: Catalog, k: string): (r: seq<Action>) {
    if TrustGained(b, a, k) then [SetTrustedAsset(k, true)]
    else if TrustLost(b, a, k) then [SetTrustedAsset(k, false)]
    else []
  }

  function TrustActions(b: Catalog, a: Catalog, keys: seq<string>): (r: seq<Action>) {
    if keys == [] then [] else TrustActions(b, a, keys[..|keys| - 1]) + TrustAction(b, a, keys[|keys| - 1])
  }

  lemma TrustPush(b: Catalog, a: Catalog, keys: seq<string>, i: nat)
    requires i < |keys|
    ensures TrustActions(b, a, keys[..i + 1]) == TrustActions(b, a, keys[..i]) + TrustAction(b, a, keys[i])
  {
    assert keys[..i + 1][..i] == keys[..i];
  }

  method PlanKept(b: Catalog, a: Catalog) returns (r: seq<Action>)
    ensures r == TrustActions(b, a, Listing(a.Keys))
  {
    hide Listing, TrustActions;
    var kept := Listing(a.Keys);
    assert forall k :: k in kept ==> k in a;
    r := [];
    assert TrustActions(b, a, []) == [] by { NoTrust(b, a); }
    for i := 0 to |kept|
      invariant r == TrustActions(b, a, kept[..i])
    {
      var asset := kept[i];
      TrustPush(b, a, kept, i);
      if asset !in b {
        if a[asset].enabled { r := r + [SetTrustedAsset(asset, true)]; }
      } else if b[asset].enabled != a[asset].enabled {
        r := r + [SetTrustedAsset(asset, a[asset].enabled)];
      }
    }
    assert kept[..|kept|] == kept;
  }

  lemma NoTrust(b: Catalog, a: Catalog)
    ensures TrustActions(b, a, []) == []
  {
  }

  method PlanGone(b: Catalog, a: Catalog) returns (r: seq<Action>)
    ensures r == TrustActions(b, a, Listing(b.Keys - a.Keys))
  {
    hide Listing, TrustActions;
    var gone := Listing(b.Keys - a.Keys);
    assert forall k :: k in gone ==> k in b && k !in a;
    r := [];
    assert TrustActions(b, a, []) == [] by { NoTrust(b, a); }
    for i := 0 to |gone|
      invariant r == TrustActions(b, a, gone[..i])
    {
      TrustPush(b, a, gone, i);
      if b[gone[i]].enabled { r := r + [SetTrustedAsset(gone[i], false)]; }
    }
    assert gone[..|gone|] == gone;
  }

  // ── Providers ─────────────────────────────────────────────────────────────

  function EnabledSources(feeds: seq<FeedPolicy>): (r: set<string>) {
    set f, s | f in feeds && f.enabled && s in f.sources :: s
  }

  function AddActions(sources: seq<string>, addresses: Addresses): (r: seq<Action>) {
    if sources == [] then [] else
      var s := sources[|sources| - 1];
      AddActions(sources[..|sources| - 1], addresses)
      + (if HasAddress(addresses, s) then [AddSource(addresses[s], s)] else [])
  }

  function RemoveActions(sources: seq<string>, addresses: Addresses): (r: seq<Action>) {
    if sources == [] then [] else
      var s := sources[|sources| - 1];
      RemoveActions(sources[..|sources| - 1], addresses)
      + (if HasAddress(addresses, s) then [RemoveSource(addresses[s])] else [])
  }

  function Missing(sources: seq<string>, addresses: Addresses): (r: seq<string>) {
    if sources == [] then [] else
      var s := sources[|sources| - 1];
      Missing(sources[..|sources| - 1], addresses) + (if HasAddress(addresses, s) then [] else [s])
  }

  method PlanSources(added: seq<string>, dropped: seq<string>, addresses: Addresses)
    returns (r: seq<Action>, missing: seq<string>)
    ensures r == AddActions(added, addresses) + RemoveActions(dropped, addresses)
    ensures missing == Missing(added, addresses) + Missing(dropped, addresses)
  {
    r, missing := [], [];
    for i := 0 to |added|
      invariant r == AddActions(added[..i], addresses)
      invariant missing == Missing(added[..i], addresses)
    {
      assert added[..i + 1][..i] == added[..i];
      if added[i] !in addresses || addresses[added[i]] == "" {
        missing := missing + [added[i]];
      } else {
        r := r + [AddSource(addresses[added[i]], added[i])];
      }
    }
    assert added[..|added|] == added;
    ghost var head, gaps := r, missing;
    for i := 0 to |dropped|
      invariant r == head + RemoveActions(dropped[..i], addresses)
      invariant missing == gaps + Missing(dropped[..i], addresses)
    {
      assert dropped[..i + 1][..i] == dropped[..i];
      if dropped[i] !in addresses || addresses[dropped[i]] == "" {
        missing := missing + [dropped[i]];
      } else {
        r := r + [RemoveSource(addresses[dropped[i]])];
      }
    }
    assert dropped[..|dropped|] == dropped;
  }

  // ── The deviation threshold ───────────────────────────────────────────────

  function EnabledBps(feeds: seq<FeedPolicy>): (r: seq<int>)
    ensures forall t :: t in r <==> exists i :: 0 <= i < |feeds| && feeds[i].enabled && feeds[i].maxDeviationBps == t
  {
    if feeds == [] then [] else
      var n := |feeds| - 1;
      EnabledBps(feeds[..n]) + (if feeds[n].enabled then [feeds[n].maxDeviationBps] else [])
  }

  /** The distinct thresholds of the enabled feeds, in the order they first appear. */
  function Thresholds(feeds: seq<FeedPolicy>): (r: seq<int>) {
    Dedupe(EnabledBps(feeds))
  }

  /** Some feed is enabled and every enabled feed uses threshold `t`. */
  ghost predicate Shared(feeds: seq<FeedPolicy>, t: int) {
    (exists i :: 0 <= i < |feeds| && feeds[i].enabled) &&
    forall i :: 0 <= i < |feeds| && feeds[i].enabled ==> feeds[i].maxDeviationBps == t
  }

  lemma SharedExact(feeds: seq<FeedPolicy>, t: int)
    ensures Thresholds(feeds) == [t] <==> Shared(feeds, t)
    ensures |Thresholds(feeds)| == 1 ==> Shared(feeds, Thresholds(feeds)[0])
  {
    hide EnabledBps, Dedupe;
    var ts := Thresholds(feeds);
    assert forall u :: u in ts <==> exists i :: 0 <= i < |feeds| && feeds[i].enabled && feeds[i].maxDeviationBps == u;
    SharedList(feeds, ts, t);
    if |ts| == 1 {
      assert ts == [ts[0]];
      SharedList(feeds, ts, ts[0]);
    }
  }

  lemma TwoDiffer(ts: seq<int>)
    requires NoDuplicates(ts) && |ts| > 1
    ensures ts[0] != ts[1]
  {
  }

  lemma OneValue(ts: seq<int>, t: int)
    requires NoDuplicates(ts) && t in ts && forall k :: 0 <= k < |ts| ==> ts[k] == t
    ensures ts == [t]
  {
    if |ts| > 1 {
      TwoDiffer(ts);
      assert false;
    }
  }

  lemma SharedList(feeds: seq<FeedPolicy>, ts: seq<int>, t: int)
    requires NoDuplicates(ts)
    requires forall u :: u in ts <==> exists i :: 0 <= i < |feeds| && feeds[i].enabled && feeds[i].maxDeviationBps == u
    ensures ts == [t] <==> Shared(feeds, t)
  {
    if ts == [t] {
      assert t in ts;
      forall i | 0 <= i < |feeds| && feeds[i].enabled ensures feeds[i].maxDeviationBps == t {
        assert feeds[i].maxDeviationBps in ts;
      }
    }
    if Shared(feeds, t) {
      var i :| 0 <= i < |feeds| && feeds[i].enabled;
      assert feeds[i].maxDeviationBps in ts;
      assert forall k :: 0 <= k < |ts| ==> ts[k] in ts;
      OneValue(ts, t);
    }
  }

  function ThresholdActions(before: seq<int>, after: seq<int>): (r: seq<Action>) {
    if |after| == 1 && (|before| != 1 || after[0] !in before) then [SetDeviationThreshold(after[0])] else []
  }

  // ── The plan ──────────────────────────────────────────────────────────────

  function ActionName(a: Action): string {
    match a
    case SetTrustedAsset(_, _) => "SetTrustedAsset"
    case AddSource(_, _) => "AddSource"
    case RemoveSource(_) => "RemoveSource"
    case SetDeviationThreshold(_) => "SetDeviationThreshold"
  }

  function ParamsJson(a: Action): Json {
    match a
    case SetTrustedAsset(asset, trusted) => Obj([Entry("asset", Str(asset)), Entry("trusted", Bool(trusted))])
    case AddSource(source, name) => Obj([Entry("source", Str(source)), Entry("name", Str(name))])
    case RemoveSource(source) => Obj([Entry("source", Str(source))])
    case SetDeviationThreshold(t) => Obj([Entry("thresholdBps", Num(t))])
  }

  function ActionKey(a: Action): string {
    ActionName(a) + ":" + Canonical(ParamsJson(a))
  }

  function ActionJson(a: Action): Json {
    Obj([Entry("action", Str(ActionName(a))), Entry("params", ParamsJson(a))])
  }

  function PlanDigest(actions: seq<Action>, offChain: seq<string>): Digest {
    Sha256(Canonical(Obj([
      Entry("actions", Arr(seq(|actions|, i requires 0 <= i < |actions| => ActionJson(actions[i])))),
      Entry("offChainParameters", SourcesJson(offChain))])))
  }

  predicate MinSourcesMoved(before: Catalog, after: seq<FeedPolicy>) {
    exists i :: 0 <= i < |after| && (after[i].asset !in before || before[after[i].asset].minSources != after[i].minSources)
  }

  predicate StalenessMoved(before: Catalog, after: seq<FeedPolicy>) {
    exists i :: 0 <= i < |after|
      && (after[i].asset !in before || before[after[i].asset].stalenessSeconds != after[i].stalenessSeconds)
  }

  function OffChain(before: seq<FeedPolicy>, after: seq<FeedPolicy>): seq<string> {
    SortedUnique(
      (if |Thresholds(after)| > 1 then ["maxDeviationBps (per feed)"] else [])
      + (if MinSourcesMoved(Index(before), after) then ["minSources"] else [])
      + (if StalenessMoved(Index(before), after) then ["stalenessSeconds"] else []))
  }

  /** Every action, before it is sorted. */
  function Actions(before: seq<FeedPolicy>, after: seq<FeedPolicy>, addresses: Addresses): seq<Action> {
    var b, a := Index(before), Index(after);
    TrustActions(b, a, Listing(a.Keys)) + TrustActions(b, a, Listing(b.Keys - a.Keys))
    + AddActions(Listing(EnabledSources(after) - EnabledSources(before)), addresses)
    + RemoveActions(Listing(EnabledSources(before) - EnabledSources(after)), addresses)
    + ThresholdActions(Thresholds(before), Thresholds(after))
  }

  function MissingAddresses(before: seq<FeedPolicy>, after: seq<FeedPolicy>, addresses: Addresses): seq<string> {
    Sort(Missing(Listing(EnabledSources(after) - EnabledSources(before)), addresses)
         + Missing(Listing(EnabledSources(before) - EnabledSources(after)), addresses), Self)
  }

  function Plan(before: seq<FeedPolicy>, after: seq<FeedPolicy>, addresses: Addresses): (r: OnChainPlan) {
    var actions := Sort(Actions(before, after, addresses), ActionKey);
    var offChain := OffChain(before, after);
    OnChainPlan(actions, offChain, MissingAddresses(before, after, addresses), PlanDigest(actions, offChain))
  }

  method BuildOnChainPlan(current: CatalogPolicy, nextFeeds: seq<FeedPolicy>, addresses: Addresses) returns (r: OnChainPlan)
    ensures r == Plan(current.feeds, nextFeeds, addresses)
  {
    hide Listing, AddActions, RemoveActions, TrustActions, ThresholdActions, Sort, Index, Missing, OffChain, PlanDigest;
    var before := IndexFeeds(current.feeds);
    var after := IndexFeeds(nextFeeds);
    var kept := PlanKept(before, after);
    var gone := PlanGone(before, after);
    var was, now := EnabledSources(current.feeds), EnabledSources(nextFeeds);
    var sources, missing := PlanSources(Listing(now - was), Listing(was - now), addresses);
    var actions := (kept + gone) + sources + ThresholdActions(Thresholds(current.feeds), Thresholds(nextFeeds));
    Regroup(kept, gone, AddActions(Listing(now - was), addresses), RemoveActions(Listing(was - now), addresses),
            ThresholdActions(Thresholds(current.feeds), Thresholds(nextFeeds)));
    var sorted := Sort(actions, ActionKey);
    var offChain := OffChain(current.feeds, nextFeeds);
    r := OnChainPlan(sorted, offChain, Sort(missing, Self), PlanDigest(sorted, offChain));
  }

  lemma Regroup(a: seq<Action>, b: seq<Action>, c: seq<Action>, d: seq<Action>, e: seq<Action>)
    ensures (a + b) + (c + d) + e == a + b + c + d + e
  {
  }

  // ── Which actions a plan holds ────────────────────────────────────────────

  lemma {:induction false} TrustActionsExact(b: Catalog, a: Catalog, keys: seq<string>, x: Action)
    ensures x in TrustActions(b, a, keys) <==>
      && x.SetTrustedAsset? && x.asset in keys
      && (if x.trusted then TrustGained(b, a, x.asset) else TrustLost(b, a, x.asset))
  {
    if keys != [] {
      var n := |keys| - 1;
      TrustActionsExact(b, a, keys[..n], x);
      assert keys == keys[..n] + [keys[n]];
    }
  }

  lemma {:induction false} AddActionsExact(sources: seq<string>, addresses: Addresses, x: Action)
    ensures x in AddActions(sources, addresses) <==>
      x.AddSource? && x.name in sources && HasAddress(addresses, x.name) && x.source == addresses[x.name]
  {
    if sources != [] {
      var n := |sources| - 1;
      AddActionsExact(sources[..n], addresses, x);
      assert sources == sources[..n] + [sources[n]];
    }
  }

  lemma {:induction false} RemoveActionsExact(sources: seq<string>, addresses: Addresses, x: Action)
    ensures x in RemoveActions(sources, addresses) <==>
      x.RemoveSource? && exists s :: s in sources && HasAddress(addresses, s) && x.source == addresses[s]
  {
    if sources != [] {
      var n := |sources| - 1;
      RemoveActionsExact(sources[..n], addresses, x);
      assert sources == sources[..n] + [sources[n]];
    }
  }

  lemma {:induction false} MissingExact(sources: seq<string>, addresses: Addresses)
    ensures Missing(sources, addresses) == [] <==> forall s :: s in sources ==> HasAddress(addresses, s)
  {
    if sources != [] {
      var n := |sources| - 1;
      MissingExact(sources[..n], addresses);
      assert sources == sources[..n] + [sources[n]];
    }
  }

  /** What it takes for an action to be part of a plan. */
  ghost predicate Planned(before: seq<FeedPolicy>, after: seq<FeedPolicy>, addresses: Addresses, x: Action) {
    match x
    case SetTrustedAsset(k, true) => TrustGained(Index(before), Index(after), k)
    case SetTrustedAsset(k, false) => TrustLost(Index(before), Index(after), k)
    case AddSource(address, s) =>
      s in EnabledSources(after) - EnabledSources(before) && HasAddress(addresses, s) && address == addresses[s]
    case RemoveSource(address) =>
      exists s :: s in EnabledSources(before) - EnabledSources(after) && HasAddress(addresses, s) && address == addresses[s]
    case SetDeviationThreshold(t) => Shared(after, t) && !Shared(before, t)
  }

  lemma ThresholdActionsExact(before: seq<FeedPolicy>, after: seq<FeedPolicy>, x: Action)
    ensures x in ThresholdActions(Thresholds(before), Thresholds(after)) <==>
      x.SetDeviationThreshold? && Shared(after, x.thresholdBps) && !Shared(before, x.thresholdBps)
  {
    hide Thresholds, Shared;
    if x.SetDeviationThreshold? {
      SharedExact(before, x.thresholdBps);
      SharedExact(after, x.thresholdBps);
    }
  }

  lemma TrustPlanned(b: Catalog, a: Catalog, x: Action)
    ensures x in TrustActions(b, a, Listing(a.Keys)) + TrustActions(b, a, Listing(b.Keys - a.Keys)) <==>
      x.SetTrustedAsset? && (if x.trusted then TrustGained(b, a, x.asset) else TrustLost(b, a, x.asset))
  {
    hide TrustActions, Listing;
    TrustActionsExact(b, a, Listing(a.Keys), x);
    TrustActionsExact(b, a, Listing(b.Keys - a.Keys), x);
  }

  /** The plan holds exactly the planned actions. */
  lemma PlanExact(before: seq<FeedPolicy>, after: seq<FeedPolicy>, addresses: Addresses, x: Action)
    ensures x in Plan(before, after, addresses).actions <==> Planned(before, after, addresses, x)
  {
    hide TrustActions, AddActions, RemoveActions, ThresholdActions, Listing, Sort, Index, TrustGained, TrustLost;
    hide EnabledSources, Thresholds, Shared, OffChain, PlanDigest, MissingAddresses;
    SortCorrect(Actions(before, after, addresses), ActionKey);
    TrustPlanned(Index(before), Index(after), x);
    AddActionsExact(Listing(EnabledSources(after) - EnabledSources(before)), addresses, x);
    RemoveActionsExact(Listing(EnabledSources(before) - EnabledSources(after)), addresses, x);
    ThresholdActionsExact(before, after, x);
  }

  /** No address is missing exactly when every provider that comes or goes has one. */
  lemma NoMissingExact(before: seq<FeedPolicy>, after: seq<FeedPolicy>, addresses: Addresses)
    ensures Plan(before, after, addresses).missingSourceAddresses == [] <==>
      forall s :: s in EnabledSources(before) + EnabledSources(after) && !(s in EnabledSources(before) && s in EnabledSources(after))
        ==> HasAddress(addresses, s)
  {
    var up, down := Listing(EnabledSources(after) - EnabledSources(before)), Listing(EnabledSources(before) - EnabledSources(after));
    SortCorrect(Missing(up, addresses) + Missing(down, addresses), Self);
    MissingExact(up, addresses);
    MissingExact(down, addresses);
  }
}
