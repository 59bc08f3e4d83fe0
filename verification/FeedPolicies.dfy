/** Feed policies, catalog policies and changes, their normal form, and the feed list a change
    produces. */
module FeedPolicies {
  import opened Wrappers
  import opened Text
  import opened Ordering

  datatype FreshnessProfile = Realtime | Standard | Delayed

  datatype Currency = USD | EUR | GBP | JPY | CHF | CAD | AUD

  datatype Rounding = HalfUp | HalfEven | Down

  datatype QuoteUnit = QuoteUnit(
    currency: Currency,
    denomination: string,
    scaleDecimals: int,
    displayDecimals: int,
    rounding: Rounding)

  datatype FeedPolicy = FeedPolicy(
    asset: string,
    sources: seq<string>,
    minSources: int,
    maxDeviationBps: int,
    stalenessSeconds: int,
    freshnessProfile: Option<FreshnessProfile>,
    freshnessWarnSeconds: Option<int>,
    quoteUnit: Option<QuoteUnit>,
    enabled: bool)

  /** `activatedAt` is in milliseconds; the genesis policy has no proposal. */
  datatype CatalogPolicy = CatalogPolicy(
    version: int,
    activatedAt: int,
    proposalId: Option<int>,
    feeds: seq<FeedPolicy>)

  datatype ChangeKind = Ordinary | Rollback

  datatype CatalogChange = CatalogChange(
    baseVersion: int,
    kind: ChangeKind,
    upserts: seq<FeedPolicy>,
    removals: seq<string>)

  const DEFAULT_QUOTE_UNIT := QuoteUnit(USD, "USD_PER_ASSET_UNIT", 8, 4, HalfEven)

  function WarnSeconds(profile: FreshnessProfile): int {
    match profile
    case Realtime => 10
    case Standard => 60
    case Delayed => 300
  }

  const FRESHNESS_ASSIGNMENTS: map<string, FreshnessProfile> :=
    map["XLM" := Standard, "USDC" := Standard, "BTC" := Standard, "ETH" := Standard, "USDT" := Standard]

  function CurrencyCode(c: Currency): string {
    match c
    case USD => "USD"
    case EUR => "EUR"
    case GBP => "GBP"
    case JPY => "JPY"
    case CHF => "CHF"
    case CAD => "CAD"
    case AUD => "AUD"
  }

  // ── Normal form ───────────────────────────────────────────────────────────

  function NormalizeSources(sources: seq<string>): (r: seq<string>) {
    SortedUnique(seq(|sources|, i requires 0 <= i < |sources| => NormalizeSource(sources[i])))
  }

  function DefaultProfile(asset: string): FreshnessProfile {
    if asset in FRESHNESS_ASSIGNMENTS then FRESHNESS_ASSIGNMENTS[asset] else Standard
  }

  function NormalizeFeed(feed: FeedPolicy): (r: FeedPolicy) {
    var asset := NormalizeAsset(feed.asset);
    var profile := if feed.freshnessProfile.Some? then feed.freshnessProfile.value else DefaultProfile(asset);
    var warn := if feed.freshnessWarnSeconds.Some? then feed.freshnessWarnSeconds.value
                else Min(WarnSeconds(profile), feed.stalenessSeconds - 1);
    var quote := if feed.quoteUnit.Some? then feed.quoteUnit.value else DEFAULT_QUOTE_UNIT;
    FeedPolicy(asset, NormalizeSources(feed.sources), feed.minSources, feed.maxDeviationBps,
               feed.stalenessSeconds, Some(profile), Some(warn), Some(quote), feed.enabled)
  }

  function FeedAsset(feed: FeedPolicy): string { feed.asset }

  function NormalizeFeeds(feeds: seq<FeedPolicy>): (r: seq<FeedPolicy>)
    ensures |r| == |feeds|
    ensures forall i :: 0 <= i < |feeds| ==> r[i] == NormalizeFeed(feeds[i])
  {
    seq(|feeds|, i requires 0 <= i < |feeds| => NormalizeFeed(feeds[i]))
  }

  function NormalizeAssets(assets: seq<string>): (r: seq<string>)
    ensures |r| == |assets|
    ensures forall i :: 0 <= i < |assets| ==> r[i] == NormalizeAsset(assets[i])
  {
    seq(|assets|, i requires 0 <= i < |assets| => NormalizeAsset(assets[i]))
  }

  function NormalizeChange(change: CatalogChange): (r: CatalogChange) {
    CatalogChange(
      change.baseVersion,
      change.kind,
      Sort(NormalizeFeeds(change.upserts), FeedAsset),
      SortedUnique(NormalizeAssets(change.removals)))
  }

  /** A feed in normal form: every optional field filled in, names in canonical case, providers
      listed once in order. */
  ghost predicate NormalFeed(feed: FeedPolicy) {
    && NormalizeAsset(feed.asset) == feed.asset
    && StrictlySortedBy(feed.sources, Self)
    && (forall s :: s in feed.sources ==> NormalizeSource(s) == s)
    && feed.freshnessProfile.Some? && feed.freshnessWarnSeconds.Some? && feed.quoteUnit.Some?
  }

  ghost predicate NormalFeeds(feeds: seq<FeedPolicy>) {
    forall f :: f in feeds ==> NormalFeed(f)
  }

  ghost predicate NormalChange(change: CatalogChange) {
    && NormalFeeds(change.upserts) && SortedBy(change.upserts, FeedAsset)
    && StrictlySortedBy(change.removals, Self)
    && forall a :: a in change.removals ==> NormalizeAsset(a) == a
  }

  lemma NormalizeSourcesNormal(sources: seq<string>)
    ensures StrictlySortedBy(NormalizeSources(sources), Self)
    ensures forall s :: s in NormalizeSources(sources) ==> NormalizeSource(s) == s
  {
    var raw := seq(|sources|, i requires 0 <= i < |sources| => NormalizeSource(sources[i]));
    forall s | s in NormalizeSources(sources) ensures NormalizeSource(s) == s {
      assert s in raw;
      var i :| 0 <= i < |raw| && raw[i] == s;
      NormalizeIdempotent(sources[i]);
    }
  }

  lemma NormalSourcesFixed(sources: seq<string>)
    requires StrictlySortedBy(sources, Self)
    requires forall s :: s in sources ==> NormalizeSource(s) == s
    ensures NormalizeSources(sources) == sources
  {
    var raw := seq(|sources|, i requires 0 <= i < |sources| => NormalizeSource(sources[i]));
    forall i | 0 <= i < |sources| ensures raw[i] == sources[i] { assert sources[i] in sources; }
    assert raw == sources;
  }

  lemma NormalizeFeedNormal(feed: FeedPolicy)
    ensures NormalFeed(NormalizeFeed(feed))
  {
    NormalizeIdempotent(feed.asset);
    NormalizeSourcesNormal(feed.sources);
  }

  lemma NormalFeedFixed(feed: FeedPolicy)
    requires NormalFeed(feed)
    ensures NormalizeFeed(feed) == feed
  {
    NormalSourcesFixed(feed.sources);
  }

  lemma NormalizeFeedsNormal(feeds: seq<FeedPolicy>)
    ensures NormalFeeds(Sort(NormalizeFeeds(feeds), FeedAsset))
    ensures SortedBy(Sort(NormalizeFeeds(feeds), FeedAsset), FeedAsset)
  {
    hide NormalFeed, NormalizeFeed, Sort;
    var ns := NormalizeFeeds(feeds);
    SortCorrect(ns, FeedAsset);
    forall f | f in Sort(ns, FeedAsset) ensures NormalFeed(f) {
      var i :| 0 <= i < |ns| && ns[i] == f;
      NormalizeFeedNormal(feeds[i]);
    }
  }

  lemma NormalizeAssetsNormal(assets: seq<string>)
    ensures StrictlySortedBy(SortedUnique(NormalizeAssets(assets)), Self)
    ensures forall a :: a in SortedUnique(NormalizeAssets(assets)) ==> NormalizeAsset(a) == a
  {
    hide NormalizeAsset, SortedUnique;
    var ns := NormalizeAssets(assets);
    forall a | a in SortedUnique(ns) ensures NormalizeAsset(a) == a {
      assert a in ns;
      var i :| 0 <= i < |ns| && ns[i] == a;
      NormalizeIdempotent(assets[i]);
    }
  }

  lemma NormalizeChangeNormal(change: CatalogChange)
    ensures NormalChange(NormalizeChange(change))
  {
    hide NormalFeeds, NormalizeFeeds, NormalizeAssets, NormalizeAsset, Sort, SortedUnique, SortedBy, StrictlySortedBy;
    NormalizeFeedsNormal(change.upserts);
    NormalizeAssetsNormal(change.removals);
  }

  lemma NormalFeedsFixed(feeds: seq<FeedPolicy>)
    requires NormalFeeds(feeds)
    ensures NormalizeFeeds(feeds) == feeds
  {
    forall i | 0 <= i < |feeds| ensures NormalizeFeeds(feeds)[i] == feeds[i] { NormalFeedFixed(feeds[i]); }
  }

  lemma NormalChangeFixed(change: CatalogChange)
    requires NormalChange(change)
    ensures NormalizeChange(change) == change
  {
    NormalFeedsFixed(change.upserts);
    SortIdentity(change.upserts, FeedAsset);
    assert NormalizeAssets(change.removals) == change.removals;
  }

  /** A change normalised when it is proposed is not altered when it is normalised again at
      validation and activation. */
  lemma NormalizeChangeIdempotent(change: CatalogChange)
    ensures NormalizeChange(NormalizeChange(change)) == NormalizeChange(change)
  {
    NormalizeChangeNormal(change);
    NormalChangeFixed(NormalizeChange(change));
  }

  // ── Feed lists and the maps they stand for ────────────────────────────────

  type Catalog = map<string, FeedPolicy>

  ghost predicate WellKeyed(m: Catalog) {
    forall k :: k in m ==> m[k].asset == k
  }

  /** `new Map(feeds.map((feed) => [feed.asset, feed]))`: a later entry replaces an earlier one. */
  function Index(feeds: seq<FeedPolicy>): (m: Catalog)
    ensures WellKeyed(m)
    ensures forall f :: f in feeds ==> f.asset in m
    ensures forall k :: k in m ==> m[k] in feeds
  {
    if feeds == [] then map[] else
      var n := |feeds| - 1;
      assert feeds == feeds[..n] + [feeds[n]];
      Index(feeds[..n])[feeds[n].asset := feeds[n]]
  }

  /** The feeds of a map, ordered by asset. */
  function FeedList(m: Catalog): (r: seq<FeedPolicy>)
    requires WellKeyed(m)
    ensures StrictlySortedBy(r, FeedAsset)
    ensures forall f :: f in r <==> f.asset in m && m[f.asset] == f
    ensures |r| == |m|
  {
    var ks := Listing(m.Keys);
    assert forall i :: 0 <= i < |ks| ==> ks[i] in m;
    var r := seq(|ks|, i requires 0 <= i < |ks| => m[ks[i]]);
    ListedOrder(m, ks, r);
    ListedMembers(m, ks, r);
    r
  }

  lemma ListedOrder(m: Catalog, ks: seq<string>, r: seq<FeedPolicy>)
    requires WellKeyed(m) && |r| == |ks| && forall i :: 0 <= i < |ks| ==> ks[i] in m && r[i] == m[ks[i]]
    requires StrictlySortedBy(ks, Self)
    ensures StrictlySortedBy(r, FeedAsset)
  {
    hide Lt;
    forall i, j | 0 <= i < j < |r| ensures Lt(FeedAsset(r[i]), FeedAsset(r[j])) { assert Lt(Self(ks[i]), Self(ks[j])); }
  }

  lemma ListedMembers(m: Catalog, ks: seq<string>, r: seq<FeedPolicy>)
    requires WellKeyed(m) && |r| == |ks| && forall i :: 0 <= i < |ks| ==> ks[i] in m && r[i] == m[ks[i]]
    requires forall k :: k in m ==> k in ks
    ensures forall f :: f in r <==> f.asset in m && m[f.asset] == f
  {
    forall f: FeedPolicy | f.asset in m && m[f.asset] == f ensures f in r {
      var i :| 0 <= i < |ks| && ks[i] == f.asset;
      assert r[i] == f;
    }
  }

  ghost predicate OrderedFeeds(feeds: seq<FeedPolicy>) {
    StrictlySortedBy(feeds, FeedAsset)
  }

  /** In the order of the assets, which may repeat. */
  ghost predicate SortedFeeds(feeds: seq<FeedPolicy>) {
    SortedBy(feeds, FeedAsset)
  }

  lemma OrderedSorted(feeds: seq<FeedPolicy>)
    requires OrderedFeeds(feeds)
    ensures SortedFeeds(feeds)
  {
    hide Le;
  }

  /** In an ordered list every feed is found under its own asset. */
  lemma OrderedLookup(feeds: seq<FeedPolicy>, f: FeedPolicy)
    requires OrderedFeeds(feeds) && f in feeds
    ensures Index(feeds)[f.asset] == f
  {
    var g := Index(feeds)[f.asset];
    var i :| 0 <= i < |feeds| && feeds[i] == f;
    var j :| 0 <= j < |feeds| && feeds[j] == g;
  }

  lemma FeedListOfIndex(feeds: seq<FeedPolicy>)
    requires OrderedFeeds(feeds)
    ensures FeedList(Index(feeds)) == feeds
  {
    forall f ensures f in FeedList(Index(feeds)) <==> f in feeds {
      if f in feeds { OrderedLookup(feeds, f); }
    }
    StrictlySortedUnique(FeedList(Index(feeds)), feeds, FeedAsset);
  }

  // ── projectFeeds ──────────────────────────────────────────────────────────

  function Elements(s: seq<string>): (r: set<string>)
    ensures forall x :: x in r <==> x in s
  {
    set x | x in s
  }

  lemma ElementsPush(s: seq<string>, i: nat)
    requires i < |s|
    ensures Elements(s[..i + 1]) == Elements(s[..i]) + {s[i]}
  {
    assert s[..i + 1] == s[..i] + [s[i]];
  }

  lemma ElementsAll(s: seq<string>)
    ensures s[..|s|] == s && Elements(s[..|s|]) == Elements(s)
  {
  }

  /** The catalog after the change, as a map: removals first, then upserts. */
  function ProjectMap(feeds: seq<FeedPolicy>, change: CatalogChange): (m: Catalog)
    ensures WellKeyed(m)
  {
    (Index(feeds) - Elements(change.removals)) + Index(change.upserts)
  }

  /** The feed list the change produces. */
  function Project(feeds: seq<FeedPolicy>, change: CatalogChange): (r: seq<FeedPolicy>)
    ensures OrderedFeeds(r)
  {
    FeedList(ProjectMap(feeds, change))
  }

  method IndexFeeds(feeds: seq<FeedPolicy>) returns (m: Catalog)
    ensures m == Index(feeds)
  {
    m := map[];
    for i := 0 to |feeds|
      invariant m == Index(feeds[..i])
    {
      m := m[feeds[i].asset := feeds[i]];
      assert feeds[..i + 1][..i] == feeds[..i];
    }
    assert feeds[..|feeds|] == feeds;
  }

  method DeleteAll(m: Catalog, assets: seq<string>) returns (r: Catalog)
    ensures r == m - Elements(assets)
  {
    r := m;
    for i := 0 to |assets|
      invariant r == m - Elements(assets[..i])
    {
      r := r - {assets[i]};
      ElementsPush(assets, i);
    }
    assert assets[..|assets|] == assets;
  }

  method SetAll(m: Catalog, feeds: seq<FeedPolicy>) returns (r: Catalog)
    ensures r == m + Index(feeds)
  {
    r := m;
    for i := 0 to |feeds|
      invariant r == m + Index(feeds[..i])
    {
      UnionUpdate(m, Index(feeds[..i]), feeds[i]);
      r := r[feeds[i].asset := feeds[i]];
      assert feeds[..i + 1][..i] == feeds[..i];
    }
    assert feeds[..|feeds|] == feeds;
  }

  lemma UnionUpdate(m: Catalog, n: Catalog, feed: FeedPolicy)
    ensures (m + n)[feed.asset := feed] == m + n[feed.asset := feed]
  {
  }

  method ProjectFeeds(current: CatalogPolicy, change: CatalogChange) returns (r: seq<FeedPolicy>)
    ensures r == Project(current.feeds, change)
  {
    var feeds := IndexFeeds(current.feeds);
    feeds := DeleteAll(feeds, change.removals);
    feeds := SetAll(feeds, change.upserts);
    r := FeedList(feeds);
  }

  /** Only feeds of the old list and of the change appear in the new one. */
  lemma ProjectMembers(feeds: seq<FeedPolicy>, change: CatalogChange, f: FeedPolicy)
    requires f in Project(feeds, change)
    ensures f in feeds || f in change.upserts
  {
  }

  lemma ProjectNormal(feeds: seq<FeedPolicy>, change: CatalogChange)
    requires NormalFeeds(feeds) && NormalFeeds(change.upserts)
    ensures NormalFeeds(Project(feeds, change))
  {
    forall f | f in Project(feeds, change) ensures NormalFeed(f) { ProjectMembers(feeds, change, f); }
  }
}
