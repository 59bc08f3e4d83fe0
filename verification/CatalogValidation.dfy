/** Guard rails: which changes are accepted against a live policy, and which are high impact. */
module CatalogValidation {
  import opened Wrappers
  import opened Ordering
  import opened FeedPolicies
  import opened CatalogDiffs

  const CATALOG_SOURCES: set<string> := {"chainlink", "redstone", "band", "reflector"}
  const MIN_SOURCE_COUNT := 2
  const MIN_DEVIATION_BPS := 10
  const MAX_DEVIATION_BPS := 2000
  const MIN_STALENESS_SECONDS := 10
  const MAX_STALENESS_SECONDS := 3600
  const MAX_FEEDS_PER_CHANGE := 100

  datatype Code =
    | StaleBaseVersion | EmptyChange | TooManyChanges | DuplicateAsset | ConflictingChange | UnknownFeed
    | EmptyCatalog | NoEnabledFeeds | NoOpChange
    | InvalidAsset | UnknownSource | InsufficientSources | MinSourcesBelowFloor | MinSourcesExceedsSources
    | DeviationOutOfBounds | StalenessOutOfBounds | FreshnessWarningOutOfBounds
    | InvalidQuoteUnit | InvalidQuoteScale
    | FeedDisabled | FeedEnabled | DeviationLoosened | StalenessLoosened | FreshnessProfileChanged
    | MinSourcesReduced | SourceSetReduced | QuoteScaleChanged

  predicate IsWarning(code: Code) {
    code in {FeedDisabled, FeedEnabled, DeviationLoosened, StalenessLoosened, FreshnessProfileChanged,
             MinSourcesReduced, SourceSetReduced, QuoteScaleChanged}
  }

  datatype Finding = Finding(code: Code, asset: Option<string>) {
    predicate IsError() { !IsWarning(code) }
  }

  datatype Validation = Validation(
    findings: seq<Finding>,
    errors: seq<Finding>,
    diff: CatalogDiff,
    highImpact: bool,
    nextFeeds: seq<FeedPolicy>)

  function Errors(findings: seq<Finding>): (r: seq<Finding>)
    ensures r == [] <==> NoErrors(findings)
  {
    if findings == [] then [] else
      var n := |findings| - 1;
      assert findings == findings[..n] + [findings[n]];
      if findings[n].IsError() then Errors(findings[..n]) + [findings[n]] else Errors(findings[..n])
  }

  ghost predicate NoErrors(findings: seq<Finding>) {
    forall f :: f in findings ==> !f.IsError()
  }

  function When(condition: bool, code: Code, asset: Option<string>): (r: seq<Finding>) {
    if condition then [Finding(code, asset)] else []
  }

  // ── One feed ──────────────────────────────────────────────────────────────

  predicate ValidTicker(asset: string) {
    2 <= |asset| <= 12 && forall i :: 0 <= i < |asset| ==> 'A' <= asset[i] <= 'Z' || '0' <= asset[i] <= '9'
  }

  function Quote(feed: FeedPolicy): QuoteUnit {
    if feed.quoteUnit.Some? then feed.quoteUnit.value else DEFAULT_QUOTE_UNIT
  }

  predicate ScaleInRange(q: QuoteUnit) { 0 <= q.scaleDecimals <= 18 }

  predicate DisplayInRange(q: QuoteUnit) { 0 <= q.displayDecimals <= 12 && q.displayDecimals <= q.scaleDecimals }

  predicate DenominationMatches(q: QuoteUnit) { q.denomination == CurrencyCode(q.currency) + "_PER_ASSET_UNIT" }

  predicate WarnInRange(feed: FeedPolicy) {
    feed.freshnessWarnSeconds.Some? && 1 <= feed.freshnessWarnSeconds.value < feed.stalenessSeconds
  }

  function UnknownSources(sources: seq<string>, asset: string): (r: seq<Finding>) {
    if sources == [] then [] else
      UnknownSources(sources[..|sources| - 1], asset)
      + When(sources[|sources| - 1] !in CATALOG_SOURCES, UnknownSource, Some(asset))
  }

  function QuoteFindings(q: QuoteUnit, asset: string): (r: seq<Finding>) {
    When(!DenominationMatches(q), InvalidQuoteUnit, Some(asset))
    + When(!ScaleInRange(q), InvalidQuoteScale, Some(asset))
    + When(!DisplayInRange(q), InvalidQuoteScale, Some(asset))
  }

  function BoundFindings(feed: FeedPolicy): (r: seq<Finding>) {
    var a := Some(feed.asset);
    When(|feed.sources| < MIN_SOURCE_COUNT, InsufficientSources, a)
    + When(feed.minSources < MIN_SOURCE_COUNT, MinSourcesBelowFloor, a)
    + When(feed.minSources > |feed.sources|, MinSourcesExceedsSources, a)
    + When(!(MIN_DEVIATION_BPS <= feed.maxDeviationBps <= MAX_DEVIATION_BPS), DeviationOutOfBounds, a)
    + When(!(MIN_STALENESS_SECONDS <= feed.stalenessSeconds <= MAX_STALENESS_SECONDS), StalenessOutOfBounds, a)
    + When(!WarnInRange(feed), FreshnessWarningOutOfBounds, a)
  }

  function FeedFindings(feed: FeedPolicy): (r: seq<Finding>) {
    When(!ValidTicker(feed.asset), InvalidAsset, Some(feed.asset))
    + UnknownSources(feed.sources, feed.asset)
    + BoundFindings(feed)
    + QuoteFindings(Quote(feed), feed.asset)
  }

  /** The published guard rails, in the fields of the feed. */
  predicate GuardRails(feed: FeedPolicy) {
    && 2 <= |feed.asset| <= 12
    && (forall i :: 0 <= i < |feed.asset| ==> 'A' <= feed.asset[i] <= 'Z' || '0' <= feed.asset[i] <= '9')
    && (forall i :: 0 <= i < |feed.sources| ==> feed.sources[i] in {"chainlink", "redstone", "band", "reflector"})
    && 2 <= feed.minSources <= |feed.sources|
    && 10 <= feed.maxDeviationBps <= 2000
    && 10 <= feed.stalenessSeconds <= 3600
    && feed.freshnessWarnSeconds.Some? && 1 <= feed.freshnessWarnSeconds.value < feed.stalenessSeconds
    && (feed.quoteUnit.Some? ==>
          && feed.quoteUnit.value.denomination == PerAssetUnit(feed.quoteUnit.value.currency)
          && 0 <= feed.quoteUnit.value.scaleDecimals <= 18
          && 0 <= feed.quoteUnit.value.displayDecimals <= 12
          && feed.quoteUnit.value.displayDecimals <= feed.quoteUnit.value.scaleDecimals)
  }

  /** The denomination that goes with each currency. */
  function PerAssetUnit(c: Currency): string {
    match c
    case USD => "USD_PER_ASSET_UNIT"
    case EUR => "EUR_PER_ASSET_UNIT"
    case GBP => "GBP_PER_ASSET_UNIT"
    case JPY => "JPY_PER_ASSET_UNIT"
    case CHF => "CHF_PER_ASSET_UNIT"
    case CAD => "CAD_PER_ASSET_UNIT"
    case AUD => "AUD_PER_ASSET_UNIT"
  }

  lemma DenominationNames(c: Currency)
    ensures CurrencyCode(c) + "_PER_ASSET_UNIT" == PerAssetUnit(c)
  {
  }

  lemma QuoteRails(feed: FeedPolicy)
    ensures DenominationMatches(Quote(feed)) && ScaleInRange(Quote(feed)) && DisplayInRange(Quote(feed)) <==>
      (feed.quoteUnit.Some? ==>
        && feed.quoteUnit.value.denomination == PerAssetUnit(feed.quoteUnit.value.currency)
        && 0 <= feed.quoteUnit.value.scaleDecimals <= 18
        && 0 <= feed.quoteUnit.value.displayDecimals <= 12
        && feed.quoteUnit.value.displayDecimals <= feed.quoteUnit.value.scaleDecimals)
  {
    hide CurrencyCode, PerAssetUnit;
    DenominationNames(Quote(feed).currency);
    if feed.quoteUnit.None? { DefaultDenomination(); }
  }

  lemma DefaultDenomination()
    ensures PerAssetUnit(DEFAULT_QUOTE_UNIT.currency) == DEFAULT_QUOTE_UNIT.denomination
  {
  }

  lemma {:induction false} UnknownSourcesErrors(sources: seq<string>, asset: string)
    ensures forall f :: f in UnknownSources(sources, asset) ==> f.IsError()
    ensures UnknownSources(sources, asset) == [] <==> forall i :: 0 <= i < |sources| ==> sources[i] in CATALOG_SOURCES
  {
    if sources != [] {
      var n := |sources| - 1;
      UnknownSourcesErrors(sources[..n], asset);
      assert forall i :: 0 <= i < n ==> sources[..n][i] == sources[i];
    }
  }

  lemma QuoteFindingsErrors(q: QuoteUnit, asset: string)
    ensures forall f :: f in QuoteFindings(q, asset) ==> f.IsError()
    ensures QuoteFindings(q, asset) == [] <==> DenominationMatches(q) && ScaleInRange(q) && DisplayInRange(q)
  {
  }

  lemma BoundFindingsErrors(feed: FeedPolicy)
    ensures forall f :: f in BoundFindings(feed) ==> f.IsError()
    ensures BoundFindings(feed) == [] <==>
      && MIN_SOURCE_COUNT <= feed.minSources <= |feed.sources|
      && MIN_DEVIATION_BPS <= feed.maxDeviationBps <= MAX_DEVIATION_BPS
      && MIN_STALENESS_SECONDS <= feed.stalenessSeconds <= MAX_STALENESS_SECONDS
      && WarnInRange(feed)
  {
  }

  /** A feed draws no finding exactly when it meets every guard rail, and every finding it draws
      is an error. */
  lemma FeedFindingsExact(feed: FeedPolicy)
    ensures FeedFindings(feed) == [] <==> GuardRails(feed)
    ensures forall f :: f in FeedFindings(feed) ==> f.IsError()
  {
    hide DenominationMatches, ScaleInRange, DisplayInRange, Quote, PerAssetUnit, UnknownSources, QuoteFindings, BoundFindings;
    UnknownSourcesErrors(feed.sources, feed.asset);
    QuoteFindingsErrors(Quote(feed), feed.asset);
    QuoteRails(feed);
    BoundFindingsErrors(feed);
    NoFindings(When(!ValidTicker(feed.asset), InvalidAsset, Some(feed.asset)), UnknownSources(feed.sources, feed.asset),
               BoundFindings(feed), QuoteFindings(Quote(feed), feed.asset));
  }

  lemma NoFindings(a: seq<Finding>, b: seq<Finding>, c: seq<Finding>, d: seq<Finding>)
    ensures a + b + c + d == [] <==> a == [] && b == [] && c == [] && d == []
    ensures forall f :: f in a + b + c + d <==> f in a || f in b || f in c || f in d
  {
  }

  method CheckSources(feed: FeedPolicy, findings: seq<Finding>) returns (r: seq<Finding>)
    ensures r == findings + UnknownSources(feed.sources, feed.asset)
  {
    r := findings;
    for i := 0 to |feed.sources|
      invariant r == findings + UnknownSources(feed.sources[..i], feed.asset)
    {
      assert feed.sources[..i + 1][..i] == feed.sources[..i];
      if feed.sources[i] !in CATALOG_SOURCES {
        r := r + [Finding(UnknownSource, Some(feed.asset))];
      }
    }
    assert feed.sources[..|feed.sources|] == feed.sources;
  }

  method ValidateFeed(feed: FeedPolicy, findings: seq<Finding>) returns (r: seq<Finding>)
    ensures r == findings + FeedFindings(feed)
  {
    var head := When(!ValidTicker(feed.asset), InvalidAsset, Some(feed.asset));
    r := CheckSources(feed, findings + head);
    var bounds := BoundFindings(feed);
    var quotes := QuoteFindings(Quote(feed), feed.asset);
    Reassociate(findings, head, UnknownSources(feed.sources, feed.asset), bounds, quotes);
    r := r + bounds + quotes;
  }

  lemma Reassociate(a: seq<Finding>, b: seq<Finding>, c: seq<Finding>, d: seq<Finding>, e: seq<Finding>)
    ensures a + b + c + d + e == a + (b + c + d + e)
  {
  }

  // ── The whole change ──────────────────────────────────────────────────────

  function ShapeFindings(current: CatalogPolicy, change: CatalogChange): (r: seq<Finding>) {
    When(change.baseVersion != current.version, StaleBaseVersion, None)
    + When(|change.upserts| + |change.removals| == 0, EmptyChange, None)
    + When(|change.upserts| + |change.removals| > MAX_FEEDS_PER_CHANGE, TooManyChanges, None)
  }

  predicate SeenBefore(feeds: seq<FeedPolicy>, i: nat)
    requires i < |feeds|
  {
    exists j :: 0 <= j < i && feeds[j].asset == feeds[i].asset
  }

  function UpsertFindings(change: CatalogChange, i: nat): (r: seq<Finding>)
    requires i < |change.upserts|
  {
    var feed := change.upserts[i];
    When(SeenBefore(change.upserts, i), DuplicateAsset, Some(feed.asset))
    + When(feed.asset in change.removals, ConflictingChange, Some(feed.asset))
    + FeedFindings(feed)
  }

  function UpsertsFindings(change: CatalogChange, n: nat): (r: seq<Finding>)
    requires n <= |change.upserts|
  {
    if n == 0 then [] else UpsertsFindings(change, n - 1) + UpsertFindings(change, n - 1)
  }

  function RemovalsFindings(assets: set<string>, removals: seq<string>): (r: seq<Finding>) {
    if removals == [] then [] else
      RemovalsFindings(assets, removals[..|removals| - 1])
      + When(removals[|removals| - 1] !in assets, UnknownFeed, Some(removals[|removals| - 1]))
  }

  predicate SomeEnabled(feeds: seq<FeedPolicy>) {
    exists i :: 0 <= i < |feeds| && feeds[i].enabled
  }

  function OutcomeFindings(next: seq<FeedPolicy>, diff: CatalogDiff): (r: seq<Finding>) {
    When(next == [], EmptyCatalog, None)
    + When(!SomeEnabled(next), NoEnabledFeeds, None)
    + When(|diff.added| + |diff.removed| + |diff.modified| == 0, NoOpChange, None)
  }

  predicate Drops(before: seq<string>, after: seq<string>) {
    exists i :: 0 <= i < |before| && before[i] !in after
  }

  function RiskFindings(before: FeedPolicy, after: FeedPolicy): (r: seq<Finding>) {
    var a := Some(after.asset);
    When(before.enabled && !after.enabled, FeedDisabled, a)
    + When(!before.enabled && after.enabled, FeedEnabled, a)
    + When(after.maxDeviationBps > before.maxDeviationBps, DeviationLoosened, a)
    + When(after.stalenessSeconds > before.stalenessSeconds, StalenessLoosened, a)
    + When(after.freshnessProfile != before.freshnessProfile || Warn(after) > Warn(before), FreshnessProfileChanged, a)
    + When(after.minSources < before.minSources, MinSourcesReduced, a)
    + When(Drops(before.sources, after.sources) && after.enabled, SourceSetReduced, a)
    + When(QuoteMoves(Quote(before), Quote(after)), QuoteScaleChanged, a)
  }

  function Warn(feed: FeedPolicy): int {
    if feed.freshnessWarnSeconds.Some? then feed.freshnessWarnSeconds.value else 0
  }

  predicate QuoteMoves(before: QuoteUnit, after: QuoteUnit) {
    before.currency != after.currency || before.denomination != after.denomination || before.scaleDecimals != after.scaleDecimals
  }

  /** One feed is at most as loose as another, in the fields of the two: same switch, profile, currency,
      denomination and storage scale (eight decimals of a dollar where none is given), no wider bound, no
      lower minimum, and no provider lost while it publishes. */
  predicate NoLooser(before: FeedPolicy, after: FeedPolicy) {
    && after.asset == before.asset && after.enabled == before.enabled
    && after.maxDeviationBps <= before.maxDeviationBps
    && after.stalenessSeconds <= before.stalenessSeconds
    && after.freshnessProfile == before.freshnessProfile
    && (if after.freshnessWarnSeconds.Some? then after.freshnessWarnSeconds.value else 0)
       <= (if before.freshnessWarnSeconds.Some? then before.freshnessWarnSeconds.value else 0)
    && after.minSources >= before.minSources
    && (after.enabled ==> forall i :: 0 <= i < |before.sources| ==> before.sources[i] in after.sources)
    && SameScale(before.quoteUnit, after.quoteUnit)
  }

  predicate SameScale(before: Option<QuoteUnit>, after: Option<QuoteUnit>) {
    match (before, after)
    case (None, None) => true
    case (None, Some(q)) => q.currency == USD && q.denomination == "USD_PER_ASSET_UNIT" && q.scaleDecimals == 8
    case (Some(q), None) => q.currency == USD && q.denomination == "USD_PER_ASSET_UNIT" && q.scaleDecimals == 8
    case (Some(p), Some(q)) => p.currency == q.currency && p.denomination == q.denomination && p.scaleDecimals == q.scaleDecimals
  }

  /** Modifying a feed is flagged exactly when it becomes looser, and a flag is never an error. */
  lemma RiskExact(before: FeedPolicy, after: FeedPolicy)
    requires before.asset == after.asset
    ensures RiskFindings(before, after) == [] <==> NoLooser(before, after)
    ensures NoErrors(RiskFindings(before, after))
  {
  }

  function RisksFindings(before: Catalog, after: Catalog, assets: seq<string>): (r: seq<Finding>)
    requires forall k :: k in assets ==> k in before && k in after
  {
    if assets == [] then [] else
      var n := |assets| - 1;
      RisksFindings(before, after, assets[..n]) + RiskFindings(before[assets[n]], after[assets[n]])
  }

  function Findings(current: CatalogPolicy, change: CatalogChange, next: seq<FeedPolicy>): (r: seq<Finding>) {
    var diff := Diff(current.feeds, next);
    ShapeFindings(current, change)
    + UpsertsFindings(change, |change.upserts|)
    + RemovalsFindings(Index(current.feeds).Keys, change.removals)
    + OutcomeFindings(next, diff)
    + RisksFindings(Index(current.feeds), Index(next), diff.modified)
  }

  function HighImpact(change: CatalogChange, diff: CatalogDiff, risks: seq<Finding>): bool {
    change.kind == Rollback || |diff.added| > 0 || |diff.removed| > 0 || risks != []
  }

  function Validate(current: CatalogPolicy, raw: CatalogChange): (v: Validation) {
    var change := NormalizeChange(raw);
    var next := Project(current.feeds, change);
    var diff := Diff(current.feeds, next);
    var findings := Findings(current, change, next);
    Validation(findings, Errors(findings), diff,
               HighImpact(change, diff, RisksFindings(Index(current.feeds), Index(next), diff.modified)), next)
  }

  // ── The same, by loops ────────────────────────────────────────────────────

  method CheckUpserts(change: CatalogChange, findings: seq<Finding>) returns (r: seq<Finding>)
    ensures r == findings + UpsertsFindings(change, |change.upserts|)
  {
    hide FeedFindings;
    r := findings;
    var seen: set<string> := {};
    for i := 0 to |change.upserts|
      invariant r == findings + UpsertsFindings(change, i)
      invariant forall a :: a in seen <==> exists j :: 0 <= j < i && change.upserts[j].asset == a
    {
      var feed := change.upserts[i];
      if feed.asset in seen {
        r := r + [Finding(DuplicateAsset, Some(feed.asset))];
      }
      seen := seen + {feed.asset};
      if feed.asset in change.removals {
        r := r + [Finding(ConflictingChange, Some(feed.asset))];
      }
      r := ValidateFeed(feed, r);
      Grouped(findings, UpsertsFindings(change, i), When(SeenBefore(change.upserts, i), DuplicateAsset, Some(feed.asset)),
              When(feed.asset in change.removals, ConflictingChange, Some(feed.asset)), FeedFindings(feed));
    }
  }

  lemma Grouped(a: seq<Finding>, b: seq<Finding>, c: seq<Finding>, d: seq<Finding>, e: seq<Finding>)
    ensures a + b + c + d + e == a + (b + (c + d + e))
  {
  }

  method CheckRemovals(assets: set<string>, removals: seq<string>, findings: seq<Finding>) returns (r: seq<Finding>)
    ensures r == findings + RemovalsFindings(assets, removals)
  {
    r := findings;
    for i := 0 to |removals|
      invariant r == findings + RemovalsFindings(assets, removals[..i])
    {
      assert removals[..i + 1][..i] == removals[..i];
      if removals[i] !in assets {
        r := r + [Finding(UnknownFeed, Some(removals[i]))];
      }
    }
    assert removals[..|removals|] == removals;
  }

  method ClassifyRisks(before: Catalog, after: Catalog, assets: seq<string>, findings: seq<Finding>)
    returns (r: seq<Finding>, risky: bool)
    requires forall k :: k in assets ==> k in before && k in after
    ensures r == findings + RisksFindings(before, after, assets)
    ensures risky <==> RisksFindings(before, after, assets) != []
  {
    hide RiskFindings;
    r, risky := findings, false;
    for i := 0 to |assets|
      invariant r == findings + RisksFindings(before, after, assets[..i])
      invariant risky <==> RisksFindings(before, after, assets[..i]) != []
    {
      assert assets[..i + 1][..i] == assets[..i];
      var risks := RiskFindings(before[assets[i]], after[assets[i]]);
      if risks != [] {
        risky := true;
        r := r + risks;
      }
    }
    assert assets[..|assets|] == assets;
  }

  method ValidateCatalogChange(current: CatalogPolicy, rawChange: CatalogChange) returns (v: Validation)
    ensures v == Validate(current, rawChange)
  {
    hide ShapeFindings, UpsertsFindings, RemovalsFindings, OutcomeFindings, RisksFindings, Diff, Project, Index;
    hide NormalizeChange, Errors;
    var change := NormalizeChange(rawChange);
    var findings := ShapeFindings(current, change);
    findings := CheckUpserts(change, findings);
    var currentAssets := IndexFeeds(current.feeds);
    findings := CheckRemovals(currentAssets.Keys, change.removals, findings);
    var nextFeeds := ProjectFeeds(current, change);
    var diff := DiffPolicies(current.feeds, nextFeeds);
    findings := findings + OutcomeFindings(nextFeeds, diff);
    var after := IndexFeeds(nextFeeds);
    var highImpact := change.kind == Rollback || |diff.added| > 0 || |diff.removed| > 0;
    ModifiedInBoth(current.feeds, nextFeeds);
    var risky;
    findings, risky := ClassifyRisks(currentAssets, after, diff.modified, findings);
    v := Validation(findings, Errors(findings), diff, highImpact || risky, nextFeeds);
  }

  lemma ModifiedInBoth(before: seq<FeedPolicy>, after: seq<FeedPolicy>)
    ensures forall k :: k in Diff(before, after).modified ==> k in Index(before) && k in Index(after)
  {
  }

  // ── What the guard rails mean ─────────────────────────────────────────────

  ghost predicate DistinctAssets(feeds: seq<FeedPolicy>) {
    forall i, j :: 0 <= i < j < |feeds| ==> feeds[i].asset != feeds[j].asset
  }

  /** A normalised change that may be applied to the live policy. */
  ghost predicate Acceptable(current: CatalogPolicy, change: CatalogChange) {
    && change.baseVersion == current.version
    && 0 < |change.upserts| + |change.removals| <= MAX_FEEDS_PER_CHANGE
    && DistinctAssets(change.upserts)
    && (forall f :: f in change.upserts ==> f.asset !in change.removals && GuardRails(f))
    && (forall a :: a in change.removals ==> a in Index(current.feeds))
    && SomeEnabled(Project(current.feeds, change))
    && Touched(Diff(current.feeds, Project(current.feeds, change))) != []
  }

  lemma AllErrors(fs: seq<Finding>)
    requires forall f :: f in fs ==> f.IsError()
    ensures NoErrors(fs) <==> fs == []
  {
    if fs != [] { assert fs[0] in fs; }
  }

  ghost predicate CleanUpsert(change: CatalogChange, i: nat)
    requires i < |change.upserts|
  {
    !SeenBefore(change.upserts, i) && change.upserts[i].asset !in change.removals && GuardRails(change.upserts[i])
  }

  lemma UpsertExact(change: CatalogChange, i: nat)
    requires i < |change.upserts|
    ensures UpsertFindings(change, i) == [] <==> CleanUpsert(change, i)
    ensures forall f :: f in UpsertFindings(change, i) ==> f.IsError()
  {
    FeedFindingsExact(change.upserts[i]);
  }

  lemma {:induction false} UpsertsErrors(change: CatalogChange, n: nat)
    requires n <= |change.upserts|
    ensures forall f :: f in UpsertsFindings(change, n) ==> f.IsError()
    ensures UpsertsFindings(change, n) == [] <==> forall i :: 0 <= i < n ==> CleanUpsert(change, i)
  {
    hide UpsertFindings, CleanUpsert;
    if n > 0 {
      UpsertsErrors(change, n - 1);
      UpsertExact(change, n - 1);
      Appended(UpsertsFindings(change, n - 1), UpsertFindings(change, n - 1));
    }
  }

  lemma Appended(a: seq<Finding>, b: seq<Finding>)
    ensures (forall f :: f in a + b ==> f.IsError()) <==> (forall f :: f in a ==> f.IsError()) && (forall f :: f in b ==> f.IsError())
    ensures a + b == [] <==> a == [] && b == []
  {
    assert forall f :: f in a + b <==> f in a || f in b;
  }

  lemma {:induction false} RemovalsErrors(assets: set<string>, removals: seq<string>)
    ensures forall f :: f in RemovalsFindings(assets, removals) ==> f.IsError()
    ensures RemovalsFindings(assets, removals) == [] <==> forall a :: a in removals ==> a in assets
  {
    if removals != [] {
      var n := |removals| - 1;
      RemovalsErrors(assets, removals[..n]);
      assert removals == removals[..n] + [removals[n]];
    }
  }

  lemma {:induction false} RisksNoErrors(before: Catalog, after: Catalog, assets: seq<string>)
    requires forall k :: k in assets ==> k in before && k in after
    requires WellKeyed(before) && WellKeyed(after)
    ensures NoErrors(RisksFindings(before, after, assets))
    ensures RisksFindings(before, after, assets) == [] <==> forall k :: k in assets ==> NoLooser(before[k], after[k])
  {
    if assets != [] {
      var n := |assets| - 1;
      RisksNoErrors(before, after, assets[..n]);
      RiskExact(before[assets[n]], after[assets[n]]);
      assert assets == assets[..n] + [assets[n]];
    }
  }

  lemma DistinctBySight(us: seq<FeedPolicy>)
    ensures DistinctAssets(us) <==> forall i :: 0 <= i < |us| ==> !SeenBefore(us, i)
  {
    if forall i :: 0 <= i < |us| ==> !SeenBefore(us, i) {
      forall i, j | 0 <= i < j < |us| ensures us[i].asset != us[j].asset { assert !SeenBefore(us, j); }
    }
  }

  lemma CleanUpserts(change: CatalogChange)
    ensures (forall i :: 0 <= i < |change.upserts| ==> CleanUpsert(change, i)) <==>
      && DistinctAssets(change.upserts)
      && (forall f :: f in change.upserts ==> f.asset !in change.removals && GuardRails(f))
  {
    hide GuardRails, SeenBefore, DistinctAssets;
    var us := change.upserts;
    DistinctBySight(us);
    forall i | 0 <= i < |us|
      ensures CleanUpsert(change, i) <==> !SeenBefore(us, i) && us[i].asset !in change.removals && GuardRails(us[i])
    {
    }
  }

  lemma UpsertsExact(change: CatalogChange)
    ensures NoErrors(UpsertsFindings(change, |change.upserts|)) <==>
      && DistinctAssets(change.upserts)
      && (forall f :: f in change.upserts ==> f.asset !in change.removals && GuardRails(f))
  {
    UpsertsErrors(change, |change.upserts|);
    AllErrors(UpsertsFindings(change, |change.upserts|));
    CleanUpserts(change);
  }

  lemma ShapeExact(current: CatalogPolicy, change: CatalogChange)
    ensures NoErrors(ShapeFindings(current, change)) <==>
      change.baseVersion == current.version && 0 < |change.upserts| + |change.removals| <= MAX_FEEDS_PER_CHANGE
  {
    AllErrors(ShapeFindings(current, change));
  }

  lemma OutcomeExact(next: seq<FeedPolicy>, diff: CatalogDiff)
    ensures NoErrors(OutcomeFindings(next, diff)) <==> SomeEnabled(next) && Touched(diff) != []
  {
    AllErrors(OutcomeFindings(next, diff));
    assert |Touched(diff)| == |diff.added| + |diff.removed| + |diff.modified|;
  }

  lemma FindingsExact(current: CatalogPolicy, change: CatalogChange, next: seq<FeedPolicy>)
    ensures NoErrors(Findings(current, change, next)) <==>
      && NoErrors(ShapeFindings(current, change))
      && NoErrors(UpsertsFindings(change, |change.upserts|))
      && NoErrors(RemovalsFindings(Index(current.feeds).Keys, change.removals))
      && NoErrors(OutcomeFindings(next, Diff(current.feeds, next)))
  {
    var diff := Diff(current.feeds, next);
    RisksNoErrors(Index(current.feeds), Index(next), diff.modified);
    NoErrorsSplit(ShapeFindings(current, change), UpsertsFindings(change, |change.upserts|),
                  RemovalsFindings(Index(current.feeds).Keys, change.removals), OutcomeFindings(next, diff),
                  RisksFindings(Index(current.feeds), Index(next), diff.modified));
  }

  /** Validation passes exactly when the normalised change is acceptable. */
  lemma AcceptedExactly(current: CatalogPolicy, raw: CatalogChange)
    ensures Validate(current, raw).errors == [] <==> Acceptable(current, NormalizeChange(raw))
  {
    var change := NormalizeChange(raw);
    AcceptableExactly(current, change);
  }

  lemma AcceptableExactly(current: CatalogPolicy, change: CatalogChange)
    ensures NoErrors(Findings(current, change, Project(current.feeds, change))) <==> Acceptable(current, change)
  {
    hide Findings, ShapeFindings, UpsertsFindings, RemovalsFindings, OutcomeFindings, Project, Diff, SomeEnabled;
    hide NoErrors, DistinctAssets, GuardRails, Touched, Index;
    var next := Project(current.feeds, change);
    FindingsExact(current, change, next);
    ShapeExact(current, change);
    UpsertsExact(change);
    RemovalsErrors(Index(current.feeds).Keys, change.removals);
    AllErrors(RemovalsFindings(Index(current.feeds).Keys, change.removals));
    OutcomeExact(next, Diff(current.feeds, next));
  }

  lemma NoErrorsSplit(a: seq<Finding>, b: seq<Finding>, c: seq<Finding>, d: seq<Finding>, e: seq<Finding>)
    ensures NoErrors(a + b + c + d + e) <==> NoErrors(a) && NoErrors(b) && NoErrors(c) && NoErrors(d) && NoErrors(e)
  {
    assert forall f :: f in a + b + c + d + e <==> f in a || f in b || f in c || f in d || f in e;
  }

  /** Same assets, and no feed looser than it was. */
  ghost predicate Tightens(b: Catalog, a: Catalog) {
    b.Keys == a.Keys && forall k :: k in b && k in a ==> NoLooser(b[k], a[k])
  }

  lemma NoLooserReflexive(f: FeedPolicy)
    ensures NoLooser(f, f)
  {
  }

  lemma NoLooserTransitive(f: FeedPolicy, g: FeedPolicy, h: FeedPolicy)
    requires NoLooser(f, g) && NoLooser(g, h)
    ensures NoLooser(f, h)
  {
    if h.enabled {
      forall i | 0 <= i < |f.sources| ensures f.sources[i] in h.sources {
        var x := f.sources[i];
        assert x in g.sources;
        var j :| 0 <= j < |g.sources| && g.sources[j] == x;
      }
    }
  }

  /** A change is spared the high-impact lane exactly when it is no rollback, keeps the assets and
      makes no feed looser. */
  lemma LowImpactExact(current: CatalogPolicy, raw: CatalogChange)
    ensures !Validate(current, raw).highImpact <==>
      && raw.kind != Rollback
      && Tightens(Index(current.feeds), Index(Validate(current, raw).nextFeeds))
  {
    hide Index, Project, RisksFindings, Diff;
    LowImpactDiff(current.feeds, Project(current.feeds, NormalizeChange(raw)));
  }

  lemma LowImpactDiff(before: seq<FeedPolicy>, after: seq<FeedPolicy>)
    ensures var d := Diff(before, after);
      (|d.added| == 0 && |d.removed| == 0 && RisksFindings(Index(before), Index(after), d.modified) == [])
      <==> Tightens(Index(before), Index(after))
  {
    hide Index, RisksFindings, NoLooser;
    var d := Diff(before, after);
    RisksNoErrors(Index(before), Index(after), d.modified);
    KeysKept(before, after);
    if Index(before).Keys == Index(after).Keys { ModifiedTighten(before, after); }
  }

  lemma ModifiedTighten(before: seq<FeedPolicy>, after: seq<FeedPolicy>)
    requires Index(before).Keys == Index(after).Keys
    ensures (forall k :: k in Diff(before, after).modified ==> NoLooser(Index(before)[k], Index(after)[k]))
      <==> Tightens(Index(before), Index(after))
  {
    hide Index, NoLooser;
    var b, a := Index(before), Index(after);
    forall k | k in b && b[k] == a[k] ensures NoLooser(b[k], a[k]) { NoLooserReflexive(b[k]); }
  }

  lemma EmptyListing(s: set<string>)
    ensures Listing(s) == [] <==> s == {}
  {
  }

  lemma KeysKept(before: seq<FeedPolicy>, after: seq<FeedPolicy>)
    ensures Diff(before, after).added == [] && Diff(before, after).removed == [] <==>
      Index(before).Keys == Index(after).Keys
  {
    hide Index, Listing;
    var b, a := Index(before), Index(after);
    EmptyListing(set k | k in a && k !in b);
    EmptyListing(set k | k in b && k !in a);
    SameKeys(b, a);
  }

  lemma SameKeys(b: Catalog, a: Catalog)
    ensures (set k | k in a && k !in b) == {} && (set k | k in b && k !in a) == {} <==> b.Keys == a.Keys
  {
    assert (set k | k in a && k !in b) == a.Keys - b.Keys;
    assert (set k | k in b && k !in a) == b.Keys - a.Keys;
  }
}
