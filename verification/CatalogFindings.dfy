/** What each finding of the validator means, in the fields of the policy and the change. */
module CatalogFindings {
  import opened Wrappers
  import opened Ordering
  import opened FeedPolicies
  import opened CatalogDiffs
  import opened CatalogValidation

  lemma WhenMember(condition: bool, code: Code, asset: Option<string>, f: Finding)
    ensures f in When(condition, code, asset) <==> condition && f == Finding(code, asset)
  {
  }

  // ── One feed ──────────────────────────────────────────────────────────────

  /** Why a feed draws a code. */
  ghost predicate FeedDraws(feed: FeedPolicy, code: Code) {
    match code
    case InvalidAsset =>
      !(2 <= |feed.asset| <= 12) || exists i :: 0 <= i < |feed.asset| && !('A' <= feed.asset[i] <= 'Z' || '0' <= feed.asset[i] <= '9')
    case UnknownSource =>
      exists i :: 0 <= i < |feed.sources| && feed.sources[i] !in {"chainlink", "redstone", "band", "reflector"}
    case InsufficientSources => |feed.sources| < 2
    case MinSourcesBelowFloor => feed.minSources < 2
    case MinSourcesExceedsSources => feed.minSources > |feed.sources|
    case DeviationOutOfBounds => feed.maxDeviationBps < 10 || feed.maxDeviationBps > 2000
    case StalenessOutOfBounds => feed.stalenessSeconds < 10 || feed.stalenessSeconds > 3600
    case FreshnessWarningOutOfBounds =>
      feed.freshnessWarnSeconds.None? || feed.freshnessWarnSeconds.value < 1 || feed.freshnessWarnSeconds.value >= feed.stalenessSeconds
    case InvalidQuoteUnit => feed.quoteUnit.Some? && feed.quoteUnit.value.denomination != PerAssetUnit(feed.quoteUnit.value.currency)
    case InvalidQuoteScale =>
      feed.quoteUnit.Some? && var q := feed.quoteUnit.value;
      || q.scaleDecimals < 0 || q.scaleDecimals > 18 || q.displayDecimals < 0 || q.displayDecimals > 12
      || q.displayDecimals > q.scaleDecimals
    case _ => false
  }

  lemma {:induction false} UnknownSourceMeans(sources: seq<string>, asset: string, f: Finding)
    ensures f in UnknownSources(sources, asset) <==>
      f == Finding(UnknownSource, Some(asset)) && exists i :: 0 <= i < |sources| && sources[i] !in CATALOG_SOURCES
  {
    hide CATALOG_SOURCES;
    if sources != [] {
      var n := |sources| - 1;
      UnknownSourceMeans(sources[..n], asset, f);
      WhenMember(sources[n] !in CATALOG_SOURCES, UnknownSource, Some(asset), f);
      if i :| 0 <= i < n && sources[..n][i] !in CATALOG_SOURCES { assert sources[i] !in CATALOG_SOURCES; }
      if i :| 0 <= i < |sources| && sources[i] !in CATALOG_SOURCES {
        if i < n { assert sources[..n][i] !in CATALOG_SOURCES; }
      }
    }
  }

  lemma BoundMeans(feed: FeedPolicy, f: Finding)
    ensures f in BoundFindings(feed) <==>
      && f.asset == Some(feed.asset) && FeedDraws(feed, f.code)
      && f.code in {InsufficientSources, MinSourcesBelowFloor, MinSourcesExceedsSources, DeviationOutOfBounds, StalenessOutOfBounds,
                    FreshnessWarningOutOfBounds}
  {
  }

  lemma QuoteMeans(feed: FeedPolicy, f: Finding)
    ensures f in QuoteFindings(Quote(feed), feed.asset) <==>
      f.asset == Some(feed.asset) && FeedDraws(feed, f.code) && f.code in {InvalidQuoteUnit, InvalidQuoteScale}
  {
    hide CurrencyCode, PerAssetUnit;
    DenominationNames(Quote(feed).currency);
    if feed.quoteUnit.None? { DefaultDenomination(); }
  }

  lemma TickerMeans(feed: FeedPolicy)
    ensures !ValidTicker(feed.asset) <==> FeedDraws(feed, InvalidAsset)
  {
  }

  /** A feed draws a code exactly for the reason the code stands for. */
  lemma FeedFindingMeans(feed: FeedPolicy, f: Finding)
    ensures f in FeedFindings(feed) <==> f.asset == Some(feed.asset) && FeedDraws(feed, f.code)
  {
    hide UnknownSources, BoundFindings, QuoteFindings, ValidTicker, Quote;
    TickerMeans(feed);
    WhenMember(!ValidTicker(feed.asset), InvalidAsset, Some(feed.asset), f);
    UnknownSourceMeans(feed.sources, feed.asset, f);
    BoundMeans(feed, f);
    QuoteMeans(feed, f);
    NoFindings(When(!ValidTicker(feed.asset), InvalidAsset, Some(feed.asset)), UnknownSources(feed.sources, feed.asset),
               BoundFindings(feed), QuoteFindings(Quote(feed), feed.asset));
  }

  // ── A modified feed ───────────────────────────────────────────────────────

  /** Why modifying a feed is flagged. */
  ghost predicate RiskDraws(before: FeedPolicy, after: FeedPolicy, code: Code) {
    match code
    case FeedDisabled => before.enabled && !after.enabled
    case FeedEnabled => !before.enabled && after.enabled
    case DeviationLoosened => after.maxDeviationBps > before.maxDeviationBps
    case StalenessLoosened => after.stalenessSeconds > before.stalenessSeconds
    case FreshnessProfileChanged =>
      || after.freshnessProfile != before.freshnessProfile
      || (if after.freshnessWarnSeconds.Some? then after.freshnessWarnSeconds.value else 0)
         > (if before.freshnessWarnSeconds.Some? then before.freshnessWarnSeconds.value else 0)
    case MinSourcesReduced => after.minSources < before.minSources
    case SourceSetReduced => after.enabled && exists s :: s in before.sources && s !in after.sources
    case QuoteScaleChanged => !SameScale(before.quoteUnit, after.quoteUnit)
    case _ => false
  }

  lemma RiskMeans(before: FeedPolicy, after: FeedPolicy, f: Finding)
    ensures f in RiskFindings(before, after) <==> f.asset == Some(after.asset) && RiskDraws(before, after, f.code)
  {
    hide Drops;
    DropsMeans(before.sources, after.sources);
  }

  lemma DropsMeans(before: seq<string>, after: seq<string>)
    ensures Drops(before, after) <==> exists s :: s in before && s !in after
  {
  }

  lemma {:induction false} RisksMean(before: Catalog, after: Catalog, assets: seq<string>, f: Finding)
    requires WellKeyed(before) && WellKeyed(after) && forall k :: k in assets ==> k in before && k in after
    ensures f in RisksFindings(before, after, assets) <==>
      f.asset.Some? && f.asset.value in assets && RiskDraws(before[f.asset.value], after[f.asset.value], f.code)
  {
    hide RiskFindings, RiskDraws;
    if assets != [] {
      var n := |assets| - 1;
      RisksMean(before, after, assets[..n], f);
      RiskMeans(before[assets[n]], after[assets[n]], f);
      assert assets == assets[..n] + [assets[n]];
    }
  }

  // ── The change ────────────────────────────────────────────────────────────

  /** Why an upsert draws a code: its asset is listed before, is removed as well, or the feed itself. */
  ghost predicate UpsertDraws(change: CatalogChange, i: nat, code: Code)
    requires i < |change.upserts|
  {
    match code
    case DuplicateAsset => exists j :: 0 <= j < i && change.upserts[j].asset == change.upserts[i].asset
    case ConflictingChange => change.upserts[i].asset in change.removals
    case _ => FeedDraws(change.upserts[i], code)
  }

  lemma UpsertMeans(change: CatalogChange, i: nat, f: Finding)
    requires i < |change.upserts|
    ensures f in UpsertFindings(change, i) <==> f.asset == Some(change.upserts[i].asset) && UpsertDraws(change, i, f.code)
  {
    hide FeedFindings;
    FeedFindingMeans(change.upserts[i], f);
  }

  lemma {:induction false} UpsertsMean(change: CatalogChange, n: nat, f: Finding)
    requires n <= |change.upserts|
    ensures f in UpsertsFindings(change, n) <==>
      exists i :: 0 <= i < n && f.asset == Some(change.upserts[i].asset) && UpsertDraws(change, i, f.code)
  {
    hide UpsertFindings, UpsertDraws;
    if n > 0 {
      UpsertsMean(change, n - 1, f);
      UpsertMeans(change, n - 1, f);
    }
  }

  lemma {:induction false} RemovalsMean(assets: set<string>, removals: seq<string>, f: Finding)
    ensures f in RemovalsFindings(assets, removals) <==>
      f.code == UnknownFeed && f.asset.Some? && f.asset.value in removals && f.asset.value !in assets
  {
    if removals != [] {
      var n := |removals| - 1;
      RemovalsMean(assets, removals[..n], f);
      assert removals == removals[..n] + [removals[n]];
    }
  }

  /** Why the change as a whole draws a code. */
  ghost predicate ChangeDraws(current: CatalogPolicy, change: CatalogChange, next: seq<FeedPolicy>, f: Finding) {
    || (f.asset.None? && match f.code
        case StaleBaseVersion => change.baseVersion != current.version
        case EmptyChange => change.upserts == [] && change.removals == []
        case TooManyChanges => |change.upserts| + |change.removals| > 100
        case EmptyCatalog => next == []
        case NoEnabledFeeds => forall g :: g in next ==> !g.enabled
        case NoOpChange => Index(next) == Index(current.feeds)
        case _ => false)
    || (exists i :: 0 <= i < |change.upserts| && f.asset == Some(change.upserts[i].asset) && UpsertDraws(change, i, f.code))
    || (f.code == UnknownFeed && f.asset.Some? && f.asset.value in change.removals && forall g :: g in current.feeds ==> g.asset != f.asset.value)
    || (f.asset.Some? && f.asset.value in Index(current.feeds) && f.asset.value in Index(next)
        && RiskDraws(Index(current.feeds)[f.asset.value], Index(next)[f.asset.value], f.code))
  }

  lemma ShapeMeans(current: CatalogPolicy, change: CatalogChange, f: Finding)
    ensures f in ShapeFindings(current, change) <==> f.asset.None? && match f.code
      case StaleBaseVersion => change.baseVersion != current.version
      case EmptyChange => change.upserts == [] && change.removals == []
      case TooManyChanges => |change.upserts| + |change.removals| > 100
      case _ => false
  {
  }

  lemma NothingTouched(before: seq<FeedPolicy>, after: seq<FeedPolicy>)
    ensures var d := Diff(before, after); |d.added| + |d.removed| + |d.modified| == 0 <==> Index(after) == Index(before)
  {
    hide Index, Listing, Diff;
    var b, a, d := Index(before), Index(after), Diff(before, after);
    if |d.added| + |d.removed| + |d.modified| == 0 {
      forall k ensures (k in a <==> k in b) && (k in a && k in b ==> a[k] == b[k]) { DiffPartition(before, after, k); }
    } else {
      var k := if d.added != [] then d.added[0] else if d.removed != [] then d.removed[0] else d.modified[0];
      DiffPartition(before, after, k);
      assert k in d.added || k in d.removed || k in d.modified;
    }
  }

  lemma OutcomeMeans(current: seq<FeedPolicy>, next: seq<FeedPolicy>, f: Finding)
    ensures f in OutcomeFindings(next, Diff(current, next)) <==> f.asset.None? && match f.code
      case EmptyCatalog => next == []
      case NoEnabledFeeds => forall g :: g in next ==> !g.enabled
      case NoOpChange => Index(next) == Index(current)
      case _ => false
  {
    hide Index, Diff;
    NothingTouched(current, next);
  }

  lemma ModifiedRisks(current: seq<FeedPolicy>, next: seq<FeedPolicy>, f: Finding)
    ensures f in RisksFindings(Index(current), Index(next), Diff(current, next).modified) <==>
      && f.asset.Some? && f.asset.value in Index(current) && f.asset.value in Index(next)
      && RiskDraws(Index(current)[f.asset.value], Index(next)[f.asset.value], f.code)
  {
    hide Index, Diff, RiskDraws, RisksFindings;
    ModifiedInBoth(current, next);
    RisksMean(Index(current), Index(next), Diff(current, next).modified, f);
    if f.asset.Some? {
      DiffPartition(current, next, f.asset.value);
      if f.asset.value in Index(current) { NoSelfRisk(Index(current)[f.asset.value], f.code); }
    }
  }

  lemma NoSelfRisk(feed: FeedPolicy, code: Code)
    ensures !RiskDraws(feed, feed, code)
  {
  }

  lemma KnownAssets(feeds: seq<FeedPolicy>, a: string)
    ensures a !in Index(feeds) <==> forall g :: g in feeds ==> g.asset != a
  {
    hide Index;
    if a in Index(feeds) { assert Index(feeds)[a] in feeds; }
  }

  /** The findings of a validation are exactly those the normalised change calls for. */
  lemma FindingsMean(current: CatalogPolicy, raw: CatalogChange, f: Finding)
    ensures f in Validate(current, raw).findings <==>
      ChangeDraws(current, NormalizeChange(raw), Project(current.feeds, NormalizeChange(raw)), f)
  {
    hide NormalizeChange, Project, Index, Diff, ShapeFindings, UpsertsFindings, RemovalsFindings, OutcomeFindings, RisksFindings, RiskDraws;
    hide UpsertDraws, HighImpact, Errors;
    var change := NormalizeChange(raw);
    var next := Project(current.feeds, change);
    ShapeMeans(current, change, f);
    UpsertsMean(change, |change.upserts|, f);
    RemovalsMean(Index(current.feeds).Keys, change.removals, f);
    if f.asset.Some? { KnownAssets(current.feeds, f.asset.value); }
    OutcomeMeans(current.feeds, next, f);
    ModifiedRisks(current.feeds, next, f);
    ModifiedInBoth(current.feeds, next);
    FindingsSplit(ShapeFindings(current, change), UpsertsFindings(change, |change.upserts|),
                  RemovalsFindings(Index(current.feeds).Keys, change.removals), OutcomeFindings(next, Diff(current.feeds, next)),
                  RisksFindings(Index(current.feeds), Index(next), Diff(current.feeds, next).modified), f);
  }

  lemma FindingsSplit(a: seq<Finding>, b: seq<Finding>, c: seq<Finding>, d: seq<Finding>, e: seq<Finding>, f: Finding)
    ensures f in a + b + c + d + e <==> f in a || f in b || f in c || f in d || f in e
  {
  }

  /** The errors are the findings that are not mere risk flags. */
  lemma {:induction false} ErrorsMean(findings: seq<Finding>, f: Finding)
    ensures f in Errors(findings) <==>
      && f in findings
      && f.code !in {FeedDisabled, FeedEnabled, DeviationLoosened, StalenessLoosened, FreshnessProfileChanged, MinSourcesReduced,
                     SourceSetReduced, QuoteScaleChanged}
  {
    if findings != [] {
      var n := |findings| - 1;
      ErrorsMean(findings[..n], f);
      assert findings == findings[..n] + [findings[n]];
    }
  }
}
