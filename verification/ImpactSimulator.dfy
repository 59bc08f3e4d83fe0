/** Safety margins and the blocking rule of the impact report. */
module ImpactSimulator {
  import opened Wrappers
  import opened Ordering
  import opened FeedPolicies
  import opened CatalogValidation
  import opened OnChainPlans
  import opened CatalogGovernance
  import opened CatalogRuns
  import opened CatalogTheorems

  datatype Margins = Margins(
    minSources: int,
    sourceDiversity: int,
    deviationHeadroomBps: int,
    stalenessHeadroomSeconds: int)

  function EnabledFeeds(feeds: seq<FeedPolicy>): (r: seq<FeedPolicy>)
    ensures forall f :: f in r <==> f in feeds && f.enabled
  {
    if feeds == [] then [] else
      var n := |feeds| - 1;
      assert feeds == feeds[..n] + [feeds[n]];
      EnabledFeeds(feeds[..n]) + (if feeds[n].enabled then [feeds[n]] else [])
  }

  function Smallest(xs: seq<int>): (m: int)
    requires xs != []
    ensures m in xs && forall x :: x in xs ==> m <= x
  {
    var n := |xs| - 1;
    assert xs == xs[..n] + [xs[n]];
    if n == 0 then xs[0] else
      var m := Smallest(xs[..n]);
      if xs[n] < m then xs[n] else m
  }

  datatype Measure = Quorum | Diversity | DeviationHeadroom | StalenessHeadroom

  function Value(m: Measure, f: FeedPolicy): int {
    match m
    case Quorum => f.minSources
    case Diversity => |f.sources| - MIN_SOURCE_COUNT
    case DeviationHeadroom => MAX_DEVIATION_BPS - f.maxDeviationBps
    case StalenessHeadroom => MAX_STALENESS_SECONDS - f.stalenessSeconds
  }

  function Values(m: Measure, feeds: seq<FeedPolicy>): (r: seq<int>)
    ensures |r| == |feeds| && forall i :: 0 <= i < |feeds| ==> r[i] == Value(m, feeds[i])
  {
    seq(|feeds|, i requires 0 <= i < |feeds| => Value(m, feeds[i]))
  }

  /** The smallest value of a measure over the enabled feeds. */
  function Margin(m: Measure, enabled: seq<FeedPolicy>): int
    requires enabled != []
  {
    Smallest(Values(m, enabled))
  }

  function MarginSnapshot(feeds: seq<FeedPolicy>): Option<Margins> {
    var enabled := EnabledFeeds(feeds);
    if enabled == [] then None
    else Some(Margins(Margin(Quorum, enabled), Margin(Diversity, enabled),
                      Margin(DeviationHeadroom, enabled), Margin(StalenessHeadroom, enabled)))
  }

  /** `low` is the least number that some enabled feed shows. */
  ghost predicate LeastOf(feeds: seq<FeedPolicy>, low: int, measure: FeedPolicy -> int) {
    && (exists i :: 0 <= i < |feeds| && feeds[i].enabled && measure(feeds[i]) == low)
    && (forall i :: 0 <= i < |feeds| && feeds[i].enabled ==> low <= measure(feeds[i]))
  }

  /** The safety margins of a catalog are, over its enabled feeds, the smallest quorum, the fewest
      providers beyond 2, and the least room left below 2000 basis points and 3600 seconds. */
  lemma SnapshotMeans(feeds: seq<FeedPolicy>)
    ensures MarginSnapshot(feeds).Some? <==> exists i :: 0 <= i < |feeds| && feeds[i].enabled
    ensures MarginSnapshot(feeds).Some? ==> var m := MarginSnapshot(feeds).value;
      && LeastOf(feeds, m.minSources, (f: FeedPolicy) => f.minSources)
      && LeastOf(feeds, m.sourceDiversity, (f: FeedPolicy) => |f.sources| - 2)
      && LeastOf(feeds, m.deviationHeadroomBps, (f: FeedPolicy) => 2000 - f.maxDeviationBps)
      && LeastOf(feeds, m.stalenessHeadroomSeconds, (f: FeedPolicy) => 3600 - f.stalenessSeconds)
  {
    hide EnabledFeeds, Margin, LeastOf;
    var enabled := EnabledFeeds(feeds);
    if enabled != [] {
      assert enabled[0] in feeds;
      MarginMeans(Quorum, feeds, (f: FeedPolicy) => f.minSources);
      MarginMeans(Diversity, feeds, (f: FeedPolicy) => |f.sources| - 2);
      MarginMeans(DeviationHeadroom, feeds, (f: FeedPolicy) => 2000 - f.maxDeviationBps);
      MarginMeans(StalenessHeadroom, feeds, (f: FeedPolicy) => 3600 - f.stalenessSeconds);
    } else {
      forall i | 0 <= i < |feeds| ensures !feeds[i].enabled { assert feeds[i] in feeds && feeds[i] !in enabled; }
    }
  }

  lemma MarginMeans(m: Measure, feeds: seq<FeedPolicy>, measure: FeedPolicy -> int)
    requires EnabledFeeds(feeds) != [] && forall f :: measure(f) == Value(m, f)
    ensures LeastOf(feeds, Margin(m, EnabledFeeds(feeds)), measure)
  {
    hide EnabledFeeds, Smallest, Value;
    var enabled := EnabledFeeds(feeds);
    var values := Values(m, enabled);
    var low := Margin(m, enabled);
    var k :| 0 <= k < |values| && values[k] == low;
    assert enabled[k] in feeds;
    var i :| 0 <= i < |feeds| && feeds[i] == enabled[k];
    assert measure(feeds[i]) == low;
    forall i | 0 <= i < |feeds| && feeds[i].enabled ensures low <= measure(feeds[i]) {
      assert feeds[i] in enabled;
      var j :| 0 <= j < |enabled| && enabled[j] == feeds[i];
      assert values[j] in values;
    }
  }

  const MARGIN_NAMES: seq<string> := ["minSources", "sourceDiversity", "deviationHeadroomBps", "stalenessHeadroomSeconds"]

  function MarginNamed(m: Margins, name: string): int {
    if name == "minSources" then m.minSources
    else if name == "sourceDiversity" then m.sourceDiversity
    else if name == "deviationHeadroomBps" then m.deviationHeadroomBps
    else m.stalenessHeadroomSeconds
  }

  function Shrunk(c: Margins, p: Margins, names: seq<string>): seq<string> {
    if names == [] then [] else
      var name := names[|names| - 1];
      Shrunk(c, p, names[..|names| - 1]) + (if MarginNamed(p, name) < MarginNamed(c, name) then [name] else [])
  }

  /** The names of the margins that shrink. */
  function CompareMargins(current: Option<Margins>, proposed: Option<Margins>): seq<string> {
    if current.None? || proposed.None? then [] else Sort(Shrunk(current.value, proposed.value, MARGIN_NAMES), Self)
  }

  method ReducedMargins(current: Option<Margins>, proposed: Option<Margins>) returns (reduced: seq<string>)
    ensures reduced == CompareMargins(current, proposed)
  {
    hide MARGIN_NAMES, MarginNamed;
    if current.None? || proposed.None? { return []; }
    reduced := [];
    for i := 0 to |MARGIN_NAMES|
      invariant reduced == Shrunk(current.value, proposed.value, MARGIN_NAMES[..i])
    {
      assert MARGIN_NAMES[..i + 1][..i] == MARGIN_NAMES[..i];
      var key := MARGIN_NAMES[i];
      if MarginNamed(proposed.value, key) < MarginNamed(current.value, key) { reduced := reduced + [key]; }
    }
    assert MARGIN_NAMES[..|MARGIN_NAMES|] == MARGIN_NAMES;
    reduced := Sort(reduced, Self);
  }

  lemma {:induction false} ShrunkExactly(c: Margins, p: Margins, names: seq<string>, name: string)
    ensures name in Shrunk(c, p, names) <==> name in names && MarginNamed(p, name) < MarginNamed(c, name)
  {
    hide MarginNamed;
    if names != [] {
      ShrunkExactly(c, p, names[..|names| - 1], name);
      assert names == names[..|names| - 1] + [names[|names| - 1]];
    }
  }

  /** A margin is listed as reduced exactly when both policies have margins and it shrinks. */
  lemma ReducedExactly(current: Option<Margins>, proposed: Option<Margins>, name: string)
    ensures name in CompareMargins(current, proposed) <==>
      && current.Some? && proposed.Some? && name in MARGIN_NAMES
      && MarginNamed(proposed.value, name) < MarginNamed(current.value, name)
  {
    hide Shrunk, MarginNamed, MARGIN_NAMES;
    if current.Some? && proposed.Some? {
      ShrunkExactly(current.value, proposed.value, MARGIN_NAMES, name);
      SortCorrect(Shrunk(current.value, proposed.value, MARGIN_NAMES), Self);
    }
  }

  /** Which names the comparison of two snapshots lists, and in which order. */
  lemma ReducedMeans(c: Margins, p: Margins)
    ensures var reduced := CompareMargins(Some(c), Some(p));
      && ("minSources" in reduced <==> p.minSources < c.minSources)
      && ("sourceDiversity" in reduced <==> p.sourceDiversity < c.sourceDiversity)
      && ("deviationHeadroomBps" in reduced <==> p.deviationHeadroomBps < c.deviationHeadroomBps)
      && ("stalenessHeadroomSeconds" in reduced <==> p.stalenessHeadroomSeconds < c.stalenessHeadroomSeconds)
      && (forall x :: x in reduced ==> x in {"minSources", "sourceDiversity", "deviationHeadroomBps", "stalenessHeadroomSeconds"})
      && SortedBy(reduced, Self)
  {
    hide CompareMargins, Shrunk;
    forall x ensures x in CompareMargins(Some(c), Some(p)) <==> x in MARGIN_NAMES && MarginNamed(p, x) < MarginNamed(c, x) {
      ReducedExactly(Some(c), Some(p), x);
    }
    ReducedSorted(c, p);
  }

  lemma ReducedSorted(c: Margins, p: Margins)
    ensures SortedBy(CompareMargins(Some(c), Some(p)), Self)
  {
    hide Shrunk, MARGIN_NAMES;
    SortCorrect(Shrunk(c, p, MARGIN_NAMES), Self);
  }

  predicate Unreachable(f: FeedPolicy) {
    f.enabled && (|f.sources| < f.minSources || f.minSources < MIN_SOURCE_COUNT || |f.sources| < MIN_SOURCE_COUNT)
  }

  function UnreachableAssets(feeds: seq<FeedPolicy>): seq<string> {
    if feeds == [] then [] else
      var n := |feeds| - 1;
      UnreachableAssets(feeds[..n]) + (if Unreachable(feeds[n]) then [feeds[n].asset] else [])
  }

  function UnreachableFeeds(feeds: seq<FeedPolicy>): seq<string> { Sort(UnreachableAssets(feeds), Self) }

  predicate ApprovalBlocked(nextFeeds: seq<FeedPolicy>) { |UnreachableFeeds(nextFeeds)| > 0 }

  // ── The blocking rule against the guard rails ─────────────────────────────

  lemma {:induction false} UnreachableExact(feeds: seq<FeedPolicy>)
    ensures UnreachableAssets(feeds) == [] <==> forall f :: f in feeds ==> !Unreachable(f)
  {
    if feeds != [] {
      var n := |feeds| - 1;
      UnreachableExact(feeds[..n]);
      assert feeds == feeds[..n] + [feeds[n]];
    }
  }

  lemma {:induction false} UnreachableMembers(feeds: seq<FeedPolicy>, asset: string)
    ensures asset in UnreachableAssets(feeds) <==> exists f :: f in feeds && f.asset == asset && Unreachable(f)
  {
    hide Unreachable;
    if feeds != [] {
      var n := |feeds| - 1;
      UnreachableMembers(feeds[..n], asset);
      assert feeds == feeds[..n] + [feeds[n]];
    }
  }

  /** The report names exactly the assets of the enabled feeds that could not publish under their own quorum. */
  lemma UnreachableMeans(feeds: seq<FeedPolicy>, asset: string)
    ensures asset in UnreachableFeeds(feeds) <==>
      exists f :: f in feeds && f.asset == asset && f.enabled && !(2 <= f.minSources <= |f.sources|)
  {
    hide UnreachableAssets;
    UnreachableMembers(feeds, asset);
    SortCorrect(UnreachableAssets(feeds), Self);
  }

  /** Approval is blocked exactly when some enabled feed could not publish under its own quorum. */
  lemma BlockedExactly(feeds: seq<FeedPolicy>)
    ensures ApprovalBlocked(feeds) <==>
      exists f :: f in feeds && f.enabled && !(2 <= f.minSources <= |f.sources|)
  {
    hide UnreachableAssets;
    UnreachableExact(feeds);
    SortCorrect(UnreachableAssets(feeds), Self);
    if ApprovalBlocked(feeds) {
      var f :| f in feeds && Unreachable(f);
    }
  }

  lemma RailsNotBlocked(feeds: seq<FeedPolicy>)
    requires forall f :: f in feeds ==> GuardRails(f)
    ensures !ApprovalBlocked(feeds)
  {
    hide ApprovalBlocked;
    BlockedExactly(feeds);
  }

  /** In every run from a sound genesis, no proposal that was ever accepted is blocked by its impact
      report, against whichever version of the run the report is made. */
  lemma AcceptedNeverBlocked(feeds: seq<FeedPolicy>, events: seq<Event>, id: int, k: nat)
    requires Sound(Genesis(feeds).versions[0].feeds)
    requires id in Run(Genesis(feeds), events).proposals && k < |Run(Genesis(feeds), events).versions|
    ensures var s := Run(Genesis(feeds), events);
      !ApprovalBlocked(Validate(s.versions[k], s.proposals[id].change).nextFeeds)
  {
    hide Genesis, Run, Inv, Sound, Validate, ApprovalBlocked, Project, Independent, StatusMeans, Published, NormalChange, Plan;
    hide GuardRails;
    var s := Run(Genesis(feeds), events);
    GenesisInv(feeds);
    RunKeeps(Genesis(feeds), events);
    HistoryAppendOnly(Genesis(feeds), events);
    assert s.versions[0] == Genesis(feeds).versions[0];
    var p := s.proposals[id];
    LedgerOk(s, id);
    VersionSound(s, p.change.baseVersion - 1);
    VersionSound(s, k);
    SoundRails(s.versions[p.change.baseVersion - 1].feeds);
    SoundRails(s.versions[k].feeds);
    ProjectSound(s.versions[p.change.baseVersion - 1], p.change);
    NextFeedsProject(s.versions[k], p.change);
    forall f | f in Project(s.versions[k].feeds, p.change) ensures GuardRails(f) {
      ProjectMembers(s.versions[k].feeds, p.change, f);
    }
    RailsNotBlocked(Project(s.versions[k].feeds, p.change));
  }

  // ── The margins against the risk classifier ───────────────────────────────

  lemma {:induction false} SubsetShorter(a: seq<string>, b: seq<string>)
    requires NoDuplicates(a) && forall i :: 0 <= i < |a| ==> a[i] in b
    ensures |a| <= |b|
  {
    if a != [] {
      var x := a[0];
      var j :| 0 <= j < |b| && b[j] == x;
      var c := b[..j] + b[j + 1..];
      forall i | 0 <= i < |a[1..]| ensures a[1..][i] in c {
        var y := a[i + 1];
        assert y in b && y != x;
        var k :| 0 <= k < |b| && b[k] == y;
        assert c[if k < j then k else k - 1] == y;
      }
      SubsetShorter(a[1..], c);
    }
  }

  /** A feed that is no looser has no smaller margin of any kind. */
  lemma NoLooserMargins(m: Measure, f: FeedPolicy, g: FeedPolicy)
    requires NormalFeed(f) && NoLooser(f, g) && g.enabled
    ensures Value(m, f) <= Value(m, g)
  {
    if m == Diversity { SubsetShorter(f.sources, g.sources); }
  }

  /** The counterpart of an enabled feed in the list it tightens. */
  lemma Counterpart(before: seq<FeedPolicy>, after: seq<FeedPolicy>, g: FeedPolicy)
    requires OrderedFeeds(after) && NormalFeeds(before)
    requires Tightens(Index(before), Index(after)) && g in EnabledFeeds(after)
    ensures g.asset in Index(before)
    ensures var f := Index(before)[g.asset]; f in EnabledFeeds(before) && NormalFeed(f) && NoLooser(f, g)
  {
    hide NormalFeed, EnabledFeeds, Index;
    OrderedLookup(after, g);
  }

  lemma MarginGrows(m: Measure, before: seq<FeedPolicy>, after: seq<FeedPolicy>)
    requires OrderedFeeds(after) && NormalFeeds(before) && Tightens(Index(before), Index(after))
    requires EnabledFeeds(before) != [] && EnabledFeeds(after) != []
    ensures Margin(m, EnabledFeeds(before)) <= Margin(m, EnabledFeeds(after))
  {
    hide EnabledFeeds, Index, Tightens, NormalFeeds, OrderedFeeds, NormalFeed, NoLooser, Smallest, Value;
    var b, a := EnabledFeeds(before), EnabledFeeds(after);
    var low := Margin(m, a);
    var ys := Values(m, a);
    var i :| 0 <= i < |ys| && ys[i] == low;
    Counterpart(before, after, a[i]);
    var f := Index(before)[a[i].asset];
    NoLooserMargins(m, f, a[i]);
    var j :| 0 <= j < |b| && b[j] == f;
    assert Values(m, b)[j] == Value(m, f) && Values(m, b)[j] in Values(m, b);
    assert low == Value(m, a[i]);
  }

  /** A change the classifier finds no looser reduces no safety margin of the report. */
  lemma TighteningReducesNoMargin(before: seq<FeedPolicy>, after: seq<FeedPolicy>)
    requires OrderedFeeds(after) && NormalFeeds(before) && Tightens(Index(before), Index(after))
    ensures CompareMargins(MarginSnapshot(before), MarginSnapshot(after)) == []
  {
    hide EnabledFeeds, Index, Tightens, NormalFeeds, OrderedFeeds, Margin, CompareMargins;
    if EnabledFeeds(before) != [] && EnabledFeeds(after) != [] {
      MarginGrows(Quorum, before, after);
      MarginGrows(Diversity, before, after);
      MarginGrows(DeviationHeadroom, before, after);
      MarginGrows(StalenessHeadroom, before, after);
    }
    NothingReduced(MarginSnapshot(before), MarginSnapshot(after));
  }

  lemma NothingReduced(current: Option<Margins>, proposed: Option<Margins>)
    requires current.Some? && proposed.Some? ==>
      && current.value.minSources <= proposed.value.minSources
      && current.value.sourceDiversity <= proposed.value.sourceDiversity
      && current.value.deviationHeadroomBps <= proposed.value.deviationHeadroomBps
      && current.value.stalenessHeadroomSeconds <= proposed.value.stalenessHeadroomSeconds
    ensures CompareMargins(current, proposed) == []
  {
    hide CompareMargins, MARGIN_NAMES;
    var reduced := CompareMargins(current, proposed);
    if reduced != [] {
      ReducedExactly(current, proposed, reduced[0]);
      assert false;
    }
  }

  /** No stretch of versions produced outside the high-impact lane reduces a safety margin. */
  lemma StretchReducesNoMargin(s: State, i: nat, j: nat)
    requires Inv(s) && i <= j < |s.versions|
    requires forall k :: i < k <= j ==> !Origin(s, k).highImpact
    ensures CompareMargins(MarginSnapshot(s.versions[i].feeds), MarginSnapshot(s.versions[j].feeds)) == []
  {
    hide Ledger, NormalFeeds, OrderedFeeds, SortedFeeds, Tightens, Index, MarginSnapshot, CompareMargins, ProposalOk;
    if i == j {
      NothingReduced(MarginSnapshot(s.versions[i].feeds), MarginSnapshot(s.versions[i].feeds));
    } else {
      StretchTightens(s, i, j);
      TighteningReducesNoMargin(s.versions[i].feeds, s.versions[j].feeds);
    }
  }
}
