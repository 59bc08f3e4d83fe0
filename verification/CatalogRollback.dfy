/** Rollback as an ordinary proposal: what activating one restores, and when one can be made. */
module CatalogRollback {
  import opened Wrappers
  import opened Text
  import opened Ordering
  import opened FeedPolicies
  import opened CatalogDiffs
  import opened CatalogValidation
  import opened OnChainPlans
  import opened CatalogGovernance
  import opened CatalogRuns
  import opened CatalogTheorems
  import opened CatalogProgress

  lemma {:induction false} RemovedExact(current: seq<FeedPolicy>, target: seq<FeedPolicy>, a: string)
    ensures a in RemovedAssets(current, target) <==> a in Index(current) && a !in Index(target)
  {
    hide Index;
    if current == [] {
      EmptyIndex();
    } else {
      var n := |current| - 1;
      RemovedExact(current[..n], target, a);
      IndexKeysPush(current);
    }
  }

  lemma EmptyIndex()
    ensures Index([]) == map[]
  {
  }

  lemma IndexKeysPush(feeds: seq<FeedPolicy>)
    requires feeds != []
    ensures Index(feeds).Keys == Index(feeds[..|feeds| - 1]).Keys + {feeds[|feeds| - 1].asset}
  {
  }

  lemma IndexNormal(feeds: seq<FeedPolicy>, k: string)
    requires NormalFeeds(feeds) && k in Index(feeds)
    ensures NormalizeAsset(k) == k
  {
    hide Index, NormalizeAsset;
    assert NormalFeed(Index(feeds)[k]);
  }

  /** The removals of a rollback, once normalised, are the assets the target does not have. */
  lemma RollbackRemovals(current: CatalogPolicy, target: CatalogPolicy)
    requires NormalFeeds(current.feeds)
    ensures NormalizeChange(RollbackChange(current, target)).removals
         == Listing(Index(current.feeds).Keys - Index(target.feeds).Keys)
  {
    hide Index, NormalizeAsset, NormalFeeds, Listing, SortedUnique, NormalizeFeeds, Sort, RemovedAssets;
    var raw := RemovedAssets(current.feeds, target.feeds);
    forall a ensures a in raw <==> a in Index(current.feeds).Keys - Index(target.feeds).Keys {
      RemovedExact(current.feeds, target.feeds, a);
    }
    assert forall i :: 0 <= i < |raw| ==> raw[i] in raw;
    forall i | 0 <= i < |raw| ensures NormalizeAssets(raw)[i] == raw[i] { IndexNormal(current.feeds, raw[i]); }
    assert NormalizeAssets(raw) == raw;
    SortedUniqueIsListing(raw, Index(current.feeds).Keys - Index(target.feeds).Keys);
  }

  lemma RollbackUpserts(current: CatalogPolicy, target: CatalogPolicy)
    requires NormalFeeds(target.feeds) && SortedFeeds(target.feeds)
    ensures NormalizeChange(RollbackChange(current, target)).upserts == target.feeds
  {
    hide NormalFeeds, SortedUnique, NormalizeAssets, RemovedAssets, NormalizeFeeds;
    NormalFeedsFixed(target.feeds);
    SortIdentity(target.feeds, FeedAsset);
  }

  lemma Overwrite(c: Catalog, t: Catalog)
    ensures (c - (c.Keys - t.Keys)) + t == t
  {
  }

  /** The change a rollback proposes turns the live feed list into the target's, exactly. */
  lemma RollbackProjects(current: CatalogPolicy, target: CatalogPolicy)
    requires NormalFeeds(current.feeds) && NormalFeeds(target.feeds) && OrderedFeeds(target.feeds)
    ensures Project(current.feeds, NormalizeChange(RollbackChange(current, target))) == target.feeds
  {
    hide Index, NormalFeeds, OrderedFeeds, NormalizeChange, RollbackChange, Listing, FeedList;
    var change := NormalizeChange(RollbackChange(current, target));
    RollbackRemovals(current, target);
    OrderedSorted(target.feeds);
    RollbackUpserts(current, target);
    var c, t := Index(current.feeds), Index(target.feeds);
    assert Elements(change.removals) == c.Keys - t.Keys;
    Overwrite(c, t);
    FeedListOfIndex(target.feeds);
  }

  // ── Whole runs ────────────────────────────────────────────────────────────

  /** No step alters the change a stored proposal carries. */
  lemma StepKeepsChange(s: State, e: Event, id: int)
    requires Inv(s) && id in s.proposals
    ensures id in Step(s, e).proposals && Step(s, e).proposals[id].change == s.proposals[id].change
  {
    hide Validate, Plan, NormalizeChange, Trim, Trimmed, SafetyGate, RollbackProposal, FindVersion, Project, ProposalOk, History;
  }

  lemma {:induction false} RunKeepsChange(s: State, events: seq<Event>, id: int)
    requires Inv(s) && id in s.proposals
    ensures id in Run(s, events).proposals && Run(s, events).proposals[id].change == s.proposals[id].change
  {
    hide Inv, Step;
    if events != [] {
      RunKeepsChange(s, events[..|events| - 1], id);
      RunKeeps(s, events[..|events| - 1]);
      StepKeepsChange(Run(s, events[..|events| - 1]), events[|events| - 1], id);
    }
  }

  /** An accepted activation publishes the projection of the proposal's base version. */
  lemma ActivationPublishes(s: State, id: int, actor: string, executions: seq<Execution>, r: Restrictions, now: int)
    requires Inv(s) && Activate(s, id, actor, executions, r, now).result.Ok?
    ensures id in s.proposals && s.proposals[id].change.baseVersion == |s.versions|
    ensures var t := Activate(s, id, actor, executions, r, now).state;
      t.versions == s.versions + [Current(t)] && Current(t).feeds == Project(Current(s).feeds, s.proposals[id].change)
  {
    hide Inv, Trim, Trimmed, SafetyGate, Project, NormalFeeds, OrderedFeeds;
    AcceptedActivation(s, id, executions, r);
  }

  lemma {:induction false} FindNumbered(versions: seq<CatalogPolicy>, from: nat, v: int)
    requires forall k :: 0 <= k < |versions| ==> versions[k].version == from + k
    ensures FindVersion(versions, v) == if from <= v < from + |versions| then Some(versions[v - from]) else None
  {
    if versions != [] { FindNumbered(versions[1..], from + 1, v); }
  }

  lemma FindExact(s: State, v: int)
    requires Inv(s)
    ensures FindVersion(s.versions, v) == if 1 <= v <= |s.versions| then Some(s.versions[v - 1]) else None
  {
    hide Ledger, NormalFeeds, OrderedFeeds, FindVersion;
    FindNumbered(s.versions, 1, v);
  }

  lemma RollbackStored(s: State, input: RollbackInput, now: int)
    requires Inv(s) && CreateRollback(s, input, now).result.Ok?
    ensures 1 <= input.targetVersion <= |s.versions|
    ensures var o := CreateRollback(s, input, now);
      && o.state.versions == s.versions && o.result.value.id in o.state.proposals
      && o.state.proposals[o.result.value.id] == o.result.value
      && o.result.value.change == NormalizeChange(RollbackChange(Current(s), s.versions[input.targetVersion - 1]))
  {
    hide Inv, Validate, Plan, NormalizeChange, Trim, Trimmed, FindVersion, RollbackDescription, RollbackChange;
    FindExact(s, input.targetVersion);
  }

  lemma VersionShape(s: State, k: nat)
    requires Inv(s) && k < |s.versions|
    ensures NormalFeeds(s.versions[k].feeds) && SortedFeeds(s.versions[k].feeds)
  {
    hide Ledger, NormalFeeds, OrderedFeeds, SortedFeeds;
  }

  /** A version that lists an asset twice, as only the genesis policy can, is refused as a target. */
  lemma RollbackTargetOrdered(s: State, input: RollbackInput, now: int)
    requires Inv(s) && CreateRollback(s, input, now).result.Ok?
    ensures 1 <= input.targetVersion <= |s.versions| && OrderedFeeds(s.versions[input.targetVersion - 1].feeds)
  {
    hide Inv, Validate, Plan, NormalizeChange, Trim, Trimmed, FindVersion, RollbackDescription, RollbackChange, Acceptable, NormalFeeds;
    FindExact(s, input.targetVersion);
    var target := s.versions[input.targetVersion - 1];
    var raw := RollbackChange(Current(s), target);
    VersionShape(s, input.targetVersion - 1);
    NormalizeChangeIdempotent(raw);
    AcceptedExactly(Current(s), NormalizeChange(raw));
    RollbackUpserts(Current(s), target);
    AcceptableDistinct(Current(s), NormalizeChange(raw));
    SortedDistinctKeys(target.feeds, FeedAsset);
  }

  lemma AcceptableDistinct(current: CatalogPolicy, change: CatalogChange)
    requires Acceptable(current, change)
    ensures DistinctAssets(change.upserts)
  {
    hide Project, Diff, Touched, GuardRails;
  }

  /** Whatever happens between proposing a rollback to version v and activating it, the version it
      publishes has exactly the feed list of version v. */
  lemma RollbackRestores(s: State, input: RollbackInput, now: int, events: seq<Event>,
                         actor: string, executions: seq<Execution>, r: Restrictions, later: int)
    requires Inv(s) && CreateRollback(s, input, now).result.Ok?
    requires var o := CreateRollback(s, input, now);
      Activate(Run(o.state, events), o.result.value.id, actor, executions, r, later).result.Ok?
    ensures var o := CreateRollback(s, input, now);
      var t := Activate(Run(o.state, events), o.result.value.id, actor, executions, r, later).state;
      && 1 <= input.targetVersion <= |s.versions|
      && Current(t).feeds == s.versions[input.targetVersion - 1].feeds
      && t.versions == s.versions + [Current(t)] && Inv(t)
  {
    hide Inv, Run, CreateRollback, Activate, NormalizeChange, Project, NormalFeeds, OrderedFeeds, SortedFeeds;
    var o := CreateRollback(s, input, now);
    RollbackTargetOrdered(s, input, now);
    RollbackStored(s, input, now);
    RollbackKeeps(s, input, now);
    var id := o.result.value.id;
    var m := Run(o.state, events);
    RunKeeps(o.state, events);
    RunKeepsChange(o.state, events, id);
    HistoryAppendOnly(o.state, events);
    ActivationPublishes(m, id, actor, executions, r, later);
    LiveVersion(s);
    RollbackBase(Current(s), s.versions[input.targetVersion - 1]);
    assert m.proposals[id].change.baseVersion == |s.versions|;
    assert Current(m) == Current(s);
    VersionShape(s, |s.versions| - 1);
    VersionShape(s, input.targetVersion - 1);
    RollbackProjects(Current(s), s.versions[input.targetVersion - 1]);
    ActivateKeeps(m, id, actor, executions, r, later);
  }

  /** `t` is reached from `s` by proposing a rollback to version `v`, then any events, then
      activating that proposal. */
  ghost predicate RolledBack(s: State, v: int, t: State) {
    exists input: RollbackInput, now: int, events: seq<Event>, actor: string, executions: seq<Execution>,
           r: Restrictions, later: int ::
      && input.targetVersion == v
      && CreateRollback(s, input, now).result.Ok?
      && Activate(Run(CreateRollback(s, input, now).state, events), CreateRollback(s, input, now).result.value.id,
                  actor, executions, r, later)
         == Outcome(t, Activate(Run(CreateRollback(s, input, now).state, events), CreateRollback(s, input, now).result.value.id,
                                actor, executions, r, later).result)
      && Activate(Run(CreateRollback(s, input, now).state, events), CreateRollback(s, input, now).result.value.id,
                  actor, executions, r, later).result.Ok?
  }

  lemma RolledBackRestores(s: State, v: int, t: State)
    requires Inv(s) && RolledBack(s, v, t)
    ensures 1 <= v <= |s.versions| && Current(t).feeds == s.versions[v - 1].feeds
    ensures t.versions == s.versions + [Current(t)] && Inv(t)
  {
    hide Inv, Run, CreateRollback, Activate, OrderedFeeds;
    var input: RollbackInput, now: int, events: seq<Event>, actor: string, executions: seq<Execution>,
        r: Restrictions, later: int :|
      && input.targetVersion == v
      && CreateRollback(s, input, now).result.Ok?
      && Activate(Run(CreateRollback(s, input, now).state, events), CreateRollback(s, input, now).result.value.id,
                  actor, executions, r, later)
         == Outcome(t, Activate(Run(CreateRollback(s, input, now).state, events), CreateRollback(s, input, now).result.value.id,
                                actor, executions, r, later).result)
      && Activate(Run(CreateRollback(s, input, now).state, events), CreateRollback(s, input, now).result.value.id,
                  actor, executions, r, later).result.Ok?;
    RollbackRestores(s, input, now, events, actor, executions, r, later);
  }

  /** Rolling back to the version a rollback replaced restores its feed list, whatever happened in
      between. */
  lemma RollbackUndone(s: State, v: int, t: State, events: seq<Event>, u: State)
    requires Inv(s) && RolledBack(s, v, t) && RolledBack(Run(t, events), |s.versions|, u)
    ensures Current(u).feeds == Current(s).feeds
  {
    hide Inv, RolledBack, Run;
    RolledBackRestores(s, v, t);
    RunKeeps(t, events);
    HistoryAppendOnly(t, events);
    RolledBackRestores(Run(t, events), |s.versions|, u);
  }

  // ── When a rollback can be proposed ───────────────────────────────────────

  lemma KeysOfOrdered(feeds: seq<FeedPolicy>)
    requires OrderedFeeds(feeds)
    ensures DistinctAssets(feeds)
    ensures |Index(feeds).Keys| == |feeds|
  {
    hide Index;
    FeedListOfIndex(feeds);
  }

  /** A rollback between two sound policies passes validation exactly when the feed lists differ
      and the whole target together with the assets it lacks counts at most one hundred. */
  lemma RollbackAcceptedExactly(current: CatalogPolicy, target: CatalogPolicy)
    requires NormalFeeds(current.feeds) && OrderedFeeds(current.feeds) && NormalFeeds(target.feeds) && OrderedFeeds(target.feeds)
    requires Sound(current.feeds) && Sound(target.feeds)
    ensures Validate(current, RollbackChange(current, target)).errors == [] <==>
      && target.feeds != current.feeds
      && |target.feeds| + |Index(current.feeds).Keys - Index(target.feeds).Keys| <= MAX_FEEDS_PER_CHANGE
  {
    hide Validate, NormalizeChange, Project, Diff, Touched, NormalFeeds, GuardRails, Index, Listing, RemovedAssets, OrderedFeeds;
    var change := NormalizeChange(RollbackChange(current, target));
    AcceptedExactly(current, RollbackChange(current, target));
    RollbackProjects(current, target);
    RollbackRemovals(current, target);
    OrderedSorted(target.feeds);
    RollbackUpserts(current, target);
    DiffEmptyExactly(current.feeds, target.feeds);
    KeysOfOrdered(target.feeds);
    assert NormalizeChange(RollbackChange(current, target)).baseVersion == current.version by { RollbackBase(current, target); }
    assert target.feeds != [];
  }

  lemma RollbackBase(current: CatalogPolicy, target: CatalogPolicy)
    ensures NormalizeChange(RollbackChange(current, target)).baseVersion == current.version
  {
    hide NormalizeFeeds, Sort, SortedUnique, NormalizeAssets, RemovedAssets;
  }

  // ── A catalog too wide to roll back to ────────────────────────────────────

  /** Two-letter tickers in ascending order. */
  function Ticker(i: nat): (r: string)
    requires i < 676
    ensures ValidTicker(r)
  {
    [(65 + i / 26) as char, (65 + i % 26) as char]
  }

  lemma TickersAscend(i: nat, j: nat)
    requires i < j < 676
    ensures Lt(Ticker(i), Ticker(j))
  {
    var a, b := Ticker(i), Ticker(j);
    assert i / 26 < j / 26 || (i / 26 == j / 26 && i % 26 < j % 26);
    assert a[1..][0] == a[1] && b[1..][0] == b[1];
    assert a != b by { assert a[0] != b[0] || a[1] != b[1]; }
  }

  function PlainFeed(asset: string, staleness: int): FeedPolicy {
    FeedPolicy(asset, ["band", "chainlink"], 2, 100, staleness, Some(Standard), Some(10), Some(DEFAULT_QUOTE_UNIT), true)
  }

  function WideCatalog(n: nat, staleness: int): (r: seq<FeedPolicy>)
    requires n <= 676
    ensures |r| == n && forall i :: 0 <= i < n ==> r[i] == PlainFeed(Ticker(i), staleness)
  {
    seq(n, i requires 0 <= i < n => PlainFeed(Ticker(i), staleness))
  }

  lemma PlainFeedSound(i: nat, staleness: int)
    requires i < 676 && 20 <= staleness <= 3600
    ensures GuardRails(PlainFeed(Ticker(i), staleness)) && NormalFeed(PlainFeed(Ticker(i), staleness))
  {
    hide NormalizeAsset, NormalizeSource, StrictlySortedBy, CATALOG_SOURCES, ValidTicker;
    TickerNormal(i);
    PlainSources();
  }

  lemma TickerNormal(i: nat)
    requires i < 676
    ensures NormalizeAsset(Ticker(i)) == Ticker(i)
  {
    hide NormalizeAsset;
    var t := Ticker(i);
    forall k | 0 <= k < |t| ensures !IsSpace(t[k]) && UpperChar(t[k]) == t[k] { assert 'A' <= t[k] <= 'Z'; }
    AlreadyNormal(t);
  }

  lemma LowercaseNormal(s: string)
    requires s != "" && forall i :: 0 <= i < |s| ==> 'a' <= s[i] <= 'z'
    ensures NormalizeSource(s) == s
  {
    hide NormalizeSource;
    forall i | 0 <= i < |s| ensures !IsSpace(s[i]) && LowerChar(s[i]) == s[i] { }
    AlreadyNormal(s);
  }

  lemma PlainSources()
    ensures StrictlySortedBy(["band", "chainlink"], Self)
    ensures forall s :: s in ["band", "chainlink"] ==> NormalizeSource(s) == s
    ensures forall s :: s in ["band", "chainlink"] ==> s in CATALOG_SOURCES
  {
    hide NormalizeSource;
    LowercaseNormal("band");
    LowercaseNormal("chainlink");
    assert Lt("band", "chainlink");
  }

  lemma WideCatalogSound(n: nat, staleness: int)
    requires 0 < n <= 676 && 20 <= staleness <= 3600
    ensures Sound(WideCatalog(n, staleness)) && NormalFeeds(WideCatalog(n, staleness)) && OrderedFeeds(WideCatalog(n, staleness))
  {
    hide GuardRails, NormalFeed, Ticker;
    var feeds := WideCatalog(n, staleness);
    forall f | f in feeds ensures GuardRails(f) && NormalFeed(f) {
      var i :| 0 <= i < |feeds| && feeds[i] == f;
      PlainFeedSound(i, staleness);
    }
    assert feeds[0].enabled;
    forall i, j | 0 <= i < j < n ensures Lt(feeds[i].asset, feeds[j].asset) { TickersAscend(i, j); }
  }

  // ── A reachable rollback that is too wide ─────────────────────────────────

  lemma OrderReplaced(feeds: seq<FeedPolicy>, i: nat, f: FeedPolicy)
    requires OrderedFeeds(feeds) && i < |feeds| && feeds[i].asset == f.asset
    ensures OrderedFeeds(feeds[i := f])
  {
    hide Lt;
  }

  lemma ReplacedMap(feeds: seq<FeedPolicy>, f: FeedPolicy, base: int, kind: ChangeKind)
    ensures ProjectMap(feeds, CatalogChange(base, kind, [f], [])) == Index(feeds)[f.asset := f]
  {
    hide Index;
    SingleIndex(f);
    NoElements();
  }

  lemma NoElements()
    ensures Elements([]) == {}
  {
  }

  lemma ReplacedMembers(feeds: seq<FeedPolicy>, i: nat, f: FeedPolicy, x: FeedPolicy)
    requires OrderedFeeds(feeds) && i < |feeds| && feeds[i].asset == f.asset
    ensures var m := Index(feeds)[f.asset := f]; x in feeds[i := f] <==> x.asset in m && m[x.asset] == x
  {
    hide Index, Lt, Le;
    var next := feeds[i := f];
    if x in next {
      var j :| 0 <= j < |next| && next[j] == x;
      if j != i {
        OrderedDistinct(feeds, i, j);
        OrderedLookup(feeds, x);
      }
    }
    if x.asset == f.asset {
      assert next[i] == f;
    } else if x.asset in Index(feeds) && Index(feeds)[x.asset] == x {
      var j :| 0 <= j < |feeds| && feeds[j] == x;
      assert next[j] == x;
    }
  }

  lemma OrderedDistinct(feeds: seq<FeedPolicy>, i: nat, j: nat)
    requires OrderedFeeds(feeds) && i < |feeds| && j < |feeds| && i != j
    ensures feeds[i].asset != feeds[j].asset
  {
    hide Le;
    assert if i < j then Lt(FeedAsset(feeds[i]), FeedAsset(feeds[j])) else Lt(FeedAsset(feeds[j]), FeedAsset(feeds[i]));
  }

  /** Upserting one feed of an ordered list replaces it in place. */
  lemma UpsertReplaces(feeds: seq<FeedPolicy>, i: nat, f: FeedPolicy, base: int, kind: ChangeKind)
    requires OrderedFeeds(feeds) && i < |feeds| && feeds[i].asset == f.asset
    ensures OrderedFeeds(feeds[i := f]) && Project(feeds, CatalogChange(base, kind, [f], [])) == feeds[i := f]
  {
    hide Index, ProjectMap, Lt;
    var change := CatalogChange(base, kind, [f], []);
    OrderReplaced(feeds, i, f);
    ReplacedMap(feeds, f, base, kind);
    forall x ensures x in Project(feeds, change) <==> x in feeds[i := f] { ReplacedMembers(feeds, i, f, x); }
    StrictlySortedUnique(Project(feeds, change), feeds[i := f], FeedAsset);
  }

  lemma SingleIndex(f: FeedPolicy)
    ensures Index([f]) == map[f.asset := f]
  {
    assert [f][..0] == [];
  }

  /** The wide catalog with one feed made stricter. */
  function Narrowed(): (r: seq<FeedPolicy>) { WideCatalog(101, 60)[0 := PlainFeed(Ticker(0), 30)] }

  const NARROWING: CatalogChange := CatalogChange(1, Ordinary, [PlainFeed(Ticker(0), 30)], [])

  const ADDRESSES: Addresses := map["band" := "GB", "chainlink" := "GC"]

  lemma NarrowedSound()
    ensures Sound(Narrowed()) && NormalFeeds(Narrowed()) && OrderedFeeds(Narrowed()) && Narrowed() != WideCatalog(101, 60)
    ensures Project(WideCatalog(101, 60), NARROWING) == Narrowed()
  {
    hide GuardRails, NormalFeed, Ticker, Project;
    WideCatalogSound(101, 60);
    PlainFeedSound(0, 30);
    UpsertReplaces(WideCatalog(101, 60), 0, PlainFeed(Ticker(0), 30), 1, Ordinary);
    var wide := WideCatalog(101, 60);
    forall f | f in Narrowed() ensures GuardRails(f) && NormalFeed(f) {
      var i :| 0 <= i < |Narrowed()| && Narrowed()[i] == f;
      if i > 0 { assert f == wide[i]; }
    }
    assert Narrowed()[0].enabled && Narrowed()[0] != wide[0];
  }

  lemma NarrowingNormal()
    ensures NormalizeChange(NARROWING) == NARROWING
  {
    hide NormalFeed, NormalizeChange, Ticker, NormalizeAsset;
    PlainFeedSound(0, 30);
    NormalChangeFixed(NARROWING);
  }

  lemma WideGenesis()
    ensures Genesis(WideCatalog(101, 60)) == State([CatalogPolicy(1, 0, None, WideCatalog(101, 60))], map[], 0)
  {
    hide NormalFeeds, Sort, NormalizeFeeds, WideCatalog;
    WideCatalogSound(101, 60);
    NormalFeedsFixed(WideCatalog(101, 60));
    SortIdentity(WideCatalog(101, 60), FeedAsset);
  }

  lemma AcceptableUpsert(current: CatalogPolicy, f: FeedPolicy, base: int)
    requires base == current.version && GuardRails(f)
    requires var next := Project(current.feeds, CatalogChange(base, Ordinary, [f], []));
             SomeEnabled(next) && Touched(Diff(current.feeds, next)) != []
    ensures Acceptable(current, CatalogChange(base, Ordinary, [f], []))
  {
    hide Project, Diff, Touched, GuardRails, Index, SomeEnabled;
  }

  lemma NarrowingAcceptable()
    ensures Acceptable(CatalogPolicy(1, 0, None, WideCatalog(101, 60)), NARROWING)
  {
    hide Project, Diff, Touched, GuardRails, NormalFeed, Index, Ticker, WideCatalog, Narrowed, OrderedFeeds, NormalFeeds, Acceptable, PlainFeed;
    NarrowedSound();
    WideCatalogSound(101, 60);
    PlainFeedSound(0, 30);
    DiffEmptyExactly(WideCatalog(101, 60), Narrowed());
    AcceptableUpsert(CatalogPolicy(1, 0, None, WideCatalog(101, 60)), PlainFeed(Ticker(0), 30), 1);
  }

  lemma NarrowingAccepted()
    ensures var v := Validate(CatalogPolicy(1, 0, None, WideCatalog(101, 60)), NARROWING); v.errors == [] && v.nextFeeds == Narrowed()
  {
    hide NormalizeChange, Project, Diff, WideCatalog, Narrowed, Findings, Acceptable, NARROWING, HighImpact;
    NarrowingNormal();
    NarrowedSound();
    NarrowingAcceptable();
    AcceptedExactly(CatalogPolicy(1, 0, None, WideCatalog(101, 60)), NARROWING);
  }

  lemma PlainProviders(feeds: seq<FeedPolicy>, s: string)
    requires (forall f :: f in feeds ==> f.sources == ["band", "chainlink"]) && s in EnabledSources(feeds)
    ensures HasAddress(ADDRESSES, s)
  {
  }

  lemma NarrowingAddresses()
    ensures Plan(WideCatalog(101, 60), Narrowed(), ADDRESSES).missingSourceAddresses == []
  {
    hide Plan, EnabledSources, HasAddress, Ticker;
    var wide := WideCatalog(101, 60);
    forall f | f in Narrowed() ensures f.sources == ["band", "chainlink"] {
      var i :| 0 <= i < |Narrowed()| && Narrowed()[i] == f;
      if i > 0 { assert f == wide[i]; }
    }
    forall s | s in EnabledSources(wide) + EnabledSources(Narrowed()) ensures HasAddress(ADDRESSES, s) {
      if s in EnabledSources(wide) { PlainProviders(wide, s); } else { PlainProviders(Narrowed(), s); }
    }
    NoMissingExact(wide, Narrowed(), ADDRESSES);
  }

  lemma LowercaseTrimmed(s: string)
    requires s != "" && forall i :: 0 <= i < |s| ==> 'a' <= s[i] <= 'z'
    ensures Trimmed(s) && Trim(s) == s
  {
    hide Trim;
    assert !IsSpace(s[0]) && !IsSpace(s[|s| - 1]);
  }

  lemma NarrowingProposed(now: int)
    ensures CreateProposal(Genesis(WideCatalog(101, 60)), ProposalInput("ann", "tighten", NARROWING, ADDRESSES), now).result.Ok?
  {
    hide Genesis, Validate, Plan, NormalizeChange, Trim, WideCatalog, Narrowed, NARROWING, ADDRESSES;
    WideGenesis();
    NarrowingNormal();
    NarrowingAccepted();
    NarrowingAddresses();
    LowercaseTrimmed("ann");
    LowercaseTrimmed("tighten");
  }

  lemma Panel(n: nat) returns (reviewers: seq<string>)
    requires 2 <= n <= 3
    ensures |reviewers| == n && Independents(reviewers, "ann")
  {
    hide Trimmed;
    var a, b, c := "bob", "cat", "dan";
    LowercaseTrimmed(a);
    LowercaseTrimmed(b);
    LowercaseTrimmed(c);
    assert a[0] != b[0] && a[0] != c[0] && b[0] != c[0] && a[0] != "ann"[0] && b[0] != "ann"[0] && c[0] != "ann"[0];
    reviewers := if n == 2 then [a, b] else [a, b, c];
  }

  /** A run of the engine: a catalog of one hundred and one feeds, of which one is made stricter. */
  lemma NarrowingActivated(now: int) returns (events: seq<Event>)
    ensures var s := Run(Genesis(WideCatalog(101, 60)), events);
      && |s.versions| == 2 && s.versions[0].version == 1 && s.versions[0].feeds == WideCatalog(101, 60)
      && Current(s).version == 2 && Current(s).feeds == Narrowed()
  {
    hide Run, Genesis, CreateProposal, NormalizeChange, Project, Trim, WideCatalog, Narrowed, Independents;
    var s := Genesis(WideCatalog(101, 60));
    var input := ProposalInput("ann", "tighten", NARROWING, ADDRESSES);
    NarrowingProposed(now);
    WideGenesis();
    NarrowedSound();
    NarrowingNormal();
    LowercaseTrimmed("ann");
    ProposalFields(s, input, now);
    var reviewers := Panel(CreateProposal(s, input, now).result.value.requiredApprovals);
    events := EveryProposalCanBeActivated(s, input, now, reviewers, "ann");
  }

  lemma ProposalFields(s: State, input: ProposalInput, now: int)
    requires CreateProposal(s, input, now).result.Ok?
    ensures var p := CreateProposal(s, input, now).result.value; p.proposer == Trim(input.proposer) && 2 <= p.requiredApprovals <= 3
  {
    hide Validate, Plan, NormalizeChange, Trim;
  }

  /** In that run the two versions differ in one bound of one feed, and rolling back is refused, whoever
      asks and whenever: the rollback names all one hundred and one feeds. */
  lemma WideRollbackRefused(now: int, addresses: Addresses, later: int) returns (events: seq<Event>)
    ensures var s := Run(Genesis(WideCatalog(101, 60)), events);
      && |s.versions| == 2 && s.versions[0].feeds == WideCatalog(101, 60)
      && s.versions[1].feeds == s.versions[0].feeds[0 := PlainFeed(Ticker(0), 30)]
      && CreateRollback(s, RollbackInput("ann", 1, Some("undo"), addresses), later).result == Err(CatalogPolicyInvalid)
  {
    hide Run, Genesis, Validate, NormalFeeds, OrderedFeeds, Sound, Index, Ticker, WideCatalog, RollbackChange, CreateRollback;
    events := NarrowingActivated(now);
    var s := Run(Genesis(WideCatalog(101, 60)), events);
    WideCatalogSound(101, 60);
    NarrowedSound();
    RollbackAcceptedExactly(Current(s), s.versions[0]);
    FirstVersion(s.versions);
    RefusedRollback(s, RollbackInput("ann", 1, Some("undo"), addresses), s.versions[0], later);
  }

  lemma RefusedRollback(s: State, input: RollbackInput, target: CatalogPolicy, now: int)
    requires input.targetVersion != Current(s).version && FindVersion(s.versions, input.targetVersion) == Some(target)
    requires input.proposer == "ann" && input.description == Some("undo")
    requires Validate(Current(s), RollbackChange(Current(s), target)).errors != []
    ensures CreateRollback(s, input, now).result == Err(CatalogPolicyInvalid)
  {
    hide Validate, NormalizeChange, Trim, FindVersion, Plan, RollbackChange;
    ValidateNormalized(Current(s), RollbackChange(Current(s), target));
    LowercaseTrimmed("ann");
    LowercaseTrimmed("undo");
  }

  lemma FirstVersion(versions: seq<CatalogPolicy>)
    requires versions != [] && versions[0].version == 1
    ensures FindVersion(versions, 1) == Some(versions[0])
  {
  }

  lemma ValidateNormalized(current: CatalogPolicy, raw: CatalogChange)
    ensures Validate(current, NormalizeChange(raw)) == Validate(current, raw)
  {
    hide NormalizeChange, Project, Diff, Findings;
    NormalizeChangeIdempotent(raw);
  }
}
