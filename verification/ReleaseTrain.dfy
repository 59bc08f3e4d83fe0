/** The staged release train: a manifest orders the regions of a release, and a gate decides from
    reported health whether to promote the next region, hold, or halt. */
module ReleaseTrain {
  import opened Wrappers
  import opened Ordering

  // ── Manifests and health ──────────────────────────────────────────────────

  datatype Criteria = Criteria(max1h: real, max6h: real, max24h: real, minBudget: real, minWindows: int)

  datatype PartialCriteria = PartialCriteria(max1h: Option<real>, max6h: Option<real>, max24h: Option<real>,
                                             minBudget: Option<real>, minWindows: Option<int>)

  datatype HaltLimits = HaltLimits(on1h: real, on6h: real, onBudget: real, onUnavailable: bool)

  datatype PartialHalt = PartialHalt(on1h: Option<real>, on6h: Option<real>, onBudget: Option<real>, onUnavailable: Option<bool>)

  datatype Region = Region(name: string, order: int, trafficBps: real, soakMinutes: real, criteria: PartialCriteria, halt: PartialHalt)

  datatype Manifest = Manifest(releaseId: string, regions: seq<Region>, criteria: Option<PartialCriteria>, halt: Option<PartialHalt>)

  datatype Metrics = Metrics(burn1h: real, burn6h: real, burn24h: real, budget: real, available: Option<bool>)

  datatype Health = Health(name: string, metrics: Metrics, promoted: Option<bool>, soakElapsed: Option<real>, windows: Option<int>)

  const DEFAULT_CRITERIA: Criteria := Criteria(14.4, 6.0, 3.0, 25.0, 2)
  const DEFAULT_HALT: HaltLimits := HaltLimits(14.4, 6.0, 0.0, true)

  /** The innermost setting wins: the region's, then the manifest's, then the default. */
  function Pick<T>(fallback: T, global: Option<T>, region: Option<T>): T {
    if region.Some? then region.value else if global.Some? then global.value else fallback
  }

  function ResolveCriteria(g: PartialCriteria, r: PartialCriteria): Criteria {
    Criteria(Pick(DEFAULT_CRITERIA.max1h, g.max1h, r.max1h), Pick(DEFAULT_CRITERIA.max6h, g.max6h, r.max6h),
             Pick(DEFAULT_CRITERIA.max24h, g.max24h, r.max24h), Pick(DEFAULT_CRITERIA.minBudget, g.minBudget, r.minBudget),
             Pick(DEFAULT_CRITERIA.minWindows, g.minWindows, r.minWindows))
  }

  function ResolveHalt(g: PartialHalt, r: PartialHalt): HaltLimits {
    HaltLimits(Pick(DEFAULT_HALT.on1h, g.on1h, r.on1h), Pick(DEFAULT_HALT.on6h, g.on6h, r.on6h),
               Pick(DEFAULT_HALT.onBudget, g.onBudget, r.onBudget), Pick(DEFAULT_HALT.onUnavailable, g.onUnavailable, r.onUnavailable))
  }

  // ── Sorting by order ──────────────────────────────────────────────────────

  function Place(r: Region, s: seq<Region>): seq<Region> {
    if s == [] || r.order < s[|s| - 1].order then
      if s == [] then [r] else Place(r, s[..|s| - 1]) + [s[|s| - 1]]
    else s + [r]
  }

  function Arranged(regions: seq<Region>): seq<Region> {
    if regions == [] then [] else Place(regions[|regions| - 1], Arranged(regions[..|regions| - 1]))
  }

  ghost predicate InOrder(s: seq<Region>) { forall i, j :: 0 <= i < j < |s| ==> s[i].order <= s[j].order }

  lemma {:induction false} PlacePermutes(r: Region, s: seq<Region>)
    ensures multiset(Place(r, s)) == multiset(s) + multiset{r}
  {
    if s != [] && r.order < s[|s| - 1].order {
      PlacePermutes(r, s[..|s| - 1]);
      assert s == s[..|s| - 1] + [s[|s| - 1]];
    }
  }

  lemma OrderAppends(s: seq<Region>, r: Region)
    requires InOrder(s) && forall x :: x in s ==> x.order <= r.order
    ensures InOrder(s + [r])
  {
    forall i | 0 <= i < |s| ensures s[i].order <= r.order { assert s[i] in s; }
  }

  lemma PlaceMembers(r: Region, s: seq<Region>, x: Region)
    requires x in Place(r, s)
    ensures x == r || x in s
  {
    hide Place;
    PlacePermutes(r, s);
    assert x in multiset(Place(r, s));
  }

  lemma {:induction false} PlaceInOrder(r: Region, s: seq<Region>)
    requires InOrder(s)
    ensures InOrder(Place(r, s))
  {
    if s != [] {
      var n := |s| - 1;
      if r.order < s[n].order {
        PlaceInOrder(r, s[..n]);
        forall x | x in Place(r, s[..n]) ensures x.order <= s[n].order { PlaceMembers(r, s[..n], x); }
        OrderAppends(Place(r, s[..n]), s[n]);
      } else {
        OrderAppends(s, r);
      }
    }
  }

  lemma {:induction false} ArrangedCorrect(regions: seq<Region>)
    ensures InOrder(Arranged(regions)) && multiset(Arranged(regions)) == multiset(regions)
  {
    hide Place, InOrder;
    if regions == [] {
      NothingInOrder();
    } else {
      var n := |regions| - 1;
      ArrangedCorrect(regions[..n]);
      PlacePermutes(regions[n], Arranged(regions[..n]));
      PlaceInOrder(regions[n], Arranged(regions[..n]));
      assert regions == regions[..n] + [regions[n]];
    }
  }

  lemma NothingInOrder()
    ensures InOrder([])
  {
  }

  lemma {:induction false} PlaceAt(r: Region, s: seq<Region>, j: nat)
    requires j <= |s| && (j > 0 ==> s[j - 1].order <= r.order) && forall k :: j <= k < |s| ==> r.order < s[k].order
    ensures Place(r, s) == s[..j] + [r] + s[j..]
    decreases |s|
  {
    if j < |s| {
      var n := |s| - 1;
      PlaceAt(r, s[..n], j);
      assert s[..n][..j] == s[..j] && s[..n][j..] + [s[n]] == s[j..];
    } else {
      assert s[..j] + [r] + s[j..] == s + [r];
    }
  }

  method SortByOrder(regions: seq<Region>) returns (s: seq<Region>)
    ensures s == Arranged(regions)
  {
    hide Place;
    s := [];
    for i := 0 to |regions|
      invariant s == Arranged(regions[..i])
    {
      assert regions[..i + 1][..i] == regions[..i];
      var j := |s|;
      while j > 0 && regions[i].order < s[j - 1].order
        invariant 0 <= j <= |s| && forall k :: j <= k < |s| ==> regions[i].order < s[k].order
      {
        j := j - 1;
      }
      PlaceAt(regions[i], s, j);
      s := s[..j] + [regions[i]] + s[j..];
    }
    assert regions[..|regions|] == regions;
  }

  // ── Which manifests are accepted ──────────────────────────────────────────

  datatype Problem =
    | EmptyReleaseId | NoRegions | EmptyName | DuplicateName(name: string) | InvalidOrder(name: string) | DuplicateOrder(order: int)
    | InvalidTraffic(name: string) | InvalidSoak(name: string) | NotContiguous | NoCriteria | NoHaltConditions

  predicate RegionOk(r: Region) {
    r.name != "" && r.order >= 0 && 0.0 <= r.trafficBps <= 10000.0 && r.soakMinutes >= 0.0
  }

  ghost predicate Distinct(regions: seq<Region>) {
    forall i, j :: 0 <= i < j < |regions| ==> regions[i].name != regions[j].name && regions[i].order != regions[j].order
  }

  ghost predicate AllOk(regions: seq<Region>) {
    (forall i :: 0 <= i < |regions| ==> RegionOk(regions[i])) && Distinct(regions)
  }

  ghost predicate Accepted(m: Manifest) {
    && m.releaseId != "" && m.regions != [] && AllOk(m.regions)
    && (forall i :: 0 <= i < |m.regions| ==> m.regions[i].order < |m.regions|)
    && m.criteria.Some? && m.halt.Some?
  }

  ghost predicate ExplainsRegions(regions: seq<Region>, p: Problem) {
    match p
    case EmptyName => exists i :: 0 <= i < |regions| && regions[i].name == ""
    case DuplicateName(n) => exists i, j :: 0 <= i < j < |regions| && regions[i].name == n == regions[j].name
    case InvalidOrder(n) => exists i :: 0 <= i < |regions| && regions[i].name == n && regions[i].order < 0
    case DuplicateOrder(o) => exists i, j :: 0 <= i < j < |regions| && regions[i].order == o == regions[j].order
    case InvalidTraffic(n) => exists i :: 0 <= i < |regions| && regions[i].name == n && !(0.0 <= regions[i].trafficBps <= 10000.0)
    case InvalidSoak(n) => exists i :: 0 <= i < |regions| && regions[i].name == n && regions[i].soakMinutes < 0.0
    case _ => false
  }

  /** The reported problem is one the manifest has. */
  ghost predicate Explains(m: Manifest, p: Problem) {
    match p
    case EmptyReleaseId => m.releaseId == ""
    case NoRegions => m.regions == []
    case NotContiguous => exists i :: 0 <= i < |m.regions| && m.regions[i].order >= |m.regions|
    case NoCriteria => m.criteria.None?
    case NoHaltConditions => m.halt.None?
    case _ => ExplainsRegions(m.regions, p)
  }

  ghost predicate Contiguous(s: seq<Region>) { forall i :: 0 <= i < |s| ==> s[i].order == i }

  lemma ArrangedStrict(regions: seq<Region>)
    requires AllOk(regions)
    ensures var s := Arranged(regions);
            |s| == |regions| && AllOk(s) && SameElements(s, regions) && forall i, j :: 0 <= i < j < |s| ==> s[i].order < s[j].order
  {
    hide Arranged, RegionOk;
    ArrangedCorrect(regions);
    PermutationElements(Arranged(regions), regions);
    DistinctCarries(regions, Arranged(regions));
    forall i | 0 <= i < |Arranged(regions)| ensures RegionOk(Arranged(regions)[i]) { assert Arranged(regions)[i] in regions; }
  }

  /** Distinct names and orders do not depend on how the regions are listed. */
  lemma DistinctCarries(a: seq<Region>, b: seq<Region>)
    requires Distinct(a) && multiset(a) == multiset(b)
    ensures Distinct(b)
  {
    assert NoDuplicates(a);
    NoDuplicatesByMultiset(a, b);
    PermutationElements(a, b);
    forall i, j | 0 <= i < j < |b| ensures b[i].name != b[j].name && b[i].order != b[j].order {
      assert b[i] in a && b[j] in a && b[i] != b[j];
    }
  }

  lemma {:induction false} AtLeast(s: seq<Region>, i: nat)
    requires i < |s| && AllOk(s) && forall a, b :: 0 <= a < b < |s| ==> s[a].order < s[b].order
    ensures s[i].order >= i
  {
    assert RegionOk(s[i]);
    if i > 0 { AtLeast(s, i - 1); }
  }

  lemma {:induction false} AtMost(s: seq<Region>, i: nat, top: int)
    requires i < |s| && s[|s| - 1].order <= top && forall a, b :: 0 <= a < b < |s| ==> s[a].order < s[b].order
    ensures s[i].order <= top - (|s| - 1 - i)
    decreases |s| - i
  {
    if i < |s| - 1 { AtMost(s, i + 1, top); }
  }

  /** Sorted distinct orders run 0, 1, 2, ... exactly when none reaches the number of regions. */
  lemma ContiguousExactly(regions: seq<Region>)
    requires AllOk(regions)
    ensures Contiguous(Arranged(regions)) <==> forall i :: 0 <= i < |regions| ==> regions[i].order < |regions|
  {
    hide Arranged, AllOk;
    ArrangedStrict(regions);
    var s := Arranged(regions);
    if forall i :: 0 <= i < |regions| ==> regions[i].order < |regions| {
      forall i | 0 <= i < |s| ensures s[i].order == i {
        assert s[|s| - 1] in regions;
        AtLeast(s, i);
        AtMost(s, i, |s| - 1);
      }
    }
    if Contiguous(s) {
      forall i | 0 <= i < |regions| ensures regions[i].order < |regions| {
        assert regions[i] in s;
        var j :| 0 <= j < |s| && s[j] == regions[i];
        assert s[j].order == j;
      }
    }
  }

  method ValidateRegions(regions: seq<Region>) returns (problem: Option<Problem>)
    ensures problem.None? <==> AllOk(regions)
    ensures problem.Some? ==> ExplainsRegions(regions, problem.value)
  {
    hide RegionOk;
    var seenNames: set<string>, seenOrders: set<int> := {}, {};
    for i := 0 to |regions|
      invariant AllOk(regions[..i])
      invariant forall x :: x in seenNames <==> exists j :: 0 <= j < i && regions[j].name == x
      invariant forall x :: x in seenOrders <==> exists j :: 0 <= j < i && regions[j].order == x
    {
      var region := regions[i];
      assert region.name in seenNames || region.order in seenOrders || !RegionOk(region) ==> !AllOk(regions) by {
        if AllOk(regions) { assert RegionOk(regions[i]) && Distinct(regions); }
      }
      if region.name == "" { Unfit(region); return Some(EmptyName); }
      if region.name in seenNames { return Some(DuplicateName(region.name)); }
      seenNames := seenNames + {region.name};
      if region.order < 0 { Unfit(region); return Some(InvalidOrder(region.name)); }
      if region.order in seenOrders { return Some(DuplicateOrder(region.order)); }
      seenOrders := seenOrders + {region.order};
      if region.trafficBps < 0.0 || region.trafficBps > 10000.0 { Unfit(region); return Some(InvalidTraffic(region.name)); }
      if region.soakMinutes < 0.0 { Unfit(region); return Some(InvalidSoak(region.name)); }
      Fit(region);
      assert regions[..i + 1] == regions[..i] + [region];
    }
    assert regions[..|regions|] == regions;
    return None;
  }

  lemma Unfit(r: Region)
    requires r.name == "" || r.order < 0 || r.trafficBps < 0.0 || r.trafficBps > 10000.0 || r.soakMinutes < 0.0
    ensures !RegionOk(r)
  {
  }

  lemma Fit(r: Region)
    requires r.name != "" && r.order >= 0 && 0.0 <= r.trafficBps <= 10000.0 && r.soakMinutes >= 0.0
    ensures RegionOk(r)
  {
  }

  lemma RegionsExplain(m: Manifest, p: Problem)
    requires ExplainsRegions(m.regions, p)
    ensures Explains(m, p)
  {
  }

  method ValidateReleaseTrainManifest(m: Manifest) returns (problem: Option<Problem>)
    ensures problem.None? <==> Accepted(m)
    ensures problem.Some? ==> Explains(m, problem.value)
  {
    hide AllOk, Arranged, ExplainsRegions;
    if m.releaseId == "" { return Some(EmptyReleaseId); }
    if |m.regions| == 0 { return Some(NoRegions); }
    var p := ValidateRegions(m.regions);
    if p.Some? { RegionsExplain(m, p.value); return p; }
    var ordered := SortByOrder(m.regions);
    ContiguousExactly(m.regions);
    for i := 0 to |ordered|
      invariant forall j :: 0 <= j < i ==> ordered[j].order == j
    {
      if ordered[i].order != i { return Some(NotContiguous); }
    }
    if m.criteria.None? { return Some(NoCriteria); }
    if m.halt.None? { return Some(NoHaltConditions); }
    return None;
  }

  /** The orders of an accepted manifest are a permutation of 0 to n-1: every position has exactly one
      region, which is where sorting puts it. */
  lemma OrdersArePermutation(m: Manifest, k: nat, r: Region)
    requires Accepted(m) && k < |m.regions|
    ensures |Arranged(m.regions)| == |m.regions|
    ensures r in m.regions && r.order == k <==> r == Arranged(m.regions)[k]
  {
    hide Arranged, AllOk;
    ContiguousExactly(m.regions);
    ArrangedStrict(m.regions);
    var s := Arranged(m.regions);
    if r in m.regions && r.order == k {
      assert r in s;
      var j :| 0 <= j < |s| && s[j] == r;
      assert s[j].order == j;
    }
    assert s[k] in m.regions;
  }

  // ── evaluateReleaseTrain ──────────────────────────────────────────────────

  /** The last record reported for a region. */
  function HealthOf(health: seq<Health>, name: string): Option<Health> {
    if health == [] then None
    else if health[|health| - 1].name == name then Some(health[|health| - 1]) else HealthOf(health[..|health| - 1], name)
  }

  predicate IsPromoted(h: Option<Health>) { h.Some? && h.value.promoted == Some(true) }

  predicate Trips(h: HaltLimits, m: Metrics) {
    || (h.onUnavailable && m.available == Some(false))
    || m.burn1h >= h.on1h || m.burn6h >= h.on6h || m.budget <= h.onBudget
  }

  predicate Meets(c: Criteria, r: Region, h: Health) {
    && h.metrics.available != Some(false)
    && h.metrics.burn1h < c.max1h && h.metrics.burn6h < c.max6h && h.metrics.burn24h < c.max24h
    && h.metrics.budget >= c.minBudget
    && (if h.soakElapsed.Some? then h.soakElapsed.value else 0.0) >= r.soakMinutes
    && (if h.windows.Some? then h.windows.value else 0) >= c.minWindows
  }

  datatype Status = Status(name: string, order: int, promoted: bool, eligible: bool)

  datatype Verdict = Promote(region: string) | Hold(complete: bool) | Halt(halted: string, current: Option<string>)

  datatype Evaluation = Evaluation(verdict: Verdict, statuses: seq<Status>)

  predicate Tripping(m: Manifest, health: seq<Health>, r: Region)
    requires m.criteria.Some? && m.halt.Some?
  {
    var h := HealthOf(health, r.name);
    h.Some? && Trips(ResolveHalt(m.halt.value, r.halt), h.value.metrics)
  }

  predicate Fitting(m: Manifest, health: seq<Health>, r: Region)
    requires m.criteria.Some? && m.halt.Some?
  {
    var h := HealthOf(health, r.name);
    h.Some? && Meets(ResolveCriteria(m.criteria.value, r.criteria), r, h.value)
  }

  ghost predicate PriorPromoted(health: seq<Health>, s: seq<Region>, i: nat)
    requires i <= |s|
  {
    forall j :: 0 <= j < i ==> IsPromoted(HealthOf(health, s[j].name))
  }

  /** Region `i` halts the train: it is promoted or next in line, and trips a halt condition. */
  ghost predicate Halting(m: Manifest, health: seq<Health>, s: seq<Region>, i: nat)
    requires m.criteria.Some? && m.halt.Some? && i < |s|
  {
    Tripping(m, health, s[i]) && (IsPromoted(HealthOf(health, s[i].name)) || PriorPromoted(health, s, i))
  }

  /** Region `i` is next in line and fit to be promoted. */
  ghost predicate Ready(m: Manifest, health: seq<Health>, s: seq<Region>, i: nat)
    requires m.criteria.Some? && m.halt.Some? && i < |s|
  {
    && PriorPromoted(health, s, i) && !IsPromoted(HealthOf(health, s[i].name))
    && !Tripping(m, health, s[i]) && Fitting(m, health, s[i])
  }

  /** What the loop has found among the first `i` regions. */
  ghost predicate Found(m: Manifest, health: seq<Health>, s: seq<Region>, i: nat, halted: Option<string>, current: Option<string>)
    requires m.criteria.Some? && m.halt.Some? && i <= |s|
  {
    && (halted.None? ==> forall j :: 0 <= j < i ==> !Halting(m, health, s, j))
    && (halted.Some? ==> exists j :: 0 <= j < i && FirstHalting(m, health, s, j) && s[j].name == halted.value)
    && (current.None? ==> forall j :: 0 <= j < i ==> !Ready(m, health, s, j))
    && (current.Some? ==> exists j :: 0 <= j < i && Ready(m, health, s, j) && s[j].name == current.value)
  }

  ghost predicate FirstHalting(m: Manifest, health: seq<Health>, s: seq<Region>, i: nat)
    requires m.criteria.Some? && m.halt.Some? && i < |s|
  {
    Halting(m, health, s, i) && forall j :: 0 <= j < i ==> !Halting(m, health, s, j)
  }

  ghost predicate Reported(m: Manifest, health: seq<Health>, s: seq<Region>, statuses: seq<Status>)
    requires m.criteria.Some? && m.halt.Some? && |statuses| <= |s|
  {
    forall j :: 0 <= j < |statuses| ==>
      && statuses[j].name == s[j].name && statuses[j].order == s[j].order
      && statuses[j].promoted == IsPromoted(HealthOf(health, s[j].name))
      && (statuses[j].eligible <==> Ready(m, health, s, j))
  }

  method IndexHealth(health: seq<Health>) returns (byName: map<string, Health>)
    ensures forall n :: n in byName <==> HealthOf(health, n).Some?
    ensures forall n :: n in byName ==> byName[n] == HealthOf(health, n).value
  {
    byName := map[];
    for i := 0 to |health|
      invariant forall n :: n in byName <==> HealthOf(health[..i], n).Some?
      invariant forall n :: n in byName ==> byName[n] == HealthOf(health[..i], n).value
    {
      assert health[..i + 1][..i] == health[..i];
      byName := byName[health[i].name := health[i]];
    }
    assert health[..|health|] == health;
  }

  method EvaluateRegion(m: Manifest, r: Region, h: Option<Health>, allPriorPromoted: bool)
    returns (promoted: bool, haltTriggered: bool, eligible: bool)
    requires m.criteria.Some? && m.halt.Some?
    ensures promoted == IsPromoted(h)
    ensures haltTriggered <==> h.Some? && (promoted || allPriorPromoted) && Trips(ResolveHalt(m.halt.value, r.halt), h.value.metrics)
    ensures eligible <==> h.Some? && !promoted && allPriorPromoted && !haltTriggered && Meets(ResolveCriteria(m.criteria.value, r.criteria), r, h.value)
  {
    hide ResolveCriteria, ResolveHalt;
    promoted, haltTriggered, eligible := false, false, false;
    if h.None? { return; }
    var criteria := ResolveCriteria(m.criteria.value, r.criteria);
    var halt := ResolveHalt(m.halt.value, r.halt);
    var x := h.value.metrics;
    promoted := h.value.promoted == Some(true);
    if promoted || allPriorPromoted {
      if halt.onUnavailable && x.available == Some(false) { haltTriggered := true; }
      if x.burn1h >= halt.on1h { haltTriggered := true; }
      if x.burn6h >= halt.on6h { haltTriggered := true; }
      if x.budget <= halt.onBudget { haltTriggered := true; }
    }
    if !promoted && allPriorPromoted && !haltTriggered {
      var soaked := if h.value.soakElapsed.Some? then h.value.soakElapsed.value else 0.0;
      var windows := if h.value.windows.Some? then h.value.windows.value else 0;
      if x.available == Some(false) {
      } else if x.burn1h >= criteria.max1h {
      } else if x.burn6h >= criteria.max6h {
      } else if x.burn24h >= criteria.max24h {
      } else if x.budget < criteria.minBudget {
      } else if soaked < r.soakMinutes {
      } else if windows < criteria.minWindows {
      } else {
        eligible := true;
      }
    }
  }

  /** A malformed manifest is refused. Otherwise the train halts exactly when a region halts it, naming
      the first; else it promotes exactly when a region is ready, naming it; else it holds. */
  method EvaluateReleaseTrain(m: Manifest, health: seq<Health>) returns (r: Result<Evaluation, Problem>)
    ensures r.Ok? <==> Accepted(m)
    ensures r.Err? ==> Explains(m, r.error)
    ensures r.Ok? ==> Decides(m, health, Arranged(m.regions), r.value)
  {
    hide Arranged, Accepted, Explains, Halting, Ready, Trips, Meets, ResolveCriteria, ResolveHalt, IsPromoted;
    var problem := ValidateReleaseTrainManifest(m);
    if problem.Some? { return Err(problem.value); }
    AcceptedSettings(m);
    var byName := IndexHealth(health);
    var ordered := SortByOrder(m.regions);
    var statuses: seq<Status> := [];
    var halted: Option<string>, current: Option<string> := None, None;
    var allPriorPromoted := true;
    for i := 0 to |ordered|
      invariant |statuses| == i && Reported(m, health, ordered, statuses)
      invariant Found(m, health, ordered, i, halted, current)
      invariant allPriorPromoted <==> PriorPromoted(health, ordered, i)
    {
      var region := ordered[i];
      var h := if region.name in byName then Some(byName[region.name]) else None;
      assert h == HealthOf(health, region.name);
      var promoted, haltTriggered, eligible := EvaluateRegion(m, region, h, allPriorPromoted);
      RegionFound(m, health, ordered, i, allPriorPromoted, haltTriggered, eligible);
      PriorNext(health, ordered, i);
      if haltTriggered && halted.None? { halted := Some(region.name); }
      statuses := statuses + [Status(region.name, region.order, promoted, eligible)];
      if eligible && current.None? { current := Some(region.name); }
      if !promoted { allPriorPromoted := false; }
    }
    if halted.Some? { return Ok(Evaluation(Halt(halted.value, current), statuses)); }
    if current.Some? { return Ok(Evaluation(Promote(current.value), statuses)); }
    return Ok(Evaluation(Hold(allPriorPromoted), statuses));
  }

  lemma AcceptedSettings(m: Manifest)
    requires Accepted(m)
    ensures m.criteria.Some? && m.halt.Some?
  {
  }

  lemma PriorNext(health: seq<Health>, s: seq<Region>, i: nat)
    requires i < |s|
    ensures PriorPromoted(health, s, i + 1) <==> PriorPromoted(health, s, i) && IsPromoted(HealthOf(health, s[i].name))
  {
    hide IsPromoted, HealthOf;
  }

  lemma RegionFound(m: Manifest, health: seq<Health>, s: seq<Region>, i: nat, prior: bool, haltTriggered: bool, eligible: bool)
    requires m.criteria.Some? && m.halt.Some? && i < |s| && (prior <==> PriorPromoted(health, s, i))
    requires var h := HealthOf(health, s[i].name);
             && (haltTriggered <==> h.Some? && (IsPromoted(h) || prior) && Trips(ResolveHalt(m.halt.value, s[i].halt), h.value.metrics))
             && (eligible <==> h.Some? && !IsPromoted(h) && prior && !haltTriggered && Meets(ResolveCriteria(m.criteria.value, s[i].criteria), s[i], h.value))
    ensures haltTriggered <==> Halting(m, health, s, i)
    ensures eligible <==> Ready(m, health, s, i)
  {
    hide Trips, Meets, ResolveCriteria, ResolveHalt, HealthOf, PriorPromoted;
  }

  ghost predicate Decides(m: Manifest, health: seq<Health>, s: seq<Region>, e: Evaluation)
    requires m.criteria.Some? && m.halt.Some?
  {
    && |e.statuses| == |s| && Reported(m, health, s, e.statuses)
    && match e.verdict
       case Halt(halted, current) => Found(m, health, s, |s|, Some(halted), current)
       case Promote(current) => Found(m, health, s, |s|, None, Some(current))
       case Hold(complete) => Found(m, health, s, |s|, None, None) && (complete <==> PriorPromoted(health, s, |s|))
  }

  // ── What the gate asks of a region ────────────────────────────────────────

  /** Report `k` is the last one on the region. */
  ghost predicate LastReport(health: seq<Health>, name: string, k: int) {
    0 <= k < |health| && health[k].name == name && forall j :: k < j < |health| ==> health[j].name != name
  }

  lemma {:induction false} HealthMeans(health: seq<Health>, name: string)
    ensures HealthOf(health, name).Some? ==> exists k :: LastReport(health, name, k)
    ensures forall k :: LastReport(health, name, k) ==> HealthOf(health, name) == Some(health[k])
  {
    if health != [] {
      var n := |health| - 1;
      HealthMeans(health[..n], name);
      if health[n].name == name {
        assert LastReport(health, name, n);
      } else {
        forall k ensures LastReport(health, name, k) <==> LastReport(health[..n], name, k) { }
      }
    }
  }

  /** Below the limit: the region's, else the manifest's, else the built-in one. */
  ghost predicate Below(x: real, region: Option<real>, manifest: Option<real>, builtIn: real) {
    if region.Some? then x < region.value else if manifest.Some? then x < manifest.value else x < builtIn
  }

  ghost predicate Enough(n: int, region: Option<int>, manifest: Option<int>, builtIn: int) {
    if region.Some? then region.value <= n else if manifest.Some? then manifest.value <= n else builtIn <= n
  }

  /** The report shows a region fit for promotion. */
  ghost predicate Healthy(g: PartialCriteria, r: Region, h: Health) {
    var x, c := h.metrics, r.criteria;
    && x.available != Some(false)
    && Below(x.burn1h, c.max1h, g.max1h, 14.4) && Below(x.burn6h, c.max6h, g.max6h, 6.0) && Below(x.burn24h, c.max24h, g.max24h, 3.0)
    && !Below(x.budget, c.minBudget, g.minBudget, 25.0)
    && (if h.soakElapsed.Some? then r.soakMinutes <= h.soakElapsed.value else r.soakMinutes <= 0.0)
    && Enough(if h.windows.Some? then h.windows.value else 0, c.minWindows, g.minWindows, 2)
  }

  /** The report shows a region that must stop the train. */
  ghost predicate Failing(g: PartialHalt, r: Region, x: Metrics) {
    var c := r.halt;
    || (x.available == Some(false) && (c.onUnavailable == Some(true) || (c.onUnavailable.None? && g.onUnavailable != Some(false))))
    || !Below(x.burn1h, c.on1h, g.on1h, 14.4) || !Below(x.burn6h, c.on6h, g.on6h, 6.0)
    || Below(x.budget, c.onBudget, g.onBudget, 0.0)
    || x.budget == (if c.onBudget.Some? then c.onBudget.value else if g.onBudget.Some? then g.onBudget.value else 0.0)
  }

  lemma MeetsMeans(g: PartialCriteria, r: Region, h: Health)
    ensures Meets(ResolveCriteria(g, r.criteria), r, h) <==> Healthy(g, r, h)
  {
  }

  lemma TripsMeans(g: PartialHalt, r: Region, x: Metrics)
    ensures Trips(ResolveHalt(g, r.halt), x) <==> Failing(g, r, x)
  {
  }

  /** The gate judges a region by its last report, against the region's own limits, the manifest's where the
      region sets none, and the built-in ones where neither does. */
  lemma GateMeans(m: Manifest, health: seq<Health>, r: Region)
    requires m.criteria.Some? && m.halt.Some?
    ensures IsPromoted(HealthOf(health, r.name)) <==> exists k :: LastReport(health, r.name, k) && health[k].promoted == Some(true)
    ensures Fitting(m, health, r) <==> exists k :: LastReport(health, r.name, k) && Healthy(m.criteria.value, r, health[k])
    ensures Tripping(m, health, r) <==> exists k :: LastReport(health, r.name, k) && Failing(m.halt.value, r, health[k].metrics)
  {
    hide HealthOf, Meets, Trips, Healthy, Failing, ResolveCriteria, ResolveHalt, LastReport;
    HealthMeans(health, r.name);
    var h := HealthOf(health, r.name);
    if h.Some? {
      var k :| LastReport(health, r.name, k);
      LastInRange(health, r.name, k);
      MeetsMeans(m.criteria.value, r, health[k]);
      TripsMeans(m.halt.value, r, health[k].metrics);
    }
  }

  lemma LastInRange(health: seq<Health>, name: string, k: int)
    requires LastReport(health, name, k)
    ensures 0 <= k < |health|
  {
  }

  // ── What a promotion means ────────────────────────────────────────────────

  /** A promotion names a region of the manifest that is next in order: all regions of lower order are
      promoted and it is not. It meets its criteria, and no promoted region trips its halt conditions. */
  lemma PromotionSound(m: Manifest, health: seq<Health>, e: Evaluation)
    requires Accepted(m) && Decides(m, health, Arranged(m.regions), e) && e.verdict.Promote?
    ensures exists r :: r in m.regions && r.name == e.verdict.region && Sound(m, health, r)
  {
    hide Arranged, Tripping, Fitting, IsPromoted, HealthOf, AllOk, Reported;
    var s := Arranged(m.regions);
    ContiguousExactly(m.regions);
    ArrangedStrict(m.regions);
    var k :| 0 <= k < |s| && Ready(m, health, s, k) && s[k].name == e.verdict.region;
    assert s[k] in m.regions && s[k].order == k;
    forall r | r in m.regions ensures (r.order < k ==> IsPromoted(HealthOf(health, r.name)))
                                      && (IsPromoted(HealthOf(health, r.name)) ==> !Tripping(m, health, r)) {
      assert r in s;
      var j :| 0 <= j < |s| && s[j] == r;
      assert s[j].order == j;
      assert !Halting(m, health, s, j);
    }
  }

  ghost predicate Sound(m: Manifest, health: seq<Health>, r: Region)
    requires m.criteria.Some? && m.halt.Some?
  {
    && !IsPromoted(HealthOf(health, r.name)) && Fitting(m, health, r) && !Tripping(m, health, r)
    && (forall o :: o in m.regions && o.order < r.order ==> IsPromoted(HealthOf(health, o.name)))
    && (forall o :: o in m.regions && IsPromoted(HealthOf(health, o.name)) ==> !Tripping(m, health, o))
  }

  // ── Driven runs ───────────────────────────────────────────────────────────

  /** The health reports say of a region that it is promoted exactly when it has been. */
  ghost predicate Truthful(health: seq<Health>, done: set<string>) {
    forall n :: HealthOf(health, n).Some? ==> (IsPromoted(HealthOf(health, n)) <==> n in done)
  }

  function Drive(done: set<string>, v: Verdict): set<string> { if v.Promote? then done + {v.region} else done }

  /** A train driven by the gate: each round reports health, evaluates, and promotes what is returned. */
  ghost predicate Driven(m: Manifest, healths: seq<seq<Health>>, evaluations: seq<Evaluation>, states: seq<set<string>>) {
    && Accepted(m) && |states| == |healths| + 1 == |evaluations| + 1 && states[0] == {}
    && forall k :: 0 <= k < |healths| ==>
         && Truthful(healths[k], states[k])
         && Decides(m, healths[k], Arranged(m.regions), evaluations[k])
         && states[k + 1] == Drive(states[k], evaluations[k].verdict)
  }

  /** Exactly the first `p` regions in order are promoted. */
  ghost predicate PrefixPromoted(s: seq<Region>, done: set<string>, p: nat) {
    p <= |s| && forall n :: n in done <==> exists j :: 0 <= j < p && s[j].name == n
  }

  lemma RoundKeepsPrefix(m: Manifest, health: seq<Health>, done: set<string>, p: nat, e: Evaluation) returns (q: nat)
    requires Accepted(m) && Truthful(health, done) && PrefixPromoted(Arranged(m.regions), done, p)
    requires Decides(m, health, Arranged(m.regions), e)
    ensures PrefixPromoted(Arranged(m.regions), Drive(done, e.verdict), q) && p <= q <= p + 1
  {
    hide Arranged, Tripping, AllOk, HealthOf, Reported, Fitting;
    q := p;
    if e.verdict.Promote? {
      var s := Arranged(m.regions);
      var k :| 0 <= k < |s| && Ready(m, health, s, k) && s[k].name == e.verdict.region;
      FittingReported(m, health, s[k]);
      assert s[k].name !in done;
      assert k >= p;
      if k > p {
        assert s[p].name in done;
        SameName(m.regions, p);
        assert false;
      }
      q := p + 1;
    }
  }

  lemma FittingReported(m: Manifest, health: seq<Health>, r: Region)
    requires m.criteria.Some? && m.halt.Some? && Fitting(m, health, r)
    ensures HealthOf(health, r.name).Some?
  {
  }

  lemma SameName(regions: seq<Region>, p: nat)
    requires AllOk(regions) && p < |Arranged(regions)|
    ensures forall j :: 0 <= j < p ==> Arranged(regions)[j].name != Arranged(regions)[p].name
  {
    hide Arranged;
    ArrangedStrict(regions);
  }

  /** A run that promotes only what the gate returns always has an order-prefix of the regions promoted. */
  lemma {:induction false} DrivenPrefix(m: Manifest, healths: seq<seq<Health>>, evaluations: seq<Evaluation>, states: seq<set<string>>, k: nat)
    returns (p: nat)
    requires Driven(m, healths, evaluations, states) && k < |states|
    ensures PrefixPromoted(Arranged(m.regions), states[k], p)
  {
    hide Arranged, Decides, Accepted, Truthful;
    if k == 0 {
      p := 0;
    } else {
      var q := DrivenPrefix(m, healths, evaluations, states, k - 1);
      p := RoundKeepsPrefix(m, healths[k - 1], states[k - 1], q, evaluations[k - 1]);
    }
  }

  // ── Listing order does not matter ─────────────────────────────────────────

  lemma ArrangedSame(a: Manifest, b: Manifest)
    requires Accepted(a) && multiset(a.regions) == multiset(b.regions) && b == a.(regions := b.regions)
    ensures Accepted(b) && Arranged(a.regions) == Arranged(b.regions)
  {
    hide Arranged, RegionOk;
    PermutationElements(a.regions, b.regions);
    DistinctCarries(a.regions, b.regions);
    forall i | 0 <= i < |b.regions| ensures RegionOk(b.regions[i]) && b.regions[i].order < |b.regions| { assert b.regions[i] in a.regions; }
    assert Accepted(b);
    ArrangedStrict(a.regions);
    ArrangedStrict(b.regions);
    var s, t := Arranged(a.regions), Arranged(b.regions);
    forall k | 0 <= k < |s| ensures s[k] == t[k] {
      OrdersArePermutation(a, k, s[k]);
      OrdersArePermutation(b, k, s[k]);
    }
  }

  ghost predicate UniqueNames(health: seq<Health>) { forall i, j :: 0 <= i < j < |health| ==> health[i].name != health[j].name }

  lemma {:induction false} HealthIs(health: seq<Health>, h: Health)
    requires UniqueNames(health)
    ensures HealthOf(health, h.name) == Some(h) <==> h in health
  {
    if health != [] {
      var n := |health| - 1;
      HealthIs(health[..n], h);
      assert health == health[..n] + [health[n]];
      if health[n].name == h.name {
        forall i | 0 <= i < n ensures health[i] != h { assert health[i].name != health[n].name; }
      }
    }
  }

  lemma {:induction false} HealthNamed(health: seq<Health>, name: string)
    ensures HealthOf(health, name).Some? ==> HealthOf(health, name).value.name == name && HealthOf(health, name).value in health
  {
    if health != [] { HealthNamed(health[..|health| - 1], name); }
  }

  lemma HealthSame(a: seq<Health>, b: seq<Health>, name: string)
    requires UniqueNames(a) && UniqueNames(b) && multiset(a) == multiset(b)
    ensures HealthOf(a, name) == HealthOf(b, name)
  {
    hide HealthOf, UniqueNames;
    PermutationElements(a, b);
    HealthNamed(a, name);
    HealthNamed(b, name);
    if HealthOf(a, name).Some? { HealthIs(b, HealthOf(a, name).value); }
    if HealthOf(b, name).Some? { HealthIs(a, HealthOf(b, name).value); }
  }

  /** Manifests and reports that agree in all a decision looks at. */
  ghost predicate Alike(a: Manifest, x: seq<Health>, b: Manifest, y: seq<Health>) {
    a.criteria == b.criteria && a.halt == b.halt && forall n :: HealthOf(x, n) == HealthOf(y, n)
  }

  lemma AlikeRegion(a: Manifest, x: seq<Health>, b: Manifest, y: seq<Health>, s: seq<Region>, i: nat)
    requires Alike(a, x, b, y) && a.criteria.Some? && a.halt.Some? && i < |s|
    ensures PriorPromoted(x, s, i) <==> PriorPromoted(y, s, i)
    ensures Halting(a, x, s, i) <==> Halting(b, y, s, i)
    ensures Ready(a, x, s, i) <==> Ready(b, y, s, i)
  {
    hide HealthOf, IsPromoted, Trips, Meets, ResolveCriteria, ResolveHalt;
    forall j | 0 <= j < i ensures HealthOf(x, s[j].name) == HealthOf(y, s[j].name) {}
  }

  /** At most one region is first to halt the train, and at most one is ready. */
  lemma OneReady(m: Manifest, health: seq<Health>, s: seq<Region>, i: nat, j: nat)
    requires m.criteria.Some? && m.halt.Some? && i < |s| && j < |s| && Ready(m, health, s, i) && Ready(m, health, s, j)
    ensures i == j
  {
    hide HealthOf, IsPromoted, Tripping, Fitting;
  }

  lemma StatusesSame(a: Manifest, x: seq<Health>, b: Manifest, y: seq<Health>, s: seq<Region>, u: seq<Status>, v: seq<Status>)
    requires Alike(a, x, b, y) && a.criteria.Some? && a.halt.Some?
    requires |u| == |s| == |v| && Reported(a, x, s, u) && Reported(b, y, s, v)
    ensures u == v
  {
    hide HealthOf, IsPromoted, Ready, Alike;
    forall k | 0 <= k < |s| ensures u[k] == v[k] {
      AlikeRegion(a, x, b, y, s, k);
      AlikeHealth(a, x, b, y, s[k].name);
    }
  }

  lemma AlikeHealth(a: Manifest, x: seq<Health>, b: Manifest, y: seq<Health>, name: string)
    requires Alike(a, x, b, y)
    ensures HealthOf(x, name) == HealthOf(y, name)
  {
  }

  lemma FoundSame(a: Manifest, x: seq<Health>, b: Manifest, y: seq<Health>, s: seq<Region>,
                  h1: Option<string>, c1: Option<string>, h2: Option<string>, c2: Option<string>)
    requires Alike(a, x, b, y) && a.criteria.Some? && a.halt.Some? && b.criteria.Some? && b.halt.Some?
    requires Found(a, x, s, |s|, h1, c1) && Found(b, y, s, |s|, h2, c2)
    ensures h1 == h2 && c1 == c2
  {
    hide HealthOf, IsPromoted, Ready, Alike, Halting;
    forall k | 0 <= k < |s| ensures (Halting(a, x, s, k) <==> Halting(b, y, s, k)) && (Ready(a, x, s, k) <==> Ready(b, y, s, k)) {
      AlikeRegion(a, x, b, y, s, k);
    }
    if c1.Some? && c2.Some? {
      var i :| 0 <= i < |s| && Ready(a, x, s, i) && s[i].name == c1.value;
      var j :| 0 <= j < |s| && Ready(b, y, s, j) && s[j].name == c2.value;
      OneReady(b, y, s, i, j);
    }
    if h1.Some? && h2.Some? {
      var i :| 0 <= i < |s| && FirstHalting(a, x, s, i) && s[i].name == h1.value;
      var j :| 0 <= j < |s| && FirstHalting(b, y, s, j) && s[j].name == h2.value;
      assert i == j;
    }
  }

  lemma DecidesSame(a: Manifest, x: seq<Health>, b: Manifest, y: seq<Health>, s: seq<Region>, e: Evaluation, f: Evaluation)
    requires Alike(a, x, b, y) && a.criteria.Some? && a.halt.Some? && b.criteria.Some? && b.halt.Some?
    requires Decides(a, x, s, e) && Decides(b, y, s, f)
    ensures e == f
  {
    hide Found, Reported, Alike, PriorPromoted;
    StatusesSame(a, x, b, y, s, e.statuses, f.statuses);
    var h1 := if e.verdict.Halt? then Some(e.verdict.halted) else None;
    var c1 := if e.verdict.Halt? then e.verdict.current else if e.verdict.Promote? then Some(e.verdict.region) else None;
    var h2 := if f.verdict.Halt? then Some(f.verdict.halted) else None;
    var c2 := if f.verdict.Halt? then f.verdict.current else if f.verdict.Promote? then Some(f.verdict.region) else None;
    FoundSame(a, x, b, y, s, h1, c1, h2, c2);
    PriorSame(a, x, b, y, s);
  }

  lemma PriorSame(a: Manifest, x: seq<Health>, b: Manifest, y: seq<Health>, s: seq<Region>)
    requires Alike(a, x, b, y)
    ensures PriorPromoted(x, s, |s|) <==> PriorPromoted(y, s, |s|)
  {
    hide HealthOf, IsPromoted;
    forall j | 0 <= j < |s| ensures HealthOf(x, s[j].name) == HealthOf(y, s[j].name) {}
  }

  /** The evaluation depends neither on the listing order of the regions nor, for uniquely named
      records, on that of the health reports. */
  lemma ListingOrderIrrelevant(a: Manifest, x: seq<Health>, b: Manifest, y: seq<Health>, e: Evaluation, f: Evaluation)
    requires Accepted(a) && multiset(a.regions) == multiset(b.regions) && b == a.(regions := b.regions)
    requires UniqueNames(x) && UniqueNames(y) && multiset(x) == multiset(y)
    requires Decides(a, x, Arranged(a.regions), e)
    ensures Accepted(b) && (Decides(b, y, Arranged(b.regions), f) ==> e == f)
  {
    hide Arranged, Decides, HealthOf, UniqueNames, AllOk;
    ArrangedSame(a, b);
    forall n ensures HealthOf(x, n) == HealthOf(y, n) { HealthSame(x, y, n); }
    if Decides(b, y, Arranged(b.regions), f) { DecidesSame(a, x, b, y, Arranged(a.regions), e, f); }
  }
}
