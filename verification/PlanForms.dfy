/** What a plan says, in the fields of the two feed lists, and that its digest tells plans apart. */
module PlanForms {
  import opened Ordering
  import opened CanonicalJson
  import opened FeedPolicies
  import opened FeedForms
  import opened FeedEncoding
  import opened OnChainPlans

  // ── Actions ───────────────────────────────────────────────────────────────

  ghost predicate Publishes(feeds: seq<FeedPolicy>, asset: string) {
    exists f :: LastOf(feeds, f) && f.asset == asset && f.enabled
  }

  ghost predicate Uses(feeds: seq<FeedPolicy>, source: string) { exists f :: f in feeds && f.enabled && source in f.sources }

  lemma PublishesIndexed(feeds: seq<FeedPolicy>, asset: string)
    ensures Publishes(feeds, asset) <==> asset in Index(feeds) && Index(feeds)[asset].enabled
  {
    hide Index, LastOf;
    if asset in Index(feeds) { IndexMeans(feeds, Index(feeds)[asset]); }
    if f :| LastOf(feeds, f) && f.asset == asset && f.enabled { IndexMeans(feeds, f); }
  }

  lemma UsesEnabled(feeds: seq<FeedPolicy>, source: string)
    ensures Uses(feeds, source) <==> source in EnabledSources(feeds)
  {
  }

  /** An asset is newly trusted, or no longer, exactly when it starts or stops being published; a provider is
      added or removed exactly when it starts or stops being used; the threshold is set exactly when all
      enabled feeds come to share one. */
  lemma PlanMeans(before: seq<FeedPolicy>, after: seq<FeedPolicy>, addresses: Addresses, x: Action)
    ensures x in Plan(before, after, addresses).actions <==> match x
      case SetTrustedAsset(k, true) => Publishes(after, k) && !Publishes(before, k)
      case SetTrustedAsset(k, false) => Publishes(before, k) && !Publishes(after, k)
      case AddSource(address, s) => Uses(after, s) && !Uses(before, s) && s in addresses && address == addresses[s] && address != ""
      case RemoveSource(address) =>
        address != "" && exists s :: Uses(before, s) && !Uses(after, s) && s in addresses && address == addresses[s]
      case SetDeviationThreshold(t) =>
        && (exists f :: f in after && f.enabled) && (forall f :: f in after && f.enabled ==> f.maxDeviationBps == t)
        && !((exists f :: f in before && f.enabled) && (forall f :: f in before && f.enabled ==> f.maxDeviationBps == t))
  {
    hide Plan, Index, EnabledSources, Publishes, Uses, Shared;
    PlanExact(before, after, addresses, x);
    match x
    case SetTrustedAsset(k, _) =>
      PublishesIndexed(before, k);
      PublishesIndexed(after, k);
    case AddSource(_, s) =>
      UsesEnabled(before, s);
      UsesEnabled(after, s);
    case RemoveSource(_) =>
      forall s ensures (Uses(before, s) <==> s in EnabledSources(before)) && (Uses(after, s) <==> s in EnabledSources(after)) {
        UsesEnabled(before, s);
        UsesEnabled(after, s);
      }
    case SetDeviationThreshold(t) =>
      SharedMeans(before, t);
      SharedMeans(after, t);
  }

  lemma SharedMeans(feeds: seq<FeedPolicy>, t: int)
    ensures Shared(feeds, t) <==> (exists f :: f in feeds && f.enabled) && (forall f :: f in feeds && f.enabled ==> f.maxDeviationBps == t)
  {
    if exists i :: 0 <= i < |feeds| && feeds[i].enabled {
      var i :| 0 <= i < |feeds| && feeds[i].enabled;
      assert feeds[i] in feeds;
    }
  }

  // ── Missing addresses and parameters kept off the chain ───────────────────

  lemma {:induction false} MissingMembers(sources: seq<string>, addresses: Addresses, s: string)
    ensures s in Missing(sources, addresses) <==> s in sources && !HasAddress(addresses, s)
  {
    if sources != [] {
      MissingMembers(sources[..|sources| - 1], addresses, s);
      assert sources == sources[..|sources| - 1] + [sources[|sources| - 1]];
    }
  }

  /** A provider is reported missing exactly when it starts or stops being used and has no address. */
  lemma MissingMeans(before: seq<FeedPolicy>, after: seq<FeedPolicy>, addresses: Addresses, s: string)
    ensures s in Plan(before, after, addresses).missingSourceAddresses <==>
      (Uses(before, s) <==> !Uses(after, s)) && (s !in addresses || addresses[s] == "")
  {
    hide EnabledSources, Uses, Sort, Listing, Missing, Actions, OffChain, PlanDigest;
    UsesEnabled(before, s);
    UsesEnabled(after, s);
    var up, down := Listing(EnabledSources(after) - EnabledSources(before)), Listing(EnabledSources(before) - EnabledSources(after));
    MissingMembers(up, addresses, s);
    MissingMembers(down, addresses, s);
    SortCorrect(Missing(up, addresses) + Missing(down, addresses), Self);
  }

  /** A feed that is new, or whose field differs from the one before. */
  ghost predicate Moves(before: seq<FeedPolicy>, after: seq<FeedPolicy>, minimum: bool) {
    exists g :: g in after && forall f :: LastOf(before, f) && f.asset == g.asset ==>
      if minimum then f.minSources != g.minSources else f.stalenessSeconds != g.stalenessSeconds
  }

  lemma MovesIndexed(before: seq<FeedPolicy>, after: seq<FeedPolicy>)
    ensures MinSourcesMoved(Index(before), after) <==> Moves(before, after, true)
    ensures StalenessMoved(Index(before), after) <==> Moves(before, after, false)
  {
    hide Index, LastOf;
    forall g: FeedPolicy ensures g.asset in Index(before) ==> LastOf(before, Index(before)[g.asset]) {
      if g.asset in Index(before) { IndexMeans(before, Index(before)[g.asset]); }
    }
    forall f ensures LastOf(before, f) ==> f.asset in Index(before) && Index(before)[f.asset] == f { IndexMeans(before, f); }
  }

  /** Two enabled feeds differ in their threshold. */
  ghost predicate Disagree(feeds: seq<FeedPolicy>) {
    exists f, g :: f in feeds && g in feeds && f.enabled && g.enabled && f.maxDeviationBps != g.maxDeviationBps
  }

  lemma DisagreeExactly(feeds: seq<FeedPolicy>)
    ensures |Thresholds(feeds)| > 1 <==> Disagree(feeds)
  {
    hide EnabledBps, Dedupe;
    var ts := Thresholds(feeds);
    assert forall t :: t in ts <==> t in EnabledBps(feeds);
    if |ts| > 1 {
      TwoDiffer(ts);
      assert ts[0] in ts && ts[1] in ts;
      var i :| 0 <= i < |feeds| && feeds[i].enabled && feeds[i].maxDeviationBps == ts[0];
      var j :| 0 <= j < |feeds| && feeds[j].enabled && feeds[j].maxDeviationBps == ts[1];
      assert feeds[i] in feeds && feeds[j] in feeds;
    }
    if Disagree(feeds) {
      var f, g :| f in feeds && g in feeds && f.enabled && g.enabled && f.maxDeviationBps != g.maxDeviationBps;
      assert f.maxDeviationBps in ts && g.maxDeviationBps in ts;
    }
  }

  /** The parameters a plan leaves to the services: the threshold when enabled feeds disagree on it, and the
      minimum and the staleness bound when some feed is new or changes its own. */
  lemma OffChainMeans(before: seq<FeedPolicy>, after: seq<FeedPolicy>, addresses: Addresses, name: string)
    ensures name in Plan(before, after, addresses).offChainParameters <==>
      || (name == "maxDeviationBps (per feed)" && Disagree(after))
      || (name == "minSources" && Moves(before, after, true))
      || (name == "stalenessSeconds" && Moves(before, after, false))
  {
    hide Actions, MissingAddresses, PlanDigest, Sort, Thresholds, MinSourcesMoved, StalenessMoved, Moves, Disagree, Index, Dedupe;
    DisagreeExactly(after);
    MovesIndexed(before, after);
    var names := (if |Thresholds(after)| > 1 then ["maxDeviationBps (per feed)"] else [])
                 + (if MinSourcesMoved(Index(before), after) then ["minSources"] else [])
                 + (if StalenessMoved(Index(before), after) then ["stalenessSeconds"] else []);
    SortedUniqueCorrect(names);
  }

  // ── The digest ────────────────────────────────────────────────────────────

  lemma NamesDiffer(a: Action, b: Action)
    requires ActionName(a) == ActionName(b)
    ensures a.SetTrustedAsset? == b.SetTrustedAsset? && a.AddSource? == b.AddSource? && a.RemoveSource? == b.RemoveSource?
  {
    assert |"SetTrustedAsset"| == 15 && |"AddSource"| == 9 && |"RemoveSource"| == 12 && |"SetDeviationThreshold"| == 21;
  }

  function ParamEntries(a: Action): (r: seq<Entry>)
    ensures ParamsJson(a) == Obj(r)
  {
    ParamsJson(a).entries
  }

  lemma ParamsDistinct(a: Action)
    ensures DistinctKeys(ParamEntries(a)) && Valid(ParamsJson(a))
  {
    var e := ParamEntries(a);
    if a.SetTrustedAsset? { assert |e[0].key| == 5 && |e[1].key| == 7; }
    if a.AddSource? { assert |e[0].key| == 6 && |e[1].key| == 4; }
  }

  lemma ParamsInjective(a: Action, b: Action)
    requires a.SetTrustedAsset? == b.SetTrustedAsset? && a.AddSource? == b.AddSource? && a.RemoveSource? == b.RemoveSource?
    requires Normal(ParamsJson(a)) == Normal(ParamsJson(b))
    ensures a == b
  {
    hide Normal, DistinctKeys;
    ParamsDistinct(a);
    ParamsDistinct(b);
    var x, y := ParamEntries(a), ParamEntries(b);
    SameKeysSameFields(x, y, 0);
    PlainNormal(x[0].value);
    PlainNormal(y[0].value);
    if a.SetTrustedAsset? || a.AddSource? {
      SameKeysSameFields(x, y, 1);
      PlainNormal(x[1].value);
      PlainNormal(y[1].value);
    }
    if a.SetDeviationThreshold? { DecimalInjective(a.thresholdBps, b.thresholdBps); }
  }

  lemma PlainNormal(v: Json)
    requires v.Str? || v.Bool? || v.Number?
    ensures Normal(v) == v
  {
  }

  function ActionEntries(a: Action): seq<Entry> { [Entry("action", Str(ActionName(a))), Entry("params", ParamsJson(a))] }

  lemma ActionValid(a: Action)
    ensures DistinctKeys(ActionEntries(a)) && Valid(ActionJson(a))
  {
    hide ParamsJson, ActionName;
    ParamsDistinct(a);
    var e := ActionEntries(a);
    assert e[0].key[0] == 'a' && e[1].key[0] == 'p';
  }

  lemma ActionInjective(a: Action, b: Action)
    requires Normal(ActionJson(a)) == Normal(ActionJson(b))
    ensures a == b
  {
    hide Normal, DistinctKeys, ParamsJson, ActionName;
    ActionValid(a);
    ActionValid(b);
    SameKeysSameFields(ActionEntries(a), ActionEntries(b), 0);
    SameKeysSameFields(ActionEntries(a), ActionEntries(b), 1);
    PlainNormal(Str(ActionName(a)));
    PlainNormal(Str(ActionName(b)));
    NamesDiffer(a, b);
    ParamsInjective(a, b);
  }

  function ActionItems(actions: seq<Action>): (r: seq<Json>)
    ensures |r| == |actions| && forall i :: 0 <= i < |actions| ==> r[i] == ActionJson(actions[i])
  {
    seq(|actions|, i requires 0 <= i < |actions| => ActionJson(actions[i]))
  }

  lemma {:induction false} ItemsNormal(items: seq<Json>, i: nat)
    requires i < |items|
    ensures NormalItems(items)[i] == Normal(items[i])
  {
    hide Normal;
    if i > 0 { ItemsNormal(items[1..], i - 1); }
  }

  lemma ActionsInjective(a: seq<Action>, b: seq<Action>)
    requires Normal(Arr(ActionItems(a))) == Normal(Arr(ActionItems(b)))
    ensures a == b
  {
    hide ActionJson;
    var x, y := ActionItems(a), ActionItems(b);
    assert NormalItems(x) == NormalItems(y);
    assert |a| == |b|;
    forall i | 0 <= i < |a| ensures a[i] == b[i] {
      ItemsNormal(x, i);
      ItemsNormal(y, i);
      ActionInjective(a[i], b[i]);
    }
  }

  function DigestEntries(actions: seq<Action>, offChain: seq<string>): seq<Entry> {
    [Entry("actions", Arr(ActionItems(actions))), Entry("offChainParameters", SourcesJson(offChain))]
  }

  lemma DigestValid(actions: seq<Action>, offChain: seq<string>)
    ensures DistinctKeys(DigestEntries(actions, offChain)) && Valid(Obj(DigestEntries(actions, offChain)))
    ensures PlanDigest(actions, offChain) == Sha256(Canonical(Obj(DigestEntries(actions, offChain))))
  {
    hide ActionJson, Canonical;
    var e := DigestEntries(actions, offChain);
    forall i | 0 <= i < |actions| ensures Valid(ActionItems(actions)[i]) { ActionValid(actions[i]); }
    assert Valid(e[0].value);
    assert Valid(e[1].value);
    assert |e[0].key| == 7 && |e[1].key| == 18;
  }

  /** Two plans have the same digest exactly when they hold the same actions and the same parameters. */
  lemma DigestExact(a: seq<Action>, b: seq<Action>, p: seq<string>, q: seq<string>)
    ensures PlanDigest(a, p) == PlanDigest(b, q) <==> a == b && p == q
  {
    hide Normal, DistinctKeys, PlanDigest, Canonical, Valid;
    DigestValid(a, p);
    DigestValid(b, q);
    var x, y := DigestEntries(a, p), DigestEntries(b, q);
    CanonicalExact(Obj(x), Obj(y));
    if Normal(Obj(x)) == Normal(Obj(y)) {
      SameKeysSameFields(x, y, 0);
      SameKeysSameFields(x, y, 1);
      ActionsInjective(a, b);
      SourcesInjective(p, q);
    }
  }
}
