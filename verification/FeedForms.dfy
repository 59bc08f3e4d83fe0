/** What normalisation and projection do to the fields of a feed and the entries of a list. */
module FeedForms {
  import opened Wrappers
  import opened Text
  import opened Ordering
  import opened FeedPolicies

  // ── Normalisation ─────────────────────────────────────────────────────────

  /** A ticker is trimmed and its letters made upper case; a provider name is trimmed and made lower
      case. */
  lemma NamesMean(s: string) returns (i: nat, j: nat)
    ensures i <= j <= |s| && forall k :: 0 <= k < i || j <= k < |s| ==> IsSpace(s[k])
    ensures i < j ==> !IsSpace(s[i]) && !IsSpace(s[j - 1])
    ensures |NormalizeAsset(s)| == j - i && |NormalizeSource(s)| == j - i
    ensures forall k :: 0 <= k < j - i ==> NormalizeAsset(s)[k] == UpperChar(s[i + k]) && NormalizeSource(s)[k] == LowerChar(s[i + k])
  {
    hide IsSpace, UpperChar, LowerChar, Trim;
    i, j := TrimMeans(s);
    assert forall k :: 0 <= k < j - i ==> Trim(s)[k] == s[i + k];
  }

  /** The bound before which a profile warns. */
  function ProfileWarning(p: FreshnessProfile): int { if p == Realtime then 10 else if p == Standard then 60 else 300 }

  /** A normalised feed: names in canonical case, each provider once in order, and the gaps filled with the
      standard profile, its warning bound within the staleness bound, and eight decimals of a dollar. */
  lemma NormalizeFeedMeans(feed: FeedPolicy)
    ensures var r := NormalizeFeed(feed);
      && r.asset == NormalizeAsset(feed.asset)
      && StrictlySortedBy(r.sources, Self)
      && (forall x :: x in r.sources <==> exists i :: 0 <= i < |feed.sources| && x == NormalizeSource(feed.sources[i]))
      && r.minSources == feed.minSources && r.maxDeviationBps == feed.maxDeviationBps
      && r.stalenessSeconds == feed.stalenessSeconds && r.enabled == feed.enabled
      && r.freshnessProfile == (if feed.freshnessProfile.Some? then feed.freshnessProfile else Some(Standard))
      && (feed.freshnessWarnSeconds.Some? ==> r.freshnessWarnSeconds == feed.freshnessWarnSeconds)
      && (feed.freshnessWarnSeconds.None? ==>
            && r.freshnessWarnSeconds.Some?
            && var bound := ProfileWarning(r.freshnessProfile.value);
               r.freshnessWarnSeconds.value == if bound < feed.stalenessSeconds then bound else feed.stalenessSeconds - 1)
      && r.quoteUnit == (if feed.quoteUnit.Some? then feed.quoteUnit else Some(QuoteUnit(USD, "USD_PER_ASSET_UNIT", 8, 4, HalfEven)))
  {
    hide NormalizeAsset, NormalizeSource, StrictlySortedBy, SortedUnique;
    StandardByDefault(NormalizeAsset(feed.asset));
    ProvidersMean(feed.sources);
  }

  lemma StandardByDefault(asset: string)
    ensures DefaultProfile(asset) == Standard
  {
  }

  lemma ProvidersMean(sources: seq<string>)
    ensures StrictlySortedBy(NormalizeSources(sources), Self)
    ensures forall x :: x in NormalizeSources(sources) <==> exists i :: 0 <= i < |sources| && x == NormalizeSource(sources[i])
  {
    hide NormalizeSource, StrictlySortedBy, SortedUnique;
    var names := seq(|sources|, i requires 0 <= i < |sources| => NormalizeSource(sources[i]));
    SortedUniqueCorrect(names);
    forall x ensures x in NormalizeSources(sources) <==> exists i :: 0 <= i < |sources| && x == NormalizeSource(sources[i]) {
      if x in names {
        var i :| 0 <= i < |names| && names[i] == x;
        assert x == NormalizeSource(sources[i]);
      }
      if i :| 0 <= i < |sources| && x == NormalizeSource(sources[i]) { assert names[i] == x; }
    }
  }

  /** A normalised change: the same base and kind, the normalised upserts in the order of their assets,
      repetitions kept, and each removal once in order. */
  lemma NormalizeChangeMeans(change: CatalogChange)
    ensures var r := NormalizeChange(change);
      && r.baseVersion == change.baseVersion && r.kind == change.kind
      && SortedBy(r.upserts, FeedAsset) && |r.upserts| == |change.upserts|
      && multiset(r.upserts) == multiset(NormalizeFeeds(change.upserts))
      && StrictlySortedBy(r.removals, Self)
      && (forall x :: x in r.removals <==> exists i :: 0 <= i < |change.removals| && x == NormalizeAsset(change.removals[i]))
  {
    hide NormalizeAsset, NormalizeFeed, StrictlySortedBy, SortedBy, SortedUnique, Sort;
    var feeds, names := NormalizeFeeds(change.upserts), NormalizeAssets(change.removals);
    SortCorrect(feeds, FeedAsset);
    SortPermutes(feeds, FeedAsset);
    PermutationElements(Sort(feeds, FeedAsset), feeds);
    SortedUniqueCorrect(names);
    forall x ensures x in SortedUnique(names) <==> exists i :: 0 <= i < |change.removals| && x == NormalizeAsset(change.removals[i]) {
      if x in names {
        var i :| 0 <= i < |names| && names[i] == x;
        assert x == NormalizeAsset(change.removals[i]);
      }
      if i :| 0 <= i < |change.removals| && x == NormalizeAsset(change.removals[i]) { assert names[i] == x; }
    }
  }

  // ── Lists as maps ─────────────────────────────────────────────────────────

  /** The feed is the last of the list with its asset. */
  ghost predicate LastOf(feeds: seq<FeedPolicy>, f: FeedPolicy) {
    exists i :: 0 <= i < |feeds| && feeds[i] == f && forall j :: i < j < |feeds| ==> feeds[j].asset != f.asset
  }

  lemma LastOfPush(feeds: seq<FeedPolicy>, f: FeedPolicy)
    requires feeds != []
    ensures var n := |feeds| - 1;
      LastOf(feeds, f) <==> feeds[n] == f || (feeds[n].asset != f.asset && LastOf(feeds[..n], f))
  {
    var n := |feeds| - 1;
    if feeds[n] == f { assert LastOf(feeds, f); }
    if LastOf(feeds[..n], f) && feeds[n].asset != f.asset {
      var i :| 0 <= i < n && feeds[..n][i] == f && forall j :: i < j < n ==> feeds[..n][j].asset != f.asset;
      forall j | i < j < |feeds| ensures feeds[j].asset != f.asset { if j < n { assert feeds[..n][j].asset != f.asset; } }
      assert feeds[i] == f;
    }
    if LastOf(feeds, f) && feeds[n] != f {
      var i :| 0 <= i < |feeds| && feeds[i] == f && forall j :: i < j < |feeds| ==> feeds[j].asset != f.asset;
      assert feeds[..n][i] == f;
    }
  }

  lemma IndexPush(feeds: seq<FeedPolicy>)
    requires feeds != []
    ensures var n := |feeds| - 1; Index(feeds) == Index(feeds[..n])[feeds[n].asset := feeds[n]]
  {
  }

  lemma NoIndex()
    ensures Index([]) == map[]
  {
  }

  lemma {:induction false} IndexMeans(feeds: seq<FeedPolicy>, f: FeedPolicy)
    ensures f.asset in Index(feeds) && Index(feeds)[f.asset] == f <==> LastOf(feeds, f)
  {
    hide Index;
    if feeds == [] {
      NoIndex();
    } else {
      hide LastOf;
      IndexMeans(feeds[..|feeds| - 1], f);
      LastOfPush(feeds, f);
      IndexPush(feeds);
    }
  }

  lemma HasAsset(feeds: seq<FeedPolicy>, a: string)
    ensures a in Index(feeds) <==> exists f :: f in feeds && f.asset == a
  {
    hide Index;
    if a in Index(feeds) { assert Index(feeds)[a] in feeds; }
  }

  /** A change yields its upserts, the last one of each asset, and the feeds of the list, again the last one
      of each asset, that it neither upserts nor removes; ordered by asset. */
  lemma ProjectMeans(feeds: seq<FeedPolicy>, change: CatalogChange, f: FeedPolicy)
    ensures f in Project(feeds, change) <==>
      || LastOf(change.upserts, f)
      || (LastOf(feeds, f) && f.asset !in change.removals && forall u :: u in change.upserts ==> u.asset != f.asset)
    ensures OrderedFeeds(Project(feeds, change))
  {
    hide Index, LastOf, FeedList, OrderedFeeds;
    IndexMeans(feeds, f);
    IndexMeans(change.upserts, f);
    HasAsset(change.upserts, f.asset);
  }
}
