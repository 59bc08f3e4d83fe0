/** The difference between two feed lists. */
module CatalogDiffs {
  import opened Ordering
  import opened CanonicalJson
  import opened FeedPolicies
  import opened FeedEncoding

  datatype CatalogDiff = CatalogDiff(
    added: seq<string>,
    removed: seq<string>,
    modified: seq<string>,
    same: seq<string>)

  /** The four parts, by structural comparison of the feeds. */
  function Diff(before: seq<FeedPolicy>, after: seq<FeedPolicy>): CatalogDiff {
    var b, a := Index(before), Index(after);
    CatalogDiff(
      Listing(set k | k in a && k !in b),
      Listing(set k | k in b && k !in a),
      Listing(set k | k in a && k in b && b[k] != a[k]),
      Listing(set k | k in a && k in b && b[k] == a[k]))
  }

  function Touched(diff: CatalogDiff): seq<string> {
    diff.added + diff.removed + diff.modified
  }

  ghost predicate Encodes(texts: map<string, string>, feeds: seq<FeedPolicy>) {
    && texts.Keys == Index(feeds).Keys
    && forall k :: k in texts ==> texts[k] == Canonical(FeedJson(Index(feeds)[k]))
  }

  method EncodeFeeds(feeds: seq<FeedPolicy>) returns (texts: map<string, string>)
    ensures Encodes(texts, feeds)
  {
    hide Canonical, FeedJson;
    texts := map[];
    for i := 0 to |feeds|
      invariant Encodes(texts, feeds[..i])
    {
      assert feeds[..i + 1][..i] == feeds[..i];
      texts := texts[feeds[i].asset := Canonical(FeedJson(feeds[i]))];
    }
    assert feeds[..|feeds|] == feeds;
  }

  /** Equal texts under an asset mean equal feeds under it. */
  ghost predicate TextsCompare(beforeTexts: map<string, string>, b: Catalog, afterTexts: map<string, string>, a: Catalog) {
    && beforeTexts.Keys == b.Keys && afterTexts.Keys == a.Keys
    && forall k :: k in b && k in a ==> (beforeTexts[k] == afterTexts[k] <==> b[k] == a[k])
  }

  lemma EncodingsCompare(before: seq<FeedPolicy>, beforeTexts: map<string, string>,
                         after: seq<FeedPolicy>, afterTexts: map<string, string>)
    requires Encodes(beforeTexts, before) && Encodes(afterTexts, after)
    ensures TextsCompare(beforeTexts, Index(before), afterTexts, Index(after))
  {
    forall k | k in beforeTexts && k in afterTexts
      ensures beforeTexts[k] == afterTexts[k] <==> Index(before)[k] == Index(after)[k]
    {
      FeedEncodingExact(Index(before)[k], Index(after)[k]);
    }
  }

  /** The parts the assets in `keys` belong to. */
  ghost predicate PartsOf(keys: set<string>, b: Catalog, a: Catalog,
                          added: seq<string>, modified: seq<string>, same: seq<string>) {
    && (forall k :: k in added <==> k in keys && k in a && k !in b)
    && (forall k :: k in modified <==> k in keys && k in a && k in b && b[k] != a[k])
    && (forall k :: k in same <==> k in keys && k in a && k in b && b[k] == a[k])
  }

  lemma PartsExtend(keys: set<string>, b: Catalog, a: Catalog,
                    added: seq<string>, modified: seq<string>, same: seq<string>, x: string)
    requires PartsOf(keys, b, a, added, modified, same) && x in a
    ensures x !in b ==> PartsOf(keys + {x}, b, a, added + [x], modified, same)
    ensures x in b && b[x] != a[x] ==> PartsOf(keys + {x}, b, a, added, modified + [x], same)
    ensures x in b && b[x] == a[x] ==> PartsOf(keys + {x}, b, a, added, modified, same + [x])
  {
  }

  method ClassifyNew(beforeTexts: map<string, string>, afterTexts: map<string, string>, ghost b: Catalog, ghost a: Catalog)
    returns (added: seq<string>, modified: seq<string>, same: seq<string>)
    requires TextsCompare(beforeTexts, b, afterTexts, a)
    ensures PartsOf(a.Keys, b, a, added, modified, same)
  {
    hide Listing;
    added, modified, same := [], [], [];
    var keys := Listing(afterTexts.Keys);
    assert forall k :: k in keys ==> k in a;
    for i := 0 to |keys|
      invariant PartsOf(Elements(keys[..i]), b, a, added, modified, same)
    {
      var asset := keys[i];
      ElementsPush(keys, i);
      PartsExtend(Elements(keys[..i]), b, a, added, modified, same, asset);
      if asset !in beforeTexts {
        added := added + [asset];
      } else if beforeTexts[asset] == afterTexts[asset] {
        same := same + [asset];
      } else {
        modified := modified + [asset];
      }
    }
    ElementsAll(keys);
    assert Elements(keys) == a.Keys;
  }

  method ListRemoved(beforeTexts: map<string, string>, afterTexts: map<string, string>) returns (removed: seq<string>)
    ensures forall k :: k in removed <==> k in beforeTexts && k !in afterTexts
  {
    removed := [];
    var keys := Listing(beforeTexts.Keys);
    for i := 0 to |keys|
      invariant forall k :: k in removed <==> k in keys[..i] && k !in afterTexts
    {
      if keys[i] !in afterTexts { removed := removed + [keys[i]]; }
    }
    assert keys[..|keys|] == keys;
  }

  /** Comparing encodings sorts every asset into the part that structural comparison gives. */
  method DiffPolicies(before: seq<FeedPolicy>, after: seq<FeedPolicy>) returns (diff: CatalogDiff)
    ensures diff == Diff(before, after)
  {
    var beforeTexts := EncodeFeeds(before);
    var afterTexts := EncodeFeeds(after);
    hide Canonical, FeedJson, Listing;
    ghost var b, a := Index(before), Index(after);
    EncodingsCompare(before, beforeTexts, after, afterTexts);
    var added, modified, same := ClassifyNew(beforeTexts, afterTexts, b, a);
    var removed := ListRemoved(beforeTexts, afterTexts);
    SortedUniqueIsListing(added, set k | k in a && k !in b);
    SortedUniqueIsListing(removed, set k | k in b && k !in a);
    SortedUniqueIsListing(modified, set k | k in a && k in b && b[k] != a[k]);
    SortedUniqueIsListing(same, set k | k in a && k in b && b[k] == a[k]);
    diff := CatalogDiff(SortedUnique(added), SortedUnique(removed), SortedUnique(modified), SortedUnique(same));
  }

  ghost function Count(asset: string, diff: CatalogDiff): nat {
    (if asset in diff.added then 1 else 0) + (if asset in diff.removed then 1 else 0)
    + (if asset in diff.modified then 1 else 0) + (if asset in diff.same then 1 else 0)
  }

  /** The four lists partition the assets of the two lists and hold nothing twice: what only the new list
      has is added, what only the old list has is removed, and `modified` is separated from `unchanged`
      exactly by equality of the feeds. */
  lemma DiffPartition(before: seq<FeedPolicy>, after: seq<FeedPolicy>, asset: string)
    ensures var d := Diff(before, after);
      && Count(asset, d) == (if asset in Index(before) || asset in Index(after) then 1 else 0)
      && (asset in d.added <==> asset in Index(after) && asset !in Index(before))
      && (asset in d.removed <==> asset in Index(before) && asset !in Index(after))
      && (asset in d.same <==> asset in Index(before) && asset in Index(after) && Index(before)[asset] == Index(after)[asset])
      && (asset in d.modified <==> asset in Index(before) && asset in Index(after) && Index(before)[asset] != Index(after)[asset])
      && StrictlySortedBy(d.added, Self) && StrictlySortedBy(d.removed, Self)
      && StrictlySortedBy(d.modified, Self) && StrictlySortedBy(d.same, Self)
  {
  }

  /** A change that touches no asset leaves an ordered feed list as it is, and conversely. */
  lemma DiffEmptyExactly(before: seq<FeedPolicy>, after: seq<FeedPolicy>)
    requires OrderedFeeds(before) && OrderedFeeds(after)
    ensures Touched(Diff(before, after)) == [] <==> before == after
  {
    var b, a := Index(before), Index(after);
    var d := Diff(before, after);
    if Touched(d) == [] {
      forall k ensures k in b <==> k in a {
        assert k in d.added <==> k in a && k !in b;
        assert k in d.removed <==> k in b && k !in a;
      }
      forall k | k in b ensures b[k] == a[k] {
        assert k in d.modified <==> k in a && k in b && b[k] != a[k];
      }
      assert b == a;
      FeedListOfIndex(before);
      FeedListOfIndex(after);
    }
  }
}
