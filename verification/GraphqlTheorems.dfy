/** What the GraphQL cost and depth walks mean: the cost does not depend on the order of selections,
    and both are compared with a document whose fragments are written out in place. */
module GraphqlTheorems {
  import opened GraphqlCost

  // ── Order independence ────────────────────────────────────────────────────

  function Without(s: seq<Selection>, j: nat): seq<Selection>
    requires j < |s|
  {
    s[..j] + s[j + 1..]
  }

  /** The same selections in another order, at every level of nesting. */
  ghost predicate Shuffled(a: seq<Selection>, b: seq<Selection>)
    decreases a, 0
  {
    if a == [] then b == []
    else exists j :: 0 <= j < |b| && Similar(a[|a| - 1], b[j]) && Shuffled(a[..|a| - 1], Without(b, j))
  }

  ghost predicate Similar(s: Selection, t: Selection)
    decreases s, 1
  {
    match s
    case Leaf(_) => t == s
    case Field(limit, children) => t.Field? && t.limit == limit && Shuffled(children, t.children)
    case Inline(body) => t.Inline? && Shuffled(body, t.body)
    case Spread(_) => t == s
  }

  ghost predicate SameText(maxLimit: int, a: seq<Selection>, b: seq<Selection>) {
    Own(maxLimit, a) == Own(maxLimit, b) && Occurrences(a) == Occurrences(b)
  }

  lemma {:induction false} TextAppends(maxLimit: int, a: seq<Selection>, b: seq<Selection>)
    ensures Own(maxLimit, a + b) == Own(maxLimit, a) + Own(maxLimit, b)
    ensures Occurrences(a + b) == Occurrences(a) + Occurrences(b)
    decreases |b|
  {
    hide OwnOf, OccurrencesOf;
    if b == [] {
      assert a + b == a;
    } else {
      var n := |b| - 1;
      assert (a + b)[..|a + b| - 1] == a + b[..n];
      TextAppends(maxLimit, a, b[..n]);
    }
  }

  lemma TextWithout(maxLimit: int, s: seq<Selection>, j: nat)
    requires j < |s|
    ensures Own(maxLimit, s) == Own(maxLimit, Without(s, j)) + OwnOf(maxLimit, s[j])
    ensures Occurrences(s) == Occurrences(Without(s, j)) + OccurrencesOf(s[j])
  {
    hide OwnOf, OccurrencesOf;
    TextAppends(maxLimit, s[..j], s[j + 1..]);
    TextAppends(maxLimit, s[..j + 1], s[j + 1..]);
    assert s[..j + 1] + s[j + 1..] == s;
    assert s[..j + 1][..j] == s[..j];
  }

  lemma {:induction false} ShuffledSameText(maxLimit: int, a: seq<Selection>, b: seq<Selection>)
    requires Shuffled(a, b)
    ensures SameText(maxLimit, a, b)
    decreases a, 0
  {
    hide Similar, Without, OwnOf, OccurrencesOf;
    if a != [] {
      var n := |a| - 1;
      var j :| 0 <= j < |b| && Similar(a[n], b[j]) && Shuffled(a[..n], Without(b, j));
      ShuffledSameText(maxLimit, a[..n], Without(b, j));
      SimilarSameText(maxLimit, a[n], b[j]);
      TextWithout(maxLimit, b, j);
    }
  }

  lemma {:induction false} SimilarSameText(maxLimit: int, s: Selection, t: Selection)
    requires Similar(s, t)
    ensures OwnOf(maxLimit, s) == OwnOf(maxLimit, t) && OccurrencesOf(s) == OccurrencesOf(t)
    decreases s, 1
  {
    hide Shuffled, Own, Occurrences;
    match s
    case Leaf(_) =>
    case Field(_, children) => ShuffledSameText(maxLimit, children, t.children);
    case Inline(body) => ShuffledSameText(maxLimit, body, t.body);
    case Spread(_) =>
  }

  /** The same operation and fragments, with selections in another order. */
  ghost predicate SameDocument(maxLimit: int, doc: Document, other: Document) {
    doc.Keys == other.Keys && forall f :: f in doc ==> SameText(maxLimit, doc[f], other[f])
  }

  lemma {:induction false} ChainCarries(maxLimit: int, doc: Document, other: Document, a: seq<Selection>, b: seq<Selection>,
                                        path: seq<string>, f: string)
    requires SameDocument(maxLimit, doc, other) && SameText(maxLimit, a, b) && ChainTo(doc, a, path, f)
    ensures ChainTo(other, b, path, f)
    decreases |path|
  {
    hide Own, Occurrences;
    if |path| > 1 {
      ChainCarries(maxLimit, doc, other, doc[path[0]], other[path[0]], path[1..], f);
    }
  }

  lemma ReachableCarries(maxLimit: int, doc: Document, other: Document, a: seq<Selection>, b: seq<Selection>, f: string)
    requires SameDocument(maxLimit, doc, other) && SameText(maxLimit, a, b)
    ensures Reachable(doc, a, f) <==> Reachable(other, b, f)
  {
    hide ChainTo, Own, Occurrences;
    if Reachable(doc, a, f) {
      var path :| ChainTo(doc, a, path, f);
      ChainCarries(maxLimit, doc, other, a, b, path, f);
    }
    if Reachable(other, b, f) {
      var path :| ChainTo(other, b, path, f);
      ChainCarries(maxLimit, other, doc, b, a, path, f);
    }
  }

  lemma SameDocumentSameCost(maxLimit: int, doc: Document, other: Document, a: seq<Selection>, b: seq<Selection>, level: int)
    requires SameDocument(maxLimit, doc, other) && SameText(maxLimit, a, b)
    ensures Walk(doc, maxLimit, a, level, {}).cost == Walk(other, maxLimit, b, level, {}).cost
  {
    hide Walk, Own, Occurrences, Total, Reachable;
    var reachable := Walk(doc, maxLimit, a, level, {}).seen;
    forall f ensures (f in reachable <==> Reachable(doc, a, f)) && (f in reachable <==> Reachable(other, b, f)) {
      VisitedIsReachable(doc, maxLimit, a, level, f);
      ReachableCarries(maxLimit, doc, other, a, b, f);
    }
    CostExact(doc, maxLimit, a, level, reachable);
    CostExact(other, maxLimit, b, level, reachable);
    assert Weights(doc, maxLimit) == Weights(other, maxLimit);
  }

  /** The fragments of another document, with selections in another order. */
  ghost predicate ShuffledDocument(doc: Document, other: Document) {
    doc.Keys == other.Keys && forall f :: f in doc ==> Shuffled(doc[f], other[f])
  }

  lemma ShuffledSameDocument(maxLimit: int, doc: Document, other: Document)
    requires ShuffledDocument(doc, other)
    ensures SameDocument(maxLimit, doc, other)
  {
    hide SameText, Shuffled;
    forall f | f in doc ensures SameText(maxLimit, doc[f], other[f]) { ShuffledSameText(maxLimit, doc[f], other[f]); }
  }

  /** Reordering selections, anywhere in the operation or its fragments, leaves the cost as it is. */
  lemma CostIgnoresOrder(maxLimit: int, doc: Document, other: Document, a: seq<Selection>, b: seq<Selection>, level: int)
    requires ShuffledDocument(doc, other) && Shuffled(a, b)
    ensures Walk(doc, maxLimit, a, level, {}).cost == Walk(other, maxLimit, b, level, {}).cost
  {
    hide Walk, SameText, Shuffled;
    ShuffledSameText(maxLimit, a, b);
    ShuffledSameDocument(maxLimit, doc, other);
    SameDocumentSameCost(maxLimit, doc, other, a, b, level);
  }

  // ── Fragments written out in place ────────────────────────────────────────

  datatype Inlined = Inlined(cost: nat, depth: int)

  /** Cost and depth with every spread replaced by its fragment, cut where a fragment contains itself:
      `path` holds the fragments being written out. */
  function Expand(doc: Document, maxLimit: int, sel: seq<Selection>, level: int, path: set<string>): Inlined
    decreases doc.Keys - path, sel, 0
  {
    if sel == [] then Inlined(0, level) else
      var n := |sel| - 1;
      var p := Expand(doc, maxLimit, sel[..n], level, path);
      var q := ExpandOne(doc, maxLimit, sel[n], level, path);
      Inlined(p.cost + q.cost, Max(p.depth, q.depth))
  }

  function ExpandOne(doc: Document, maxLimit: int, s: Selection, level: int, path: set<string>): Inlined
    decreases doc.Keys - path, s, 1
  {
    match s
    case Leaf(limit) => Inlined(FieldCost(limit, maxLimit), level + 1)
    case Field(limit, children) =>
      var r := Expand(doc, maxLimit, children, level + 1, path);
      Inlined(FieldCost(limit, maxLimit) + r.cost, r.depth)
    case Inline(body) => Expand(doc, maxLimit, body, level, path)
    case Spread(name) =>
      if name in path || name !in doc then Inlined(0, level) else
        assert name in doc.Keys - path && name !in doc.Keys - (path + {name});
        Expand(doc, maxLimit, doc[name], level, path + {name})
  }

  /** A walk never finds more than the expansion, and finds as much when it skips nothing. */
  ghost predicate Below(r: Walked, e: Inlined, level: int) {
    && r.cost <= e.cost && level <= r.depth <= e.depth
    && (r.skipped == multiset{} ==> r.cost == e.cost && r.depth == e.depth)
  }

  lemma {:induction false} WalkBelow(doc: Document, maxLimit: int, sel: seq<Selection>, level: int, seen: set<string>, path: set<string>)
    requires path <= seen
    ensures Below(Walk(doc, maxLimit, sel, level, seen), Expand(doc, maxLimit, sel, level, path), level)
    decreases doc.Keys - seen, sel, 0
  {
    hide Visit, ExpandOne;
    if sel != [] {
      var n := |sel| - 1;
      var p := Walk(doc, maxLimit, sel[..n], level, seen);
      WalkBelow(doc, maxLimit, sel[..n], level, seen, path);
      VisitBelow(doc, maxLimit, sel[n], level, p.seen, path);
      var q := Visit(doc, maxLimit, sel[n], level, p.seen);
      assert p.skipped + q.skipped == multiset{} ==> p.skipped == multiset{} && q.skipped == multiset{} by { NothingSkipped(p.skipped, q.skipped); }
    }
  }

  lemma NothingSkipped(a: multiset<string>, b: multiset<string>)
    ensures a + b == multiset{} ==> a == multiset{} && b == multiset{}
  {
    if a + b == multiset{} {
      forall x ensures a[x] == 0 && b[x] == 0 { assert (a + b)[x] == 0; }
    }
  }

  lemma {:induction false} VisitBelow(doc: Document, maxLimit: int, s: Selection, level: int, seen: set<string>, path: set<string>)
    requires path <= seen
    ensures Below(Visit(doc, maxLimit, s, level, seen), ExpandOne(doc, maxLimit, s, level, path), level)
    decreases doc.Keys - seen, s, 1
  {
    hide Walk, Expand, FieldCost;
    match s
    case Leaf(_) =>
    case Field(_, children) => WalkBelow(doc, maxLimit, children, level + 1, seen, path);
    case Inline(body) => WalkBelow(doc, maxLimit, body, level, seen, path);
    case Spread(name) =>
      if name !in seen && name in doc {
        assert name in doc.Keys - seen && name !in doc.Keys - (seen + {name});
        WalkBelow(doc, maxLimit, doc[name], level, seen + {name}, path + {name});
      } else if name in seen {
        assert multiset{name}[name] == 1;
        if name !in path && name in doc { ExpandAtLeast(doc, maxLimit, doc[name], level, path + {name}); }
      }
  }

  lemma {:induction false} ExpandAtLeast(doc: Document, maxLimit: int, sel: seq<Selection>, level: int, path: set<string>)
    ensures Expand(doc, maxLimit, sel, level, path).depth >= level
    decreases |sel|
  {
    hide ExpandOne;
    if sel != [] { ExpandAtLeast(doc, maxLimit, sel[..|sel| - 1], level, path); }
  }

  /** The walks of an operation never exceed the operation written out in full. */
  lemma WalkNeverExceeds(doc: Document, maxLimit: int, sel: seq<Selection>, level: int)
    ensures var r := Walk(doc, maxLimit, sel, level, {}); var e := Expand(doc, maxLimit, sel, level, {});
            r.cost <= e.cost && level <= r.depth <= e.depth
  {
    hide Walk, Expand;
    WalkBelow(doc, maxLimit, sel, level, {}, {});
  }

  /** How often a fragment is spread in the operation and the fragments reachable from it. */
  function SpreadTotal(doc: Document, sel: seq<Selection>, reachable: set<string>, f: string): int {
    Occurrences(sel)[f] + Total(SpreadCounts(doc, f), reachable)
  }

  /** A walk skips nothing exactly when every fragment is spread at most once in the operation and the
      fragments reachable from it. */
  lemma SkipsNothingExactly(doc: Document, maxLimit: int, sel: seq<Selection>, level: int, reachable: set<string>)
    requires forall f :: f in reachable <==> Reachable(doc, sel, f)
    ensures Walk(doc, maxLimit, sel, level, {}).skipped == multiset{} <==> forall f :: SpreadTotal(doc, sel, reachable, f) <= 1
  {
    hide Walk, Own, Occurrences, Reachable, Weights, SpreadCounts, Total;
    var r := Walk(doc, maxLimit, sel, level, {});
    WalkAccounts(doc, maxLimit, sel, level, {});
    assert r.seen - {} == r.seen;
    forall f ensures f in r.seen <==> f in reachable { VisitedIsReachable(doc, maxLimit, sel, level, f); }
    assert r.seen == reachable;
    forall f ensures SpreadTotal(doc, sel, reachable, f) == (if f in reachable then 1 else 0) + r.skipped[f] {}
    if forall f :: SpreadTotal(doc, sel, reachable, f) <= 1 {
      forall f ensures r.skipped[f] == 0 {
        assert SpreadTotal(doc, sel, reachable, f) <= 1;
        assert f in r.skipped ==> f in r.seen;
      }
    }
  }

  /** When every reachable fragment is spread once, cost and depth are those of the operation written
      out in full. */
  lemma SpreadOnceIsInlining(doc: Document, maxLimit: int, sel: seq<Selection>, level: int, reachable: set<string>)
    requires forall f :: f in reachable <==> Reachable(doc, sel, f)
    requires forall f :: SpreadTotal(doc, sel, reachable, f) <= 1
    ensures var r := Walk(doc, maxLimit, sel, level, {}); var e := Expand(doc, maxLimit, sel, level, {});
            r.cost == e.cost && r.depth == e.depth
  {
    hide Walk, Expand, SpreadTotal, Reachable;
    SkipsNothingExactly(doc, maxLimit, sel, level, reachable);
    WalkBelow(doc, maxLimit, sel, level, {}, {});
  }

  // ── What a walk misses ────────────────────────────────────────────────────

  /** Cost and depth of the spreads a walk skips although the expansion writes them out. */
  function Missed(doc: Document, maxLimit: int, sel: seq<Selection>, level: int, seen: set<string>, path: set<string>): Inlined
    decreases doc.Keys - seen, sel, 0
  {
    if sel == [] then Inlined(0, level) else
      var n := |sel| - 1;
      var p := Missed(doc, maxLimit, sel[..n], level, seen, path);
      var q := MissedIn(doc, maxLimit, sel[n], level, Walk(doc, maxLimit, sel[..n], level, seen).seen, path);
      Inlined(p.cost + q.cost, Max(p.depth, q.depth))
  }

  function MissedIn(doc: Document, maxLimit: int, s: Selection, level: int, seen: set<string>, path: set<string>): Inlined
    decreases doc.Keys - seen, s, 1
  {
    match s
    case Leaf(_) => Inlined(0, level)
    case Field(_, children) => Missed(doc, maxLimit, children, level + 1, seen, path)
    case Inline(body) => Missed(doc, maxLimit, body, level, seen, path)
    case Spread(name) =>
      if name in seen then ExpandOne(doc, maxLimit, s, level, path)
      else if name !in doc then Inlined(0, level)
      else
        assert name in doc.Keys - seen && name !in doc.Keys - (seen + {name});
        Missed(doc, maxLimit, doc[name], level, seen + {name}, path + {name})
  }

  /** What is written out is what the walk finds and what it misses. */
  ghost predicate Splits(r: Walked, missed: Inlined, e: Inlined, level: int) {
    e.cost == r.cost + missed.cost && e.depth == Max(r.depth, missed.depth) && r.depth >= level && missed.depth >= level
  }

  lemma {:induction false} ExpandSplits(doc: Document, maxLimit: int, sel: seq<Selection>, level: int, seen: set<string>, path: set<string>)
    requires path <= seen
    ensures Splits(Walk(doc, maxLimit, sel, level, seen), Missed(doc, maxLimit, sel, level, seen, path),
                   Expand(doc, maxLimit, sel, level, path), level)
    decreases doc.Keys - seen, sel, 0
  {
    hide Visit, ExpandOne, MissedIn;
    if sel != [] {
      var n := |sel| - 1;
      ExpandSplits(doc, maxLimit, sel[..n], level, seen, path);
      ExpandOneSplits(doc, maxLimit, sel[n], level, Walk(doc, maxLimit, sel[..n], level, seen).seen, path);
    }
  }

  lemma {:induction false} ExpandOneSplits(doc: Document, maxLimit: int, s: Selection, level: int, seen: set<string>, path: set<string>)
    requires path <= seen
    ensures Splits(Visit(doc, maxLimit, s, level, seen), MissedIn(doc, maxLimit, s, level, seen, path),
                   ExpandOne(doc, maxLimit, s, level, path), level)
    decreases doc.Keys - seen, s, 1
  {
    hide Walk, Expand, Missed, FieldCost;
    match s
    case Leaf(_) =>
    case Field(_, children) => ExpandSplits(doc, maxLimit, children, level + 1, seen, path);
    case Inline(body) => ExpandSplits(doc, maxLimit, body, level, seen, path);
    case Spread(name) =>
      if name !in seen && name in doc {
        assert name in doc.Keys - seen && name !in doc.Keys - (seen + {name});
        ExpandSplits(doc, maxLimit, doc[name], level, seen + {name}, path + {name});
      } else if name in seen && name !in path && name in doc {
        ExpandAtLeast(doc, maxLimit, doc[name], level, path + {name});
      }
  }

  /** The cost of an operation is that of the operation written out in full exactly when what the walk
      misses costs nothing, and the depth exactly when what it misses lies no deeper than what it finds. */
  lemma InliningExactly(doc: Document, maxLimit: int, sel: seq<Selection>, level: int)
    ensures var r := Walk(doc, maxLimit, sel, level, {}); var e := Expand(doc, maxLimit, sel, level, {});
            var missed := Missed(doc, maxLimit, sel, level, {}, {});
            && e.cost == r.cost + missed.cost && e.depth == Max(r.depth, missed.depth)
            && (r.cost == e.cost <==> missed.cost == 0)
            && (r.depth == e.depth <==> missed.depth <= r.depth)
  {
    hide Walk, Expand, Missed;
    ExpandSplits(doc, maxLimit, sel, level, {}, {});
  }

  // ── When the order of selections does not matter to the depth ─────────────

  lemma {:induction false} ExpandAppends(doc: Document, maxLimit: int, a: seq<Selection>, b: seq<Selection>, level: int, path: set<string>)
    ensures var p, q := Expand(doc, maxLimit, a, level, path), Expand(doc, maxLimit, b, level, path);
            Expand(doc, maxLimit, a + b, level, path) == Inlined(p.cost + q.cost, Max(p.depth, q.depth))
    decreases |b|
  {
    hide ExpandOne;
    if b == [] {
      assert a + b == a;
      ExpandAtLeast(doc, maxLimit, a, level, path);
    } else {
      assert (a + b)[..|a + b| - 1] == a + b[..|b| - 1];
      ExpandAppends(doc, maxLimit, a, b[..|b| - 1], level, path);
    }
  }

  lemma ExpandWithout(doc: Document, maxLimit: int, s: seq<Selection>, j: nat, level: int, path: set<string>)
    requires j < |s|
    ensures var p, q := Expand(doc, maxLimit, Without(s, j), level, path), ExpandOne(doc, maxLimit, s[j], level, path);
            Expand(doc, maxLimit, s, level, path) == Inlined(p.cost + q.cost, Max(p.depth, q.depth))
  {
    hide Expand, ExpandOne;
    ExpandAppends(doc, maxLimit, s[..j], s[j + 1..], level, path);
    ExpandAppends(doc, maxLimit, s[..j + 1], s[j + 1..], level, path);
    assert s[..j + 1] + s[j + 1..] == s;
    ExpandLast(doc, maxLimit, s[..j + 1], level, path);
    assert s[..j + 1][..j] == s[..j];
  }

  lemma ExpandLast(doc: Document, maxLimit: int, s: seq<Selection>, level: int, path: set<string>)
    requires s != []
    ensures var p, q := Expand(doc, maxLimit, s[..|s| - 1], level, path), ExpandOne(doc, maxLimit, s[|s| - 1], level, path);
            Expand(doc, maxLimit, s, level, path) == Inlined(p.cost + q.cost, Max(p.depth, q.depth))
  {
    hide ExpandOne;
  }

  /** Writing out in full does not depend on the order of selections. */
  lemma {:induction false} ExpandIgnoresOrder(doc: Document, other: Document, maxLimit: int, a: seq<Selection>, b: seq<Selection>,
                                              level: int, path: set<string>)
    requires ShuffledDocument(doc, other) && Shuffled(a, b)
    ensures Expand(doc, maxLimit, a, level, path) == Expand(other, maxLimit, b, level, path)
    decreases doc.Keys - path, a, 0
  {
    hide Similar, Without, ExpandOne, ShuffledDocument, Expand;
    if a == [] {
      ExpandNothing(doc, other, maxLimit, level, path);
    } else {
      var n := |a| - 1;
      var j :| 0 <= j < |b| && Similar(a[n], b[j]) && Shuffled(a[..n], Without(b, j));
      ExpandIgnoresOrder(doc, other, maxLimit, a[..n], Without(b, j), level, path);
      ExpandOneIgnoresOrder(doc, other, maxLimit, a[n], b[j], level, path);
      ExpandLast(doc, maxLimit, a, level, path);
      ExpandWithout(other, maxLimit, b, j, level, path);
    }
  }

  lemma ExpandNothing(doc: Document, other: Document, maxLimit: int, level: int, path: set<string>)
    ensures Expand(doc, maxLimit, [], level, path) == Expand(other, maxLimit, [], level, path)
  {
  }

  lemma {:induction false} ExpandOneIgnoresOrder(doc: Document, other: Document, maxLimit: int, s: Selection, t: Selection,
                                                 level: int, path: set<string>)
    requires ShuffledDocument(doc, other) && Similar(s, t)
    ensures ExpandOne(doc, maxLimit, s, level, path) == ExpandOne(other, maxLimit, t, level, path)
    decreases doc.Keys - path, s, 1
  {
    hide Shuffled, Expand, FieldCost;
    match s
    case Leaf(_) =>
    case Field(_, children) => ExpandIgnoresOrder(doc, other, maxLimit, children, t.children, level + 1, path);
    case Inline(body) => ExpandIgnoresOrder(doc, other, maxLimit, body, t.body, level, path);
    case Spread(name) =>
      if name !in path && name in doc {
        assert name in doc.Keys - path && name !in doc.Keys - (path + {name});
        ExpandIgnoresOrder(doc, other, maxLimit, doc[name], other[name], level, path + {name});
      }
  }

  /** Two orders of the same selections have the same depth when neither misses anything deeper than what
      it finds. */
  lemma SameDepthWhenNoneDeeper(maxLimit: int, doc: Document, other: Document, a: seq<Selection>, b: seq<Selection>, level: int)
    requires ShuffledDocument(doc, other) && Shuffled(a, b)
    requires Missed(doc, maxLimit, a, level, {}, {}).depth <= Walk(doc, maxLimit, a, level, {}).depth
    requires Missed(other, maxLimit, b, level, {}, {}).depth <= Walk(other, maxLimit, b, level, {}).depth
    ensures Walk(doc, maxLimit, a, level, {}).depth == Walk(other, maxLimit, b, level, {}).depth
  {
    hide Walk, Expand, Missed, ShuffledDocument, Shuffled;
    InliningExactly(doc, maxLimit, a, level);
    InliningExactly(other, maxLimit, b, level);
    ExpandIgnoresOrder(doc, other, maxLimit, a, b, level, {});
  }

  /** When every reachable fragment is spread at most once, the depth does not depend on the order of
      selections, in the operation or in its fragments. */
  lemma DepthIgnoresOrder(maxLimit: int, doc: Document, other: Document, a: seq<Selection>, b: seq<Selection>, level: int, reachable: set<string>)
    requires ShuffledDocument(doc, other) && Shuffled(a, b)
    requires forall f :: f in reachable <==> Reachable(doc, a, f)
    requires forall f :: SpreadTotal(doc, a, reachable, f) <= 1
    ensures Walk(doc, maxLimit, a, level, {}).depth == Walk(other, maxLimit, b, level, {}).depth
  {
    hide Walk, Expand, Reachable, ShuffledDocument, Shuffled, Total, Occurrences, Own;
    ShuffledSameDocument(maxLimit, doc, other);
    ShuffledSameText(maxLimit, a, b);
    forall f ensures f in reachable <==> Reachable(other, b, f) { ReachableCarries(maxLimit, doc, other, a, b, f); }
    forall f ensures SpreadTotal(other, b, reachable, f) <= 1 {
      assert SpreadTotal(doc, a, reachable, f) <= 1;
      assert SpreadCounts(doc, f) == SpreadCounts(other, f);
    }
    SpreadOnceIsInlining(doc, maxLimit, a, level, reachable);
    SpreadOnceIsInlining(other, maxLimit, b, level, reachable);
    ExpandIgnoresOrder(doc, other, maxLimit, a, b, level, {});
  }

  /** The depth, unlike the cost, depends on the order: a fragment met first near the root is not
      measured again where it is nested more deeply. */
  lemma DepthDependsOnOrder()
    ensures var body := [Leaf(NoLimit)];
            var doc: Document := map["F" := body];
            var spread := Spread("F");
            var nested := Field(NoLimit, [spread]);
            && Shuffled([spread, nested], [nested, spread])
            && Walk(doc, 0, [spread, nested], 0, {}).depth == 1
            && Walk(doc, 0, [nested, spread], 0, {}).depth == 2
  {
    var body := [Leaf(NoLimit)];
    var doc: Document := map["F" := body];
    var spread := Spread("F");
    var nested := Field(NoLimit, [spread]);
    OneSelection(doc, body[0], 0, {"F"});
    OneSelection(doc, body[0], 1, {"F"});
    OneSelection(doc, spread, 1, {});
    OneSelection(doc, spread, 1, {"F"});
    assert {} + {"F"} == {"F"} && doc["F"] == body;
    assert Visit(doc, 0, spread, 0, {}) == Walked(1, 1, {"F"}, multiset{});
    assert Visit(doc, 0, spread, 1, {}) == Walked(1, 2, {"F"}, multiset{});
    TwoSelections(doc, spread, nested);
    TwoSelections(doc, nested, spread);
    OneShuffled(spread);
    TwoShuffled(spread, nested);
  }

  lemma OneSelection(doc: Document, s: Selection, level: int, seen: set<string>)
    ensures var q := Visit(doc, 0, s, level, seen);
            Walk(doc, 0, [s], level, seen) == Walked(q.cost, Max(level, q.depth), q.seen, q.skipped)
  {
    hide Visit;
    WalkNone(doc, 0, [s], level, seen);
    WalkNext(doc, 0, [s], 0, level, seen);
    assert [s][..1] == [s];
  }

  lemma TwoSelections(doc: Document, s: Selection, t: Selection)
    ensures var p := Visit(doc, 0, s, 0, {});
            var q := Visit(doc, 0, t, 0, p.seen);
            Walk(doc, 0, [s, t], 0, {}).depth == Max(Max(0, p.depth), q.depth)
  {
    hide Visit;
    OneSelection(doc, s, 0, {});
    WalkNext(doc, 0, [s, t], 1, 0, {});
    assert [s, t][..1] == [s] && [s, t][..2] == [s, t];
  }

  lemma OneShuffled(s: Selection)
    requires Similar(s, s)
    ensures Shuffled([s], [s])
  {
    hide Similar;
    assert [s][..0] == [] && Without([s], 0) == [];
    assert Similar([s][0], [s][0]);
  }

  lemma TwoShuffled(s: Selection, t: Selection)
    requires Similar(s, s) && Similar(t, t)
    ensures Shuffled([s, t], [t, s])
  {
    hide Similar;
    assert [s, t][..1] == [s] && Without([t, s], 0) == [s];
    OneShuffled(s);
    assert Similar([s, t][1], [t, s][0]);
  }
}
