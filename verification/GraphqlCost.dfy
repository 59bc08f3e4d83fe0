/** The cost and depth walks over a GraphQL document, whose fragments may refer to each other in
    cycles. One set of visited fragment names is shared by the whole walk. */
module GraphqlCost {
  import opened Ordering

  /** The `limit` argument of a field: none, not an integer literal, or an integer literal. */
  datatype Limit = NoLimit | NotInt | IntLimit(value: int)

  /** A field without or with a selection set of its own, an inline fragment, or a fragment spread. */
  datatype Selection =
    | Leaf(limit: Limit)
    | Field(limit: Limit, children: seq<Selection>)
    | Inline(body: seq<Selection>)
    | Spread(name: string)

  type Document = map<string, seq<Selection>>

  // ── fieldCost ─────────────────────────────────────────────────────────────

  function Pow2(n: nat): int { if n == 0 then 1 else 2 * Pow2(n - 1) }

  /** Integer literals this large read as infinity in double precision. */
  const OVERFLOW: int := Pow2(1024) - Pow2(970)

  predicate IsFinite(v: int) { -OVERFLOW < v < OVERFLOW }

  function Clamp(v: int, maxLimit: int): nat {
    if v <= 0 || maxLimit <= 0 then 0 else if v <= maxLimit then v else maxLimit
  }

  function FieldCost(limit: Limit, maxLimit: int): (c: nat)
    ensures c >= 1
  {
    if limit.IntLimit? && IsFinite(limit.value) then 1 + Clamp(limit.value, maxLimit) else 1
  }

  /** What a field costs: one plus its limit, capped at the maximum and never below zero; one when there is
      no integer limit. */
  lemma FieldCostMeans(limit: Limit, maxLimit: int)
    ensures !limit.IntLimit? ==> FieldCost(limit, maxLimit) == 1
    ensures limit.IntLimit? && IsFinite(limit.value) ==>
      && (0 <= limit.value <= maxLimit ==> FieldCost(limit, maxLimit) == 1 + limit.value)
      && (0 <= maxLimit < limit.value ==> FieldCost(limit, maxLimit) == 1 + maxLimit)
      && (limit.value < 0 || maxLimit < 0 ==> FieldCost(limit, maxLimit) == 1)
  {
    hide IsFinite;
  }

  /** The literals that read as finite numbers: those below 2^1024 - 2^970 in absolute value. */
  lemma FiniteMeans(v: int)
    ensures IsFinite(v) <==> (if v < 0 then -v else v) < Pow2(1024) - Pow2(970)
  {
    hide Pow2;
  }

  /** The promise of the capped limit holds exactly for finite literals, and for those whose cap is zero:
      a literal too large for a finite double costs one. */
  lemma FieldCostExact(v: int, maxLimit: int)
    ensures FieldCost(IntLimit(v), maxLimit) == 1 + (if v < 0 || maxLimit < 0 then 0 else if v <= maxLimit then v else maxLimit)
            <==> IsFinite(v) || v <= 0 || maxLimit <= 0
  {
    hide IsFinite;
  }

  lemma HugeLimitCostsOne()
    ensures FieldCost(IntLimit(OVERFLOW), 100) == 1 && FieldCost(IntLimit(100), 100) == 101 && OVERFLOW > 100
  {
    hide OVERFLOW;
    OverflowLarge();
  }

  lemma {:induction false} Pow2Grows(m: nat, n: nat)
    requires m <= n
    ensures Pow2(n) >= Pow2(m) + (n - m) && Pow2(m) >= 1
    decreases n
  {
    if m < n { Pow2Grows(m, n - 1); } else if m > 0 { Pow2Grows(m - 1, m - 1); }
  }

  lemma OverflowLarge()
    ensures OVERFLOW > 100
  {
    Pow2Grows(970, 1023);
    assert Pow2(1024) == 2 * Pow2(1023);
    Pow2Grows(0, 970);
  }

  // ── The walk ──────────────────────────────────────────────────────────────

  datatype Walked = Walked(cost: nat, depth: int, seen: set<string>, skipped: multiset<string>)

  function Max(a: int, b: int): int { if a >= b then a else b }

  /** Both walks at once: the cost, the deepest level reached, the names visited so far, and the
      spreads that were skipped because their fragment had been visited. */
  function Walk(doc: Document, maxLimit: int, sel: seq<Selection>, level: int, seen: set<string>): (r: Walked)
    ensures seen <= r.seen
    decreases doc.Keys - seen, sel, 0
  {
    if sel == [] then Walked(0, level, seen, multiset{}) else
      var n := |sel| - 1;
      var p := Walk(doc, maxLimit, sel[..n], level, seen);
      var q := Visit(doc, maxLimit, sel[n], level, p.seen);
      Walked(p.cost + q.cost, Max(p.depth, q.depth), q.seen, p.skipped + q.skipped)
  }

  function Visit(doc: Document, maxLimit: int, s: Selection, level: int, seen: set<string>): (r: Walked)
    ensures seen <= r.seen
    decreases doc.Keys - seen, s, 1
  {
    match s
    case Leaf(limit) => Walked(FieldCost(limit, maxLimit), level + 1, seen, multiset{})
    case Field(limit, children) =>
      var r := Walk(doc, maxLimit, children, level + 1, seen);
      r.(cost := FieldCost(limit, maxLimit) + r.cost)
    case Inline(body) => Walk(doc, maxLimit, body, level, seen)
    case Spread(name) =>
      if name in seen then Walked(0, level, seen, multiset{name})
      else if name in doc then
        assert name in doc.Keys - seen && name !in doc.Keys - (seen + {name});
        Walk(doc, maxLimit, doc[name], level, seen + {name})
      else Walked(0, level, seen + {name}, multiset{})
  }

  lemma WalkNext(doc: Document, maxLimit: int, sel: seq<Selection>, i: nat, level: int, seen: set<string>)
    requires i < |sel|
    ensures var p := Walk(doc, maxLimit, sel[..i], level, seen);
            var q := Visit(doc, maxLimit, sel[i], level, p.seen);
            Walk(doc, maxLimit, sel[..i + 1], level, seen)
            == Walked(p.cost + q.cost, Max(p.depth, q.depth), q.seen, p.skipped + q.skipped)
  {
    hide Visit;
    assert sel[..i + 1][..i] == sel[..i];
  }

  lemma WalkNone(doc: Document, maxLimit: int, sel: seq<Selection>, level: int, seen: set<string>)
    ensures Walk(doc, maxLimit, sel[..0], level, seen) == Walked(0, level, seen, multiset{})
  {
    hide Visit;
  }

  method SelectionSetCost(doc: Document, maxLimit: int, sel: seq<Selection>, seen: set<string>, ghost level: int)
    returns (cost: nat, visited: set<string>)
    ensures var r := Walk(doc, maxLimit, sel, level, seen); cost == r.cost && visited == r.seen
    decreases doc.Keys - seen, sel
  {
    hide Walk, FieldCost;
    cost, visited := 0, seen;
    WalkNone(doc, maxLimit, sel, level, seen);
    for i := 0 to |sel|
      invariant var r := Walk(doc, maxLimit, sel[..i], level, seen); cost == r.cost && visited == r.seen
      invariant seen <= visited
    {
      WalkNext(doc, maxLimit, sel, i, level, seen);
      var selection := sel[i];
      match selection {
        case Leaf(limit) => cost := cost + FieldCost(limit, maxLimit);
        case Field(limit, children) =>
          cost := cost + FieldCost(limit, maxLimit);
          var c;
          c, visited := SelectionSetCost(doc, maxLimit, children, visited, level + 1);
          cost := cost + c;
        case Inline(body) =>
          var c;
          c, visited := SelectionSetCost(doc, maxLimit, body, visited, level);
          cost := cost + c;
        case Spread(name) =>
          if name !in visited {
            ghost var before := visited;
            visited := visited + {name};
            if name in doc {
              assert name in doc.Keys - before && name !in doc.Keys - visited;
              var c;
              c, visited := SelectionSetCost(doc, maxLimit, doc[name], visited, level);
              cost := cost + c;
            }
          }
      }
    }
    assert sel[..|sel|] == sel;
  }

  method SelectionSetDepth(doc: Document, sel: seq<Selection>, level: int, seen: set<string>, ghost maxLimit: int)
    returns (deepest: int, visited: set<string>)
    ensures var r := Walk(doc, maxLimit, sel, level, seen); deepest == r.depth && visited == r.seen
    decreases doc.Keys - seen, sel
  {
    hide Walk, FieldCost;
    deepest, visited := level, seen;
    WalkNone(doc, maxLimit, sel, level, seen);
    for i := 0 to |sel|
      invariant var r := Walk(doc, maxLimit, sel[..i], level, seen); deepest == r.depth && visited == r.seen
      invariant seen <= visited && deepest >= level
    {
      WalkNext(doc, maxLimit, sel, i, level, seen);
      var selection := sel[i];
      match selection {
        case Leaf(_) => deepest := Max(deepest, level + 1);
        case Field(_, children) =>
          var d;
          d, visited := SelectionSetDepth(doc, children, level + 1, visited, maxLimit);
          deepest := Max(deepest, d);
        case Inline(body) =>
          var d;
          d, visited := SelectionSetDepth(doc, body, level, visited, maxLimit);
          deepest := Max(deepest, d);
        case Spread(name) =>
          if name !in visited {
            ghost var before := visited;
            visited := visited + {name};
            if name in doc {
              assert name in doc.Keys - before && name !in doc.Keys - visited;
              var d;
              d, visited := SelectionSetDepth(doc, doc[name], level, visited, maxLimit);
              deepest := Max(deepest, d);
            }
          }
      }
    }
    assert sel[..|sel|] == sel;
  }

  // ── What a document says, read off its text ───────────────────────────────

  /** The cost of the fields written in a selection set, spreads aside. */
  function Own(maxLimit: int, sel: seq<Selection>): nat {
    if sel == [] then 0 else Own(maxLimit, sel[..|sel| - 1]) + OwnOf(maxLimit, sel[|sel| - 1])
  }

  function OwnOf(maxLimit: int, s: Selection): nat {
    match s
    case Leaf(limit) => FieldCost(limit, maxLimit)
    case Field(limit, children) => FieldCost(limit, maxLimit) + Own(maxLimit, children)
    case Inline(body) => Own(maxLimit, body)
    case Spread(_) => 0
  }

  /** How often each fragment is spread in a selection set. */
  function Occurrences(sel: seq<Selection>): multiset<string> {
    if sel == [] then multiset{} else Occurrences(sel[..|sel| - 1]) + OccurrencesOf(sel[|sel| - 1])
  }

  function OccurrencesOf(s: Selection): multiset<string> {
    match s
    case Leaf(_) => multiset{}
    case Field(_, children) => Occurrences(children)
    case Inline(body) => Occurrences(body)
    case Spread(name) => multiset{name}
  }

  /** A chain of spreads from the selection set. */
  ghost predicate Chain(doc: Document, sel: seq<Selection>, path: seq<string>)
    decreases |path|
  {
    && path != [] && path[0] in Occurrences(sel)
    && (|path| > 1 ==> path[0] in doc && Chain(doc, doc[path[0]], path[1..]))
  }

  ghost predicate ChainTo(doc: Document, sel: seq<Selection>, path: seq<string>, name: string) {
    Chain(doc, sel, path) && path[|path| - 1] == name
  }

  ghost predicate Reachable(doc: Document, sel: seq<Selection>, name: string) {
    exists path :: ChainTo(doc, sel, path, name)
  }

  /** A weight summed over the defined fragments among `names`. */
  function Sum(weight: map<string, int>, keys: seq<string>, names: set<string>): int {
    if keys == [] then 0 else
      var k := keys[|keys| - 1];
      Sum(weight, keys[..|keys| - 1], names) + (if k in names && k in weight then weight[k] else 0)
  }

  function Weights(doc: Document, maxLimit: int): map<string, int> {
    map f | f in doc :: Own(maxLimit, doc[f])
  }

  function SpreadCounts(doc: Document, name: string): map<string, int> {
    map f | f in doc :: Occurrences(doc[f])[name]
  }

  function Total(weight: map<string, int>, names: set<string>): int {
    Sum(weight, Listing(weight.Keys), names)
  }

  // ── Sums over sets of names ───────────────────────────────────────────────

  lemma {:induction false} SumSplit(weight: map<string, int>, keys: seq<string>, a: set<string>, b: set<string>)
    requires a !! b
    ensures Sum(weight, keys, a + b) == Sum(weight, keys, a) + Sum(weight, keys, b)
  {
    if keys != [] { SumSplit(weight, keys[..|keys| - 1], a, b); }
  }

  lemma {:induction false} SumSingle(weight: map<string, int>, keys: seq<string>, x: string)
    requires NoDuplicates(keys)
    ensures Sum(weight, keys, {x}) == if x in keys && x in weight then weight[x] else 0
  {
    if keys != [] {
      var n := |keys| - 1;
      SumSingle(weight, keys[..n], x);
      assert keys == keys[..n] + [keys[n]];
    }
  }

  lemma {:induction false} SumEmpty(weight: map<string, int>, keys: seq<string>)
    ensures Sum(weight, keys, {}) == 0
  {
    if keys != [] { SumEmpty(weight, keys[..|keys| - 1]); }
  }

  lemma TotalAdds(weight: map<string, int>, a: set<string>, b: set<string>)
    requires a !! b
    ensures Total(weight, a + b) == Total(weight, a) + Total(weight, b)
  {
    hide Listing;
    SumSplit(weight, Listing(weight.Keys), a, b);
  }

  lemma TotalOne(weight: map<string, int>, x: string)
    ensures Total(weight, {x}) == if x in weight then weight[x] else 0
    ensures Total(weight, {}) == 0
  {
    hide Listing;
    var keys := Listing(weight.Keys);
    SumSingle(weight, keys, x);
    SumEmpty(weight, keys);
  }

  // ── Exactly what the walk adds up ─────────────────────────────────────────

  /** The law of a walk from `seen` to `r` over text with own cost `own` and spreads `occ`: each
      visited fragment is paid for once, and each spread is either a first visit or a skip. */
  ghost predicate Accounts(doc: Document, maxLimit: int, own: nat, occ: multiset<string>, seen: set<string>, r: Walked) {
    && r.cost == own + Total(Weights(doc, maxLimit), r.seen - seen)
    && (forall f :: occ[f] + Total(SpreadCounts(doc, f), r.seen - seen) == (if f in r.seen - seen then 1 else 0) + r.skipped[f])
    && (forall f :: f in occ ==> f in r.seen)
    && (forall f :: f in r.skipped ==> f in r.seen)
    && (forall g, f :: g in r.seen - seen && g in doc && f in Occurrences(doc[g]) ==> f in r.seen)
  }

  lemma AccountsNothing(doc: Document, maxLimit: int, own: nat, level: int, seen: set<string>)
    ensures Accounts(doc, maxLimit, own, multiset{}, seen, Walked(own, level, seen, multiset{}))
  {
    hide Weights, SpreadCounts, Total;
    assert seen - seen == {};
    TotalOne(Weights(doc, maxLimit), "");
    forall f ensures Total(SpreadCounts(doc, f), {}) == 0 { TotalOne(SpreadCounts(doc, f), ""); }
  }

  /** Walks in sequence add up. */
  lemma AccountsThen(doc: Document, maxLimit: int, own1: nat, occ1: multiset<string>, own2: nat, occ2: multiset<string>,
                     seen: set<string>, p: Walked, q: Walked, depth: int)
    requires Accounts(doc, maxLimit, own1, occ1, seen, p) && Accounts(doc, maxLimit, own2, occ2, p.seen, q)
    requires seen <= p.seen <= q.seen
    ensures Accounts(doc, maxLimit, own1 + own2, occ1 + occ2, seen, Walked(p.cost + q.cost, depth, q.seen, p.skipped + q.skipped))
  {
    hide Weights, SpreadCounts, Total, Occurrences;
    var a, b := p.seen - seen, q.seen - p.seen;
    assert q.seen - seen == a + b && a !! b;
    TotalAdds(Weights(doc, maxLimit), a, b);
    forall f ensures Total(SpreadCounts(doc, f), a + b) == Total(SpreadCounts(doc, f), a) + Total(SpreadCounts(doc, f), b) {
      TotalAdds(SpreadCounts(doc, f), a, b);
    }
  }

  lemma AccountsSkip(doc: Document, maxLimit: int, name: string, level: int, seen: set<string>)
    requires name in seen
    ensures Accounts(doc, maxLimit, 0, multiset{name}, seen, Walked(0, level, seen, multiset{name}))
  {
    hide Weights, SpreadCounts, Total;
    assert seen - seen == {};
    TotalOne(Weights(doc, maxLimit), "");
    forall f ensures Total(SpreadCounts(doc, f), {}) == 0 { TotalOne(SpreadCounts(doc, f), ""); }
  }

  lemma AccountsMissing(doc: Document, maxLimit: int, name: string, level: int, seen: set<string>)
    requires name !in seen && name !in doc
    ensures Accounts(doc, maxLimit, 0, multiset{name}, seen, Walked(0, level, seen + {name}, multiset{}))
  {
    hide Total;
    assert (seen + {name}) - seen == {name};
    TotalOne(Weights(doc, maxLimit), name);
    forall f ensures Total(SpreadCounts(doc, f), {name}) == 0 { TotalOne(SpreadCounts(doc, f), name); }
  }

  /** Entering a fragment for the first time. */
  lemma AccountsEnter(doc: Document, maxLimit: int, name: string, seen: set<string>, r: Walked)
    requires name !in seen && name in doc && seen + {name} <= r.seen
    requires Accounts(doc, maxLimit, Own(maxLimit, doc[name]), Occurrences(doc[name]), seen + {name}, r)
    ensures Accounts(doc, maxLimit, 0, multiset{name}, seen, r)
  {
    hide Total, Own, Occurrences;
    var rest := r.seen - (seen + {name});
    assert r.seen - seen == {name} + rest && {name} !! rest;
    TotalOne(Weights(doc, maxLimit), name);
    TotalAdds(Weights(doc, maxLimit), {name}, rest);
    forall f ensures Total(SpreadCounts(doc, f), {name} + rest) == Occurrences(doc[name])[f] + Total(SpreadCounts(doc, f), rest) {
      TotalOne(SpreadCounts(doc, f), name);
      TotalAdds(SpreadCounts(doc, f), {name}, rest);
    }
  }

  lemma AccountsField(doc: Document, maxLimit: int, own: nat, occ: multiset<string>, seen: set<string>, r: Walked, c: nat)
    requires Accounts(doc, maxLimit, own, occ, seen, r)
    ensures Accounts(doc, maxLimit, c + own, occ, seen, r.(cost := c + r.cost))
  {
    hide Weights, SpreadCounts, Total, Occurrences;
  }

  lemma {:induction false} WalkAccounts(doc: Document, maxLimit: int, sel: seq<Selection>, level: int, seen: set<string>)
    ensures Accounts(doc, maxLimit, Own(maxLimit, sel), Occurrences(sel), seen, Walk(doc, maxLimit, sel, level, seen))
    decreases doc.Keys - seen, sel, 0
  {
    hide Accounts, Visit, OwnOf, OccurrencesOf;
    if sel == [] {
      AccountsNothing(doc, maxLimit, 0, level, seen);
    } else {
      var n := |sel| - 1;
      var p := Walk(doc, maxLimit, sel[..n], level, seen);
      var q := Visit(doc, maxLimit, sel[n], level, p.seen);
      WalkAccounts(doc, maxLimit, sel[..n], level, seen);
      VisitAccounts(doc, maxLimit, sel[n], level, p.seen);
      AccountsThen(doc, maxLimit, Own(maxLimit, sel[..n]), Occurrences(sel[..n]), OwnOf(maxLimit, sel[n]), OccurrencesOf(sel[n]),
                   seen, p, q, Max(p.depth, q.depth));
    }
  }

  lemma {:induction false} VisitAccounts(doc: Document, maxLimit: int, s: Selection, level: int, seen: set<string>)
    ensures Accounts(doc, maxLimit, OwnOf(maxLimit, s), OccurrencesOf(s), seen, Visit(doc, maxLimit, s, level, seen))
    decreases doc.Keys - seen, s, 1
  {
    hide Accounts, Walk, Own, Occurrences;
    match s
    case Leaf(limit) => AccountsNothing(doc, maxLimit, FieldCost(limit, maxLimit), level + 1, seen);
    case Field(limit, children) =>
      WalkAccounts(doc, maxLimit, children, level + 1, seen);
      AccountsField(doc, maxLimit, Own(maxLimit, children), Occurrences(children), seen,
                    Walk(doc, maxLimit, children, level + 1, seen), FieldCost(limit, maxLimit));
    case Inline(body) => WalkAccounts(doc, maxLimit, body, level, seen);
    case Spread(name) =>
      if name in seen {
        AccountsSkip(doc, maxLimit, name, level, seen);
      } else if name in doc {
        assert name in doc.Keys - seen && name !in doc.Keys - (seen + {name});
        WalkAccounts(doc, maxLimit, doc[name], level, seen + {name});
        AccountsEnter(doc, maxLimit, name, seen, Walk(doc, maxLimit, doc[name], level, seen + {name}));
      } else {
        AccountsMissing(doc, maxLimit, name, level, seen);
      }
  }

  // ── The visited names are the reachable ones ──────────────────────────────

  lemma {:induction false} ChainVisited(doc: Document, sel: seq<Selection>, path: seq<string>, f: string, visited: set<string>)
    requires ChainTo(doc, sel, path, f)
    requires forall x :: x in Occurrences(sel) ==> x in visited
    requires forall g, x :: g in visited && g in doc && x in Occurrences(doc[g]) ==> x in visited
    ensures f in visited
    decreases |path|
  {
    hide Occurrences;
    if |path| > 1 { ChainVisited(doc, doc[path[0]], path[1..], f, visited); }
  }

  lemma ReachableStep(doc: Document, sel: seq<Selection>, name: string, f: string)
    requires name in Occurrences(sel) && name in doc && Reachable(doc, doc[name], f)
    ensures Reachable(doc, sel, f)
  {
    hide Occurrences;
    var path :| ChainTo(doc, doc[name], path, f);
    var longer := [name] + path;
    assert longer[1..] == path;
    assert ChainTo(doc, sel, longer, f);
  }

  lemma ReachableWider(doc: Document, sel: seq<Selection>, wide: seq<Selection>, f: string)
    requires Occurrences(sel) <= Occurrences(wide) && Reachable(doc, sel, f)
    ensures Reachable(doc, wide, f)
  {
    hide Occurrences;
    var path :| ChainTo(doc, sel, path, f);
    assert ChainTo(doc, wide, path, f);
  }

  lemma ReachableDirect(doc: Document, sel: seq<Selection>, f: string)
    requires f in Occurrences(sel)
    ensures Reachable(doc, sel, f)
  {
    hide Occurrences;
    assert ChainTo(doc, sel, [f], f);
  }

  lemma {:induction false} WalkReaches(doc: Document, maxLimit: int, sel: seq<Selection>, level: int, seen: set<string>, f: string)
    requires f in Walk(doc, maxLimit, sel, level, seen).seen && f !in seen
    ensures Reachable(doc, sel, f)
    decreases doc.Keys - seen, sel, 0
  {
    hide Visit, OccurrencesOf, Reachable;
    var n := |sel| - 1;
    var p := Walk(doc, maxLimit, sel[..n], level, seen);
    if f in p.seen {
      WalkReaches(doc, maxLimit, sel[..n], level, seen, f);
      ReachableWider(doc, sel[..n], sel, f);
    } else {
      VisitReaches(doc, maxLimit, sel, sel[n], level, p.seen, f);
    }
  }

  lemma {:induction false} VisitReaches(doc: Document, maxLimit: int, sel: seq<Selection>, s: Selection, level: int, seen: set<string>, f: string)
    requires f in Visit(doc, maxLimit, s, level, seen).seen && f !in seen
    requires OccurrencesOf(s) <= Occurrences(sel)
    ensures Reachable(doc, sel, f)
    decreases doc.Keys - seen, s, 1
  {
    hide Walk, Occurrences, Reachable;
    match s
    case Leaf(limit) =>
    case Field(limit, children) =>
      WalkReaches(doc, maxLimit, children, level + 1, seen, f);
      ReachableWider(doc, children, sel, f);
    case Inline(body) =>
      WalkReaches(doc, maxLimit, body, level, seen, f);
      ReachableWider(doc, body, sel, f);
    case Spread(name) =>
      assert name in OccurrencesOf(s);
      if f == name {
        ReachableDirect(doc, sel, f);
      } else {
        assert name in doc.Keys - seen && name !in doc.Keys - (seen + {name});
        WalkReaches(doc, maxLimit, doc[name], level, seen + {name}, f);
        ReachableStep(doc, sel, name, f);
      }
  }

  /** A walk of an operation visits exactly the fragments reachable from it. */
  lemma VisitedIsReachable(doc: Document, maxLimit: int, sel: seq<Selection>, level: int, f: string)
    ensures f in Walk(doc, maxLimit, sel, level, {}).seen <==> Reachable(doc, sel, f)
  {
    hide Walk, Own, Occurrences, Chain, ChainTo, Weights, SpreadCounts, Total;
    var r := Walk(doc, maxLimit, sel, level, {});
    WalkAccounts(doc, maxLimit, sel, level, {});
    assert r.seen - {} == r.seen;
    if f in r.seen {
      WalkReaches(doc, maxLimit, sel, level, {}, f);
    }
    if Reachable(doc, sel, f) {
      var path :| ChainTo(doc, sel, path, f);
      ChainVisited(doc, sel, path, f, r.seen);
    }
  }

  /** The cost of an operation is the cost of its own fields plus that of each fragment reachable from
      it, counted once. */
  lemma CostExact(doc: Document, maxLimit: int, sel: seq<Selection>, level: int, reachable: set<string>)
    requires forall f :: f in reachable <==> Reachable(doc, sel, f)
    ensures Walk(doc, maxLimit, sel, level, {}).cost == Own(maxLimit, sel) + Total(Weights(doc, maxLimit), reachable)
  {
    hide Walk, Own, Occurrences, Reachable, Weights, SpreadCounts, Total;
    var r := Walk(doc, maxLimit, sel, level, {});
    WalkAccounts(doc, maxLimit, sel, level, {});
    assert r.seen - {} == r.seen;
    forall f ensures f in r.seen <==> f in reachable { VisitedIsReachable(doc, maxLimit, sel, level, f); }
    assert r.seen == reachable;
  }
}
