/** Sorting and duplicate removal over sequences: the library calls `sort` and `new Set`. */
module Ordering {
  import opened Text

  ghost predicate SortedBy<T>(s: seq<T>, key: T -> string) {
    forall i, j :: 0 <= i < j < |s| ==> Le(key(s[i]), key(s[j]))
  }

  ghost predicate StrictlySortedBy<T>(s: seq<T>, key: T -> string) {
    forall i, j :: 0 <= i < j < |s| ==> Lt(key(s[i]), key(s[j]))
  }

  ghost predicate SameElements<T>(a: seq<T>, b: seq<T>) {
    (forall x :: x in a ==> x in b) && (forall x :: x in b ==> x in a)
  }

  ghost predicate NoDuplicates<T>(s: seq<T>) {
    forall i, j :: 0 <= i < j < |s| ==> s[i] != s[j]
  }

  function Self(s: string): string { s }

  // ── Stable sort by a string key ───────────────────────────────────────────

  function Insert<T>(x: T, s: seq<T>, key: T -> string): (r: seq<T>) {
    if s == [] || Le(key(x), key(s[0])) then [x] + s else [s[0]] + Insert(x, s[1..], key)
  }

  function Sort<T>(s: seq<T>, key: T -> string): (r: seq<T>) {
    if s == [] then [] else Insert(s[0], Sort(s[1..], key), key)
  }

  lemma {:induction false} InsertPermutes<T>(x: T, s: seq<T>, key: T -> string)
    ensures multiset(Insert(x, s, key)) == multiset(s) + multiset{x}
  {
    if s != [] && !Le(key(x), key(s[0])) {
      InsertPermutes(x, s[1..], key);
      assert s == [s[0]] + s[1..];
    }
  }

  lemma {:induction false} InsertSorted<T>(x: T, s: seq<T>, key: T -> string)
    requires SortedBy(s, key)
    ensures SortedBy(Insert(x, s, key), key)
  {
    var r := Insert(x, s, key);
    if s == [] {
    } else if Le(key(x), key(s[0])) {
      forall j | 0 < j < |r| ensures Le(key(r[0]), key(r[j])) {
        if j > 1 { LeTransitive(key(x), key(s[0]), key(s[j - 1])); }
      }
    } else {
      var t := Insert(x, s[1..], key);
      InsertSorted(x, s[1..], key);
      InsertPermutes(x, s[1..], key);
      LeTotal(key(x), key(s[0]));
      forall j | 0 < j < |r| ensures Le(key(r[0]), key(r[j])) {
        assert t[j - 1] in multiset(t);
        assert t[j - 1] == x || t[j - 1] in s[1..];
      }
    }
  }

  lemma {:induction false} SortPermutes<T>(s: seq<T>, key: T -> string)
    ensures SortedBy(Sort(s, key), key)
    ensures multiset(Sort(s, key)) == multiset(s)
  {
    if s != [] {
      SortPermutes(s[1..], key);
      InsertSorted(s[0], Sort(s[1..], key), key);
      InsertPermutes(s[0], Sort(s[1..], key), key);
      assert s == [s[0]] + s[1..];
    }
  }

  lemma PermutationElements<T>(a: seq<T>, b: seq<T>)
    requires multiset(a) == multiset(b)
    ensures |a| == |b| && SameElements(a, b)
  {
    assert |multiset(a)| == |multiset(b)|;
    assert forall x :: x in a <==> x in multiset(a);
    assert forall x :: x in b <==> x in multiset(b);
  }

  /** Sorting permutes its input and orders it by key. */
  lemma SortCorrect<T>(s: seq<T>, key: T -> string)
    ensures SortedBy(Sort(s, key), key)
    ensures multiset(Sort(s, key)) == multiset(s)
    ensures |Sort(s, key)| == |s|
    ensures SameElements(Sort(s, key), s)
  {
    SortPermutes(s, key);
    PermutationElements(Sort(s, key), s);
  }

  /** An ordered sequence is left as it is. */
  lemma {:induction false} SortIdentity<T>(s: seq<T>, key: T -> string)
    requires SortedBy(s, key)
    ensures Sort(s, key) == s
  {
    if s != [] {
      SortIdentity(s[1..], key);
      assert s == [s[0]] + s[1..];
      if |s| > 1 { assert Le(key(s[0]), key(s[1])); }
    }
  }

  /** Two strictly ordered sequences with the same elements are the same sequence. */
  lemma {:induction false} StrictlySortedUnique<T>(a: seq<T>, b: seq<T>, key: T -> string)
    requires StrictlySortedBy(a, key) && StrictlySortedBy(b, key)
    requires SameElements(a, b)
    ensures a == b
  {
    if a == [] {
      assert forall k :: 0 <= k < |b| ==> b[k] in a;
    } else {
      assert a[0] in b;
      assert b[0] in a;
      var i :| 0 <= i < |b| && b[i] == a[0];
      var j :| 0 <= j < |a| && a[j] == b[0];
      if i != 0 {
        assert Lt(key(b[0]), key(b[i]));
        if j != 0 { LeAntisymmetric(key(a[0]), key(b[0])); }
        assert false;
      }
      forall x ensures x in a[1..] <==> x in b[1..] {
        assert x in a[1..] ==> x in a && x != a[0];
        assert x in b[1..] ==> x in b && x != b[0];
        if x in a[1..] { var k :| 0 <= k < |b| && b[k] == x; assert k > 0; assert b[1..][k - 1] == x; }
        if x in b[1..] { var k :| 0 <= k < |a| && a[k] == x; assert k > 0; assert a[1..][k - 1] == x; }
      }
      StrictlySortedUnique(a[1..], b[1..], key);
      assert a == [a[0]] + a[1..] && b == [b[0]] + b[1..];
    }
  }

  /** Distinct keys turn the order into a strict one. */
  lemma SortedDistinctKeys<T>(s: seq<T>, key: T -> string)
    requires SortedBy(s, key)
    requires forall i, j :: 0 <= i < j < |s| ==> key(s[i]) != key(s[j])
    ensures StrictlySortedBy(s, key)
  {
  }

  // ── Sets kept in insertion order ──────────────────────────────────────────

  function Dedupe<T(==)>(s: seq<T>): (r: seq<T>)
    ensures NoDuplicates(r)
    ensures SameElements(r, s)
    ensures NoDuplicates(s) ==> r == s
    ensures |r| <= |s|
  {
    if s == [] then [] else
      var d := Dedupe(s[..|s| - 1]);
      assert s == s[..|s| - 1] + [s[|s| - 1]];
      if s[|s| - 1] in d then d else d + [s[|s| - 1]]
  }

  /** `[...new Set(s)].sort()` */
  function SortedUnique(s: seq<string>): (r: seq<string>)
    ensures StrictlySortedBy(r, Self)
    ensures SameElements(r, s)
    ensures NoDuplicates(r)
    ensures StrictlySortedBy(s, Self) ==> r == s
  {
    var d := Dedupe(s);
    var r := Sort(d, Self);
    assert StrictlySortedBy(r, Self) && SameElements(r, s) by { SortedUniqueCorrect(s); }
    assert StrictlySortedBy(s, Self) ==> r == s by {
      if StrictlySortedBy(s, Self) { StrictlySortedUnique(r, s, Self); }
    }
    r
  }

  lemma SortedUniqueCorrect(s: seq<string>)
    ensures var r := Sort(Dedupe(s), Self); StrictlySortedBy(r, Self) && SameElements(r, s)
  {
    var d := Dedupe(s);
    var r := Sort(d, Self);
    SortCorrect(d, Self);
    NoDuplicatesByMultiset(d, r);
    SortedDistinctKeys(r, Self);
  }

  lemma NoDuplicatesByMultiset<T>(a: seq<T>, b: seq<T>)
    requires NoDuplicates(a) && multiset(a) == multiset(b)
    ensures NoDuplicates(b)
  {
    forall i, j | 0 <= i < j < |b| ensures b[i] != b[j] {
      if b[i] == b[j] {
        assert b == b[..i] + [b[i]] + b[i + 1..j] + [b[j]] + b[j + 1..];
        assert multiset(b)[b[i]] >= 2;
        SingleCopy(a, b[i]);
      }
    }
  }

  lemma {:induction false} SingleCopy<T>(a: seq<T>, x: T)
    requires NoDuplicates(a)
    ensures multiset(a)[x] <= 1
  {
    if a != [] {
      var n := |a| - 1;
      assert a == a[..n] + [a[n]];
      SingleCopy(a[..n], x);
    }
  }

  // ── The sorted listing of a set ───────────────────────────────────────────

  ghost predicate IsLeast(k: string, s: set<string>) {
    k in s && forall x :: x in s ==> Le(k, x)
  }

  lemma {:induction false} LeastExists(s: set<string>) returns (k: string)
    requires s != {}
    ensures IsLeast(k, s)
  {
    var x :| x in s;
    LeReflexive(x);
    if s == {x} {
      k := x;
    } else {
      var j := LeastExists(s - {x});
      LeTotal(j, x);
      k := if Le(j, x) then j else x;
      forall y | y in s ensures Le(k, y) {
        if y != x { LeTransitive(k, j, y); }
      }
    }
  }

  function Least(s: set<string>): (k: string)
    requires s != {}
    ensures IsLeast(k, s)
  {
    assert exists x :: x in s && forall y :: y in s ==> Le(x, y) by { var k := LeastExists(s); }
    assert forall x, y :: x in s && y in s && IsLeast(x, s) && IsLeast(y, s) ==> x == y by {
      forall x, y | x in s && y in s && IsLeast(x, s) && IsLeast(y, s) ensures x == y { LeAntisymmetric(x, y); }
    }
    var k :| k in s && forall y :: y in s ==> Le(k, y);
    k
  }

  /** The elements of a set in ascending order. */
  function Listing(s: set<string>): (r: seq<string>)
    ensures StrictlySortedBy(r, Self)
    ensures forall x :: x in r <==> x in s
    ensures |r| == |s|
  {
    if s == {} then [] else
      var k := Least(s);
      var rest := Listing(s - {k});
      assert forall i :: 0 <= i < |rest| ==> rest[i] in rest;
      [k] + rest
  }

  /** Sorting any enumeration of a set gives its listing. */
  lemma SortedUniqueIsListing(s: seq<string>, elements: set<string>)
    requires forall x :: x in s <==> x in elements
    ensures SortedUnique(s) == Listing(elements)
  {
    StrictlySortedUnique(SortedUnique(s), Listing(elements), Self);
  }
}
