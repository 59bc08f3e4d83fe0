/** Strings as the governance code uses them: trimming, case mapping and the total order
    that every sort in the repository relies on. */
module Text {

  /** White space and line terminators, as `String.prototype.trim` removes them. */
  predicate IsSpace(c: char) {
    var n := c as int;
    || 0x09 <= n <= 0x0D || n == 0x20 || n == 0xA0 || n == 0x1680 || 0x2000 <= n <= 0x200A
    || n == 0x2028 || n == 0x2029 || n == 0x202F || n == 0x205F || n == 0x3000 || n == 0xFEFF
  }

  function TrimStart(s: string): (r: string)
    ensures |r| <= |s| && (r == "" || !IsSpace(r[0]))
    ensures r == s[|s| - |r|..]
    ensures s != "" && !IsSpace(s[0]) ==> r == s
  {
    if s != "" && IsSpace(s[0]) then TrimStart(s[1..]) else s
  }

  function TrimEnd(s: string): (r: string)
    ensures |r| <= |s| && (r == "" || !IsSpace(r[|r| - 1]))
    ensures r == s[..|r|]
    ensures s != "" && !IsSpace(s[|s| - 1]) ==> r == s
  {
    if s != "" && IsSpace(s[|s| - 1]) then TrimEnd(s[..|s| - 1]) else s
  }

  /** No white space at either end. */
  predicate Trimmed(s: string) {
    s == "" || (!IsSpace(s[0]) && !IsSpace(s[|s| - 1]))
  }

  function Trim(s: string): (r: string)
    ensures Trimmed(r)
    ensures Trimmed(s) ==> r == s
  {
    TrimEnd(TrimStart(s))
  }

  function UpperChar(c: char): char {
    if 'a' <= c <= 'z' then (c as int - 32) as char else c
  }

  function LowerChar(c: char): char {
    if 'A' <= c <= 'Z' then (c as int + 32) as char else c
  }

  lemma CaseMaps(c: char)
    ensures UpperChar(UpperChar(c)) == UpperChar(c) && (IsSpace(UpperChar(c)) <==> IsSpace(c))
    ensures LowerChar(LowerChar(c)) == LowerChar(c) && (IsSpace(LowerChar(c)) <==> IsSpace(c))
  {
  }

  /** Case mapping moves the letters a to z onto A to Z in order, and back, and leaves all else alone. */
  lemma CaseMeans(c: char)
    ensures 'a' <= c <= 'z' ==> 'A' <= UpperChar(c) <= 'Z' && UpperChar(c) as int - 'A' as int == c as int - 'a' as int
    ensures 'A' <= c <= 'Z' ==> 'a' <= LowerChar(c) <= 'z' && LowerChar(c) as int - 'a' as int == c as int - 'A' as int
    ensures !('a' <= c <= 'z') ==> UpperChar(c) == c
    ensures !('A' <= c <= 'Z') ==> LowerChar(c) == c
  {
  }

  /** Trimming drops the white space before `i` and from `j` on, and no more. */
  lemma TrimMeans(s: string) returns (i: nat, j: nat)
    ensures i <= j <= |s| && Trim(s) == s[i..j]
    ensures forall k :: 0 <= k < i || j <= k < |s| ==> IsSpace(s[k])
    ensures i < j ==> !IsSpace(s[i]) && !IsSpace(s[j - 1])
  {
    hide IsSpace, TrimStart, TrimEnd, Trimmed;
    var a := TrimStart(s);
    var b := TrimEnd(a);
    i := |s| - |a|;
    j := i + |b|;
    StartDropped(s);
    EndDropped(a);
    Inner(s, a, b, i);
    forall k | j <= k < |s| ensures IsSpace(s[k]) { assert s[k] == a[k - i]; }
    if b != "" { assert b[0] == a[0] == s[i] && b[|b| - 1] == s[j - 1]; }
  }

  lemma Inner(s: string, a: string, b: string, i: nat)
    requires i <= |s| && a == s[i..] && |b| <= |a| && b == a[..|b|]
    ensures b == s[i..i + |b|]
  {
  }

  lemma {:induction false} StartDropped(s: string)
    ensures forall k :: 0 <= k < |s| - |TrimStart(s)| ==> IsSpace(s[k])
  {
    hide IsSpace;
    if s != "" && IsSpace(s[0]) {
      StartDropped(s[1..]);
      forall k | 1 <= k < |s| - |TrimStart(s)| ensures IsSpace(s[k]) { assert s[k] == s[1..][k - 1]; }
    }
  }

  lemma {:induction false} EndDropped(s: string)
    ensures forall k :: |TrimEnd(s)| <= k < |s| ==> IsSpace(s[k])
  {
    hide IsSpace;
    if s != "" && IsSpace(s[|s| - 1]) { EndDropped(s[..|s| - 1]); }
  }

  function Upper(s: string): (r: string)
    ensures |r| == |s| && forall i :: 0 <= i < |s| ==> r[i] == UpperChar(s[i])
  {
    seq(|s|, i requires 0 <= i < |s| => UpperChar(s[i]))
  }

  function Lower(s: string): (r: string)
    ensures |r| == |s| && forall i :: 0 <= i < |s| ==> r[i] == LowerChar(s[i])
  {
    seq(|s|, i requires 0 <= i < |s| => LowerChar(s[i]))
  }

  lemma UpperSettles(s: string)
    ensures Upper(Upper(s)) == Upper(s)
    ensures Trimmed(s) ==> Trimmed(Upper(s))
  {
    hide IsSpace, UpperChar, LowerChar;
    forall i | 0 <= i < |s| ensures Upper(Upper(s))[i] == Upper(s)[i] && (IsSpace(Upper(s)[i]) <==> IsSpace(s[i])) {
      CaseMaps(s[i]);
    }
  }

  lemma LowerSettles(s: string)
    ensures Lower(Lower(s)) == Lower(s)
    ensures Trimmed(s) ==> Trimmed(Lower(s))
  {
    hide IsSpace, UpperChar, LowerChar;
    forall i | 0 <= i < |s| ensures Lower(Lower(s))[i] == Lower(s)[i] && (IsSpace(Lower(s)[i]) <==> IsSpace(s[i])) {
      CaseMaps(s[i]);
    }
  }

  function NormalizeAsset(asset: string): (r: string) {
    Upper(Trim(asset))
  }

  function NormalizeSource(source: string): (r: string) {
    Lower(Trim(source))
  }

  /** Normalising a ticker or a provider name twice is normalising it once. */
  lemma NormalizeIdempotent(s: string)
    ensures NormalizeAsset(NormalizeAsset(s)) == NormalizeAsset(s)
    ensures NormalizeSource(NormalizeSource(s)) == NormalizeSource(s)
  {
    hide Upper, Lower, Trimmed, Trim;
    UpperSettles(Trim(s));
    LowerSettles(Trim(s));
  }

  lemma AlreadyNormal(s: string)
    requires s != "" && forall i :: 0 <= i < |s| ==> !IsSpace(s[i])
    ensures (forall i :: 0 <= i < |s| ==> UpperChar(s[i]) == s[i]) ==> NormalizeAsset(s) == s
    ensures (forall i :: 0 <= i < |s| ==> LowerChar(s[i]) == s[i]) ==> NormalizeSource(s) == s
  {
    hide IsSpace, UpperChar, LowerChar, Trim;
    assert Trimmed(s);
    assert Trim(s) == s;
    if forall i :: 0 <= i < |s| ==> UpperChar(s[i]) == s[i] { assert Upper(s) == s; }
    if forall i :: 0 <= i < |s| ==> LowerChar(s[i]) == s[i] { assert Lower(s) == s; }
  }

  // ── The order of strings ──────────────────────────────────────────────────

  /** Lexicographic order by code point. */
  predicate Le(a: string, b: string) {
    a == "" || (b != "" && (a[0] < b[0] || (a[0] == b[0] && Le(a[1..], b[1..]))))
  }

  predicate Lt(a: string, b: string) {
    a != b && Le(a, b)
  }

  lemma {:induction false} LeReflexive(a: string)
    ensures Le(a, a)
  {
    if a != "" { LeReflexive(a[1..]); }
  }

  lemma {:induction false} LeTotal(a: string, b: string)
    ensures Le(a, b) || Le(b, a)
  {
    if a != "" && b != "" && a[0] == b[0] { LeTotal(a[1..], b[1..]); }
  }

  lemma {:induction false} LeAntisymmetric(a: string, b: string)
    requires Le(a, b) && Le(b, a)
    ensures a == b
  {
    if a != "" && b != "" {
      LeAntisymmetric(a[1..], b[1..]);
      assert a == [a[0]] + a[1..] && b == [b[0]] + b[1..];
    }
  }

  lemma {:induction false} LeTransitive(a: string, b: string, c: string)
    requires Le(a, b) && Le(b, c)
    ensures Le(a, c)
  {
    if a != "" && a[0] == b[0] && b[0] == c[0] { LeTransitive(a[1..], b[1..], c[1..]); }
  }
}
