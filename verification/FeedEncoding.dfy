/** The canonical encoding of a feed policy, and that it tells any two feed policies apart. */
module FeedEncoding {
  import opened Wrappers
  import opened CanonicalJson
  import opened FeedPolicies

  // ── Integers in decimal ───────────────────────────────────────────────────

  function Digit(n: nat): (c: char)
    requires n < 10
  {
    (n + 48) as char
  }

  function Digits(n: nat): (r: string)
    ensures NumberText(r) && r[0] != '-'
  {
    if n < 10 then [Digit(n)] else Digits(n / 10) + [Digit(n % 10)]
  }

  function Decimal(n: int): (r: string)
    ensures NumberText(r)
  {
    if n < 0 then ['-'] + Digits(-n) else Digits(n)
  }

  lemma {:induction false} DigitsInjective(a: nat, b: nat)
    requires Digits(a) == Digits(b)
    ensures a == b
  {
    var w := Digits(a);
    assert w[|w| - 1] == Digit(a % 10) && w[|w| - 1] == Digit(b % 10);
    assert |w| == 1 <==> a < 10;
    assert |w| == 1 <==> b < 10;
    if a >= 10 {
      assert Digits(a / 10) == w[..|w| - 1] && Digits(b / 10) == w[..|w| - 1];
      DigitsInjective(a / 10, b / 10);
    }
  }

  lemma DecimalInjective(a: int, b: int)
    ensures Decimal(a) == Decimal(b) <==> a == b
  {
    if Decimal(a) == Decimal(b) {
      assert Decimal(a)[0] == Decimal(b)[0];
      if a < 0 {
        assert Digits(-a) == Decimal(a)[1..] && Digits(-b) == Decimal(b)[1..];
        DigitsInjective(-a, -b);
      } else {
        DigitsInjective(a, b);
      }
    }
  }

  // ── Feeds as JSON ─────────────────────────────────────────────────────────

  function Num(n: int): Json { Number(Decimal(n)) }

  function OptionalNum(n: Option<int>): Json {
    match n case None => Undefined case Some(v) => Num(v)
  }

  function ProfileName(p: FreshnessProfile): string {
    match p
    case Realtime => "realtime"
    case Standard => "standard"
    case Delayed => "delayed"
  }

  function ProfileJson(p: Option<FreshnessProfile>): Json {
    match p case None => Undefined case Some(v) => Str(ProfileName(v))
  }

  function RoundingName(r: Rounding): string {
    match r
    case HalfUp => "half-up"
    case HalfEven => "half-even"
    case Down => "down"
  }

  function SourcesJson(sources: seq<string>): (r: Json) {
    Arr(seq(|sources|, i requires 0 <= i < |sources| => Str(sources[i])))
  }

  function QuoteEntries(q: QuoteUnit): seq<Entry> {
    [ Entry("currency", Str(CurrencyCode(q.currency))),
      Entry("denomination", Str(q.denomination)),
      Entry("scaleDecimals", Num(q.scaleDecimals)),
      Entry("displayDecimals", Num(q.displayDecimals)),
      Entry("rounding", Str(RoundingName(q.rounding))) ]
  }

  function QuoteJson(q: Option<QuoteUnit>): Json {
    match q case None => Undefined case Some(v) => Obj(QuoteEntries(v))
  }

  function FeedEntries(f: FeedPolicy): seq<Entry> {
    [ Entry("asset", Str(f.asset)),
      Entry("sources", SourcesJson(f.sources)),
      Entry("minSources", Num(f.minSources)),
      Entry("maxDeviationBps", Num(f.maxDeviationBps)),
      Entry("stalenessSeconds", Num(f.stalenessSeconds)),
      Entry("freshnessProfile", ProfileJson(f.freshnessProfile)),
      Entry("freshnessWarnSeconds", OptionalNum(f.freshnessWarnSeconds)),
      Entry("quoteUnit", QuoteJson(f.quoteUnit)),
      Entry("enabled", Bool(f.enabled)) ]
  }

  function FeedJson(f: FeedPolicy): Json {
    Obj(FeedEntries(f))
  }

  // ── Distinct feeds have distinct encodings ────────────────────────────────

  lemma NamesInjective(p: FreshnessProfile, q: FreshnessProfile, c: Currency, d: Currency, r: Rounding, s: Rounding)
    ensures ProfileName(p) == ProfileName(q) <==> p == q
    ensures CurrencyCode(c) == CurrencyCode(d) <==> c == d
    ensures RoundingName(r) == RoundingName(s) <==> r == s
  {
  }

  lemma {:induction false} NormalStrings(xs: seq<string>)
    ensures NormalItems(seq(|xs|, i requires 0 <= i < |xs| => Str(xs[i])))
         == seq(|xs|, i requires 0 <= i < |xs| => Str(xs[i]))
  {
    var items := seq(|xs|, i requires 0 <= i < |xs| => Str(xs[i]));
    if xs != [] {
      NormalStrings(xs[1..]);
      assert items[1..] == seq(|xs[1..]|, i requires 0 <= i < |xs[1..]| => Str(xs[1..][i]));
    }
  }

  lemma SourcesInjective(a: seq<string>, b: seq<string>)
    requires Normal(SourcesJson(a)) == Normal(SourcesJson(b))
    ensures a == b
  {
    NormalStrings(a);
    NormalStrings(b);
    var x := seq(|a|, i requires 0 <= i < |a| => Str(a[i]));
    var y := seq(|b|, i requires 0 <= i < |b| => Str(b[i]));
    assert x == y;
    forall i | 0 <= i < |a| ensures a[i] == b[i] { assert x[i] == y[i]; }
  }

  /** A key that is present under its own name is the field under that name. */
  lemma {:induction false} FieldAt(entries: seq<Entry>, i: nat)
    requires i < |entries| && DistinctKeys(entries)
    ensures Field(entries, entries[i].key)
         == if entries[i].value.Undefined? then None else Some(Normal(entries[i].value))
  {
    if i == 0 {
      if entries[0].value.Undefined? { FieldAbsent(entries[1..], entries[0].key); }
    } else {
      FieldAt(entries[1..], i - 1);
    }
  }

  /** Objects with the same keys in the same places agree field by field. */
  lemma SameKeysSameFields(xs: seq<Entry>, ys: seq<Entry>, i: nat)
    requires DistinctKeys(xs) && DistinctKeys(ys) && i < |xs| && i < |ys|
    requires xs[i].key == ys[i].key
    requires Normal(Obj(xs)) == Normal(Obj(ys))
    ensures xs[i].value.Undefined? <==> ys[i].value.Undefined?
    ensures Normal(xs[i].value) == Normal(ys[i].value)
  {
    NormalAsMaps(xs, ys);
    assert Field(xs, xs[i].key) == Field(ys, xs[i].key);
    FieldAt(xs, i);
    FieldAt(ys, i);
  }

  lemma QuoteKeysDistinct(q: QuoteUnit)
    ensures DistinctKeys(QuoteEntries(q))
    ensures Valid(Obj(QuoteEntries(q)))
  {
    var e := QuoteEntries(q);
    assert |e[0].key| == 8 && |e[1].key| == 12 && |e[2].key| == 13 && |e[3].key| == 15;
    assert |e[4].key| == 8 && e[0].key[0] == 'c' && e[4].key[0] == 'r';
  }

  lemma FeedKeysDistinct(f: FeedPolicy)
    ensures DistinctKeys(FeedEntries(f))
  {
    var e := FeedEntries(f);
    assert |e[0].key| == 5 && |e[1].key| == 7 && |e[2].key| == 10 && |e[3].key| == 15 && |e[4].key| == 16;
    assert |e[5].key| == 16 && |e[6].key| == 20 && |e[7].key| == 9 && |e[8].key| == 7;
    assert e[1].key[0] == 's' && e[8].key[0] == 'e' && e[4].key[0] == 's' && e[5].key[0] == 'f';
  }

  lemma FeedJsonValid(f: FeedPolicy)
    ensures Valid(FeedJson(f))
  {
    FeedKeysDistinct(f);
    if f.quoteUnit.Some? { QuoteKeysDistinct(f.quoteUnit.value); }
    var e := FeedEntries(f);
    assert Valid(e[7].value);
    assert Valid(e[1].value);
    forall i | 0 <= i < |e| ensures Valid(e[i].value) {
      assert i == 0 || i == 1 || i == 2 || i == 3 || i == 4 || i == 5 || i == 6 || i == 7 || i == 8;
    }
  }

  lemma QuoteInjectiveJson(p: QuoteUnit, q: QuoteUnit)
    requires Normal(Obj(QuoteEntries(p))) == Normal(Obj(QuoteEntries(q)))
    ensures p == q
  {
    var xs, ys := QuoteEntries(p), QuoteEntries(q);
    QuoteKeysDistinct(p);
    QuoteKeysDistinct(q);
    forall i | 0 <= i < 5 ensures Normal(xs[i].value) == Normal(ys[i].value) {
      SameKeysSameFields(xs, ys, i);
    }
    assert xs[0].value == ys[0].value && xs[1].value == ys[1].value && xs[2].value == ys[2].value;
    assert xs[3].value == ys[3].value && xs[4].value == ys[4].value;
    DecimalInjective(p.scaleDecimals, q.scaleDecimals);
    DecimalInjective(p.displayDecimals, q.displayDecimals);
    NamesInjective(Realtime, Realtime, p.currency, q.currency, p.rounding, q.rounding);
  }

  lemma FeedFieldsAgree(f: FeedPolicy, g: FeedPolicy)
    requires Normal(FeedJson(f)) == Normal(FeedJson(g))
    ensures forall i :: 0 <= i < 9 ==>
      Normal(FeedEntries(f)[i].value) == Normal(FeedEntries(g)[i].value)
      && (FeedEntries(f)[i].value.Undefined? <==> FeedEntries(g)[i].value.Undefined?)
  {
    hide DistinctKeys, Normal;
    FeedKeysDistinct(f);
    FeedKeysDistinct(g);
    forall i | 0 <= i < 9
      ensures Normal(FeedEntries(f)[i].value) == Normal(FeedEntries(g)[i].value)
        && (FeedEntries(f)[i].value.Undefined? <==> FeedEntries(g)[i].value.Undefined?)
    {
      SameKeysSameFields(FeedEntries(f), FeedEntries(g), i);
    }
  }

  lemma ScalarFieldsAgree(f: FeedPolicy, g: FeedPolicy)
    requires Normal(FeedJson(f)) == Normal(FeedJson(g))
    ensures f.asset == g.asset && f.minSources == g.minSources && f.maxDeviationBps == g.maxDeviationBps
    ensures f.stalenessSeconds == g.stalenessSeconds && f.enabled == g.enabled
  {
    FeedFieldsAgree(f, g);
    var xs, ys := FeedEntries(f), FeedEntries(g);
    assert xs[0].value == ys[0].value && xs[2].value == ys[2].value && xs[3].value == ys[3].value;
    assert xs[4].value == ys[4].value && xs[8].value == ys[8].value;
    DecimalInjective(f.minSources, g.minSources);
    DecimalInjective(f.maxDeviationBps, g.maxDeviationBps);
    DecimalInjective(f.stalenessSeconds, g.stalenessSeconds);
  }

  lemma OptionalFieldsAgree(f: FeedPolicy, g: FeedPolicy)
    requires Normal(FeedJson(f)) == Normal(FeedJson(g))
    ensures f.freshnessProfile == g.freshnessProfile && f.freshnessWarnSeconds == g.freshnessWarnSeconds
  {
    FeedFieldsAgree(f, g);
    var xs, ys := FeedEntries(f), FeedEntries(g);
    assert Normal(xs[5].value) == Normal(ys[5].value) && (xs[5].value.Undefined? <==> ys[5].value.Undefined?);
    if f.freshnessProfile.Some? {
      NamesInjective(f.freshnessProfile.value, g.freshnessProfile.value, USD, USD, Down, Down);
    }
    assert Normal(xs[6].value) == Normal(ys[6].value) && (xs[6].value.Undefined? <==> ys[6].value.Undefined?);
    if f.freshnessWarnSeconds.Some? {
      DecimalInjective(f.freshnessWarnSeconds.value, g.freshnessWarnSeconds.value);
    }
  }

  lemma NestedFieldsAgree(f: FeedPolicy, g: FeedPolicy)
    requires Normal(FeedJson(f)) == Normal(FeedJson(g))
    ensures f.quoteUnit == g.quoteUnit && f.sources == g.sources
  {
    FeedFieldsAgree(f, g);
    var xs, ys := FeedEntries(f), FeedEntries(g);
    assert Normal(xs[1].value) == Normal(ys[1].value);
    SourcesInjective(f.sources, g.sources);
    assert Normal(xs[7].value) == Normal(ys[7].value) && (xs[7].value.Undefined? <==> ys[7].value.Undefined?);
    if f.quoteUnit.Some? { QuoteInjectiveJson(f.quoteUnit.value, g.quoteUnit.value); }
  }

  /** Comparing encodings is comparing feeds. */
  lemma FeedEncodingExact(f: FeedPolicy, g: FeedPolicy)
    ensures Canonical(FeedJson(f)) == Canonical(FeedJson(g)) <==> f == g
  {
    FeedJsonValid(f);
    FeedJsonValid(g);
    CanonicalExact(FeedJson(f), FeedJson(g));
    if Normal(FeedJson(f)) == Normal(FeedJson(g)) {
      ScalarFieldsAgree(f, g);
      OptionalFieldsAgree(f, g);
      NestedFieldsAgree(f, g);
    }
  }
}
