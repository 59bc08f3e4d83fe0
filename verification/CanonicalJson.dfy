/** Deterministic serialisation: `canonicalJson` over JSON-like values, and the proof that two
    values share an encoding exactly when they differ only in key order, in `undefined` keys, or
    in writing `undefined` for `null`. */
module CanonicalJson {
  import opened Wrappers
  import opened Text
  import opened Ordering

  /** A finite number is represented by the text `JSON.stringify` gives it. */
  datatype Json =
    | Undefined
    | Null
    | Bool(b: bool)
    | Number(text: string)
    | Str(s: string)
    | Arr(items: seq<Json>)
    | Obj(entries: seq<Entry>)

  datatype Entry = Entry(key: string, value: Json)

  predicate NumberChar(c: char) {
    '0' <= c <= '9' || c == '-' || c == '+' || c == '.' || c == 'e'
  }

  predicate NumberText(s: string) {
    s != "" && forall i :: 0 <= i < |s| ==> NumberChar(s[i])
  }

  /** Numbers print as number text and no object repeats a key. */
  ghost predicate Valid(v: Json) {
    match v
    case Number(t) => NumberText(t)
    case Arr(items) => forall i :: 0 <= i < |items| ==> Valid(items[i])
    case Obj(entries) =>
      && (forall i :: 0 <= i < |entries| ==> Valid(entries[i].value))
      && DistinctKeys(entries)
    case _ => true
  }

  ghost predicate DistinctKeys(entries: seq<Entry>) {
    forall i, j :: 0 <= i < j < |entries| ==> entries[i].key != entries[j].key
  }

  // ── Strings, escaped as in section 7 of RFC 8259 ──────────────────────────

  function HexDigit(n: int): (c: char)
    requires 0 <= n < 16
  {
    if n < 10 then (n + 48) as char else (n + 87) as char
  }

  /** The character after the backslash of a two-character escape, if there is one. */
  function ShortEscape(c: char): (r: Option<char>) {
    if c == '"' then Some('"')
    else if c == '\\' then Some('\\')
    else if c as int == 8 then Some('b')
    else if c as int == 12 then Some('f')
    else if c == '\n' then Some('n')
    else if c == '\r' then Some('r')
    else if c == '\t' then Some('t')
    else None
  }

  function Escape(c: char): (r: string) {
    if ShortEscape(c).Some? then ['\\', ShortEscape(c).value]
    else if c as int < 32 then ['\\', 'u', '0', '0', HexDigit(c as int / 16), HexDigit(c as int % 16)]
    else [c]
  }

  function EscapeAll(s: string): (r: string) {
    if s == "" then "" else Escape(s[0]) + EscapeAll(s[1..])
  }

  function Quote(s: string): (r: string) {
    ['"'] + EscapeAll(s) + ['"']
  }

  lemma EscapeHead(c: char)
    ensures |Escape(c)| > 0 && Escape(c)[0] != '"'
    ensures Escape(c)[0] == '\\' <==> ShortEscape(c).Some? || c as int < 32
  {
  }

  lemma EscapePrefixFree(c: char, x: string, d: char, y: string)
    requires Escape(c) + x == Escape(d) + y
    ensures c == d && x == y
  {
    EscapeHead(c);
    EscapeHead(d);
    var w := Escape(c) + x;
    assert w[0] == Escape(c)[0] && w[0] == Escape(d)[0];
    if w[0] != '\\' {
      assert c == d;
    } else {
      assert w[1] == Escape(c)[1] && w[1] == Escape(d)[1];
      if ShortEscape(c).None? {
        assert w[4] == Escape(c)[4] && w[4] == Escape(d)[4];
        assert w[5] == Escape(c)[5] && w[5] == Escape(d)[5];
        assert c as int / 16 == d as int / 16;
      }
      assert c == d;
    }
    assert x == w[|Escape(c)|..] && y == w[|Escape(d)|..];
  }

  lemma EscapedHead(s: string, x: string)
    ensures var w := EscapeAll(s) + ['"'] + x; |w| > 0 && (w[0] == '"' <==> s == "")
  {
    if s != "" { EscapeHead(s[0]); }
  }

  /** A quoted string can be read back whatever follows it. */
  lemma {:induction false} EscapedInjective(s: string, x: string, t: string, y: string)
    requires EscapeAll(s) + ['"'] + x == EscapeAll(t) + ['"'] + y
    ensures s == t && x == y
  {
    hide Escape;
    var w := EscapeAll(s) + ['"'] + x;
    EscapedHead(s, x);
    EscapedHead(t, y);
    if s == "" {
      assert x == w[1..] && y == w[1..];
    } else {
      var p, q := EscapeAll(s[1..]) + ['"'] + x, EscapeAll(t[1..]) + ['"'] + y;
      assert w == Escape(s[0]) + p && w == Escape(t[0]) + q;
      EscapePrefixFree(s[0], p, t[0], q);
      EscapedInjective(s[1..], x, t[1..], y);
      assert s == [s[0]] + s[1..] && t == [t[0]] + t[1..];
    }
  }

  lemma QuoteInjective(s: string, x: string, t: string, y: string)
    requires Quote(s) + x == Quote(t) + y
    ensures s == t && x == y
  {
    var p, q := EscapeAll(s) + ['"'] + x, EscapeAll(t) + ['"'] + y;
    assert Quote(s) + x == ['"'] + p && Quote(t) + y == ['"'] + q;
    assert p == (['"'] + p)[1..] && q == (['"'] + q)[1..];
    EscapedInjective(s, x, t, y);
  }

  // ── canonicalJson ─────────────────────────────────────────────────────────

  datatype Rendered = Rendered(key: string, text: string)

  function RenderedKey(r: Rendered): string { r.key }

  function Canonical(v: Json): (r: string) {
    match v
    case Undefined => "null"
    case Null => "null"
    case Bool(b) => if b then "true" else "false"
    case Number(t) => t
    case Str(s) => Quote(s)
    case Arr(items) => ['['] + CanonicalItems(items) + [']']
    case Obj(entries) => ['{'] + JoinRendered(Sort(RenderEntries(entries), RenderedKey)) + ['}']
  }

  function CanonicalItems(items: seq<Json>): (r: string) {
    if items == [] then ""
    else if |items| == 1 then Canonical(items[0])
    else Canonical(items[0]) + [','] + CanonicalItems(items[1..])
  }

  function RenderEntries(entries: seq<Entry>): (r: seq<Rendered>) {
    if entries == [] then []
    else if entries[0].value.Undefined? then RenderEntries(entries[1..])
    else [Rendered(entries[0].key, Canonical(entries[0].value))] + RenderEntries(entries[1..])
  }

  function JoinRendered(rs: seq<Rendered>): (r: string) {
    if rs == [] then ""
    else if |rs| == 1 then Quote(rs[0].key) + [':'] + rs[0].text
    else Quote(rs[0].key) + [':'] + rs[0].text + ([','] + JoinRendered(rs[1..]))
  }

  // ── The logical value an encoding stands for ──────────────────────────────

  function EntryKey(e: Entry): string { e.key }

  /** `undefined` read as `null`, keys sorted, `undefined` keys dropped, all the way down. */
  function Normal(v: Json): (r: Json) {
    match v
    case Undefined => Null
    case Arr(items) => Arr(NormalItems(items))
    case Obj(entries) => Obj(Sort(NormalEntries(entries), EntryKey))
    case _ => v
  }

  function NormalItems(items: seq<Json>): (r: seq<Json>)
    ensures |r| == |items|
  {
    if items == [] then [] else [Normal(items[0])] + NormalItems(items[1..])
  }

  function NormalEntries(entries: seq<Entry>): (r: seq<Entry>) {
    if entries == [] then []
    else if entries[0].value.Undefined? then NormalEntries(entries[1..])
    else [Entry(entries[0].key, Normal(entries[0].value))] + NormalEntries(entries[1..])
  }

  /** Printing with no sorting and nothing dropped. */
  function Print(v: Json): (r: string) {
    match v
    case Undefined => "null"
    case Null => "null"
    case Bool(b) => if b then "true" else "false"
    case Number(t) => t
    case Str(s) => Quote(s)
    case Arr(items) => ['['] + PrintItems(items) + [']']
    case Obj(entries) => ['{'] + PrintEntries(entries) + ['}']
  }

  function PrintItems(items: seq<Json>): (r: string) {
    if items == [] then ""
    else if |items| == 1 then Print(items[0])
    else Print(items[0]) + [','] + PrintItems(items[1..])
  }

  function PrintEntries(entries: seq<Entry>): (r: string) {
    if entries == [] then ""
    else if |entries| == 1 then Quote(entries[0].key) + [':'] + Print(entries[0].value)
    else Quote(entries[0].key) + [':'] + Print(entries[0].value) + ([','] + PrintEntries(entries[1..]))
  }

  /** The encoding is the plain printing of the logical value. */
  lemma {:induction false} CanonicalPrintsNormal(v: Json)
    ensures Canonical(v) == Print(Normal(v))
    decreases v
  {
    match v
    case Arr(items) => CanonicalPrintsItems(items);
    case Obj(entries) =>
      RenderMatchesNormal(entries);
      SortMatches(RenderEntries(entries), NormalEntries(entries));
      JoinMatches(Sort(RenderEntries(entries), RenderedKey), Sort(NormalEntries(entries), EntryKey));
    case _ =>
  }

  lemma {:induction false} CanonicalPrintsItems(items: seq<Json>)
    ensures CanonicalItems(items) == PrintItems(NormalItems(items))
    decreases items
  {
    if items != [] {
      CanonicalPrintsNormal(items[0]);
      CanonicalPrintsItems(items[1..]);
      assert NormalItems(items)[1..] == NormalItems(items[1..]);
    }
  }

  ghost predicate Matches(rs: seq<Rendered>, es: seq<Entry>) {
    |rs| == |es| && forall i :: 0 <= i < |rs| ==> rs[i].key == es[i].key && rs[i].text == Print(es[i].value)
  }

  lemma {:induction false} RenderMatchesNormal(entries: seq<Entry>)
    ensures Matches(RenderEntries(entries), NormalEntries(entries))
    decreases entries
  {
    if entries != [] {
      CanonicalPrintsNormal(entries[0].value);
      RenderMatchesNormal(entries[1..]);
    }
  }

  lemma {:induction false} InsertMatches(r: Rendered, rs: seq<Rendered>, e: Entry, es: seq<Entry>)
    requires Matches(rs, es) && r.key == e.key && r.text == Print(e.value)
    ensures Matches(Insert(r, rs, RenderedKey), Insert(e, es, EntryKey))
  {
    if rs != [] && !Le(r.key, rs[0].key) { InsertMatches(r, rs[1..], e, es[1..]); }
  }

  lemma {:induction false} SortMatches(rs: seq<Rendered>, es: seq<Entry>)
    requires Matches(rs, es)
    ensures Matches(Sort(rs, RenderedKey), Sort(es, EntryKey))
  {
    if rs != [] {
      SortMatches(rs[1..], es[1..]);
      InsertMatches(rs[0], Sort(rs[1..], RenderedKey), es[0], Sort(es[1..], EntryKey));
    }
  }

  lemma {:induction false} JoinMatches(rs: seq<Rendered>, es: seq<Entry>)
    requires Matches(rs, es)
    ensures JoinRendered(rs) == PrintEntries(es)
  {
    if rs != [] { JoinMatches(rs[1..], es[1..]); }
  }

  // ── Reading an encoding back ──────────────────────────────────────────────

  /** No `undefined` left, and numbers print as number text. */
  ghost predicate Plain(v: Json) {
    match v
    case Undefined => false
    case Number(t) => NumberText(t)
    case Arr(items) => forall i :: 0 <= i < |items| ==> Plain(items[i])
    case Obj(entries) => forall i :: 0 <= i < |entries| ==> Plain(entries[i].value)
    case _ => true
  }

  lemma PrintHead(v: Json)
    requires Plain(v)
    ensures |Print(v)| > 0
    ensures var h := Print(v)[0];
      && (h == 'n' <==> v.Null?) && (h == 't' || h == 'f' <==> v.Bool?) && (h == '"' <==> v.Str?)
      && (h == '[' <==> v.Arr?) && (h == '{' <==> v.Obj?) && (NumberChar(h) <==> v.Number?)
      && h != ',' && h != ']' && h != '}'
  {
  }

  /** What may follow a value inside an encoding: nothing, or a separator. */
  predicate Follows(s: string) {
    s == "" || s[0] == ',' || s[0] == ']' || s[0] == '}'
  }

  ghost predicate NumberEndsAt(w: string, n: nat) {
    n <= |w| && (forall i :: 0 <= i < n ==> NumberChar(w[i])) && (n < |w| ==> !NumberChar(w[n]))
  }

  lemma NumberInjective(a: string, s: string, b: string, t: string)
    requires NumberText(a) && NumberText(b) && Follows(s) && Follows(t)
    requires a + s == b + t
    ensures a == b && s == t
  {
    var w := a + s;
    assert NumberEndsAt(w, |a|);
    assert NumberEndsAt(b + t, |b|);
    assert a == w[..|a|] && b == w[..|b|] && s == w[|a|..] && t == w[|b|..];
  }

  lemma StripHead(c: char, d: char, x: string, y: string)
    requires [c] + x == [d] + y
    ensures c == d && x == y
  {
    assert x == ([c] + x)[1..] && y == ([d] + y)[1..];
    assert c == ([c] + x)[0] && d == ([d] + y)[0];
  }

  lemma BoolInjective(a: bool, s: string, b: bool, t: string)
    requires Print(Bool(a)) + s == Print(Bool(b)) + t
    ensures a == b && s == t
  {
    var w := Print(Bool(a)) + s;
    assert w[0] == Print(Bool(a))[0] && w[0] == Print(Bool(b))[0];
    assert s == w[|Print(Bool(a))|..] && t == w[|Print(Bool(b))|..];
  }

  lemma BracketSplit(open: char, body: string, close: char, s: string)
    ensures [open] + body + [close] + s == [open] + (body + ([close] + s))
  {
  }

  /** The plain printing determines the value and where it ends. */
  lemma {:induction false} PrintInjective(a: Json, s: string, b: Json, t: string)
    requires Plain(a) && Plain(b) && Follows(s) && Follows(t)
    requires Print(a) + s == Print(b) + t
    ensures a == b && s == t
    decreases a
  {
    hide PrintItems, PrintEntries, Quote, NumberChar;
    PrintHead(a);
    PrintHead(b);
    assert Print(a)[0] == (Print(a) + s)[0] && Print(b)[0] == (Print(b) + t)[0];
    match a
    case Null =>
      assert s == ("null" + s)[4..] && t == ("null" + t)[4..];
    case Bool(x) => BoolInjective(x, s, b.b, t);
    case Number(x) => NumberInjective(x, s, b.text, t);
    case Str(x) => QuoteInjective(x, s, b.s, t);
    case Arr(items) =>
      var p, q := PrintItems(items) + ([']'] + s), PrintItems(b.items) + ([']'] + t);
      BracketSplit('[', PrintItems(items), ']', s);
      BracketSplit('[', PrintItems(b.items), ']', t);
      StripHead('[', '[', p, q);
      ItemsInjective(items, s, b.items, t);
    case Obj(entries) =>
      var p, q := PrintEntries(entries) + (['}'] + s), PrintEntries(b.entries) + (['}'] + t);
      BracketSplit('{', PrintEntries(entries), '}', s);
      BracketSplit('{', PrintEntries(b.entries), '}', t);
      StripHead('{', '{', p, q);
      EntriesInjective(entries, s, b.entries, t);
  }

  /** The text after the first item of a non-empty list. */
  function ItemsRest(items: seq<Json>, s: string): string
    requires items != []
  {
    if |items| == 1 then [']'] + s else [','] + (PrintItems(items[1..]) + ([']'] + s))
  }

  lemma ItemsSplit(items: seq<Json>, s: string)
    requires items != []
    ensures PrintItems(items) + ([']'] + s) == Print(items[0]) + ItemsRest(items, s)
    ensures Follows(ItemsRest(items, s))
  {
    hide Print;
  }

  lemma ItemsHead(items: seq<Json>, s: string)
    requires forall i :: 0 <= i < |items| ==> Plain(items[i])
    ensures var w := PrintItems(items) + ([']'] + s); |w| > 0 && (w[0] == ']' <==> items == [])
  {
    if items != [] { PrintHead(items[0]); }
  }

  lemma ItemsTail(xs: seq<Json>, s: string, ys: seq<Json>, t: string)
    requires xs != [] && ys != []
    requires ItemsRest(xs, s) == ItemsRest(ys, t)
    ensures |xs| == 1 <==> |ys| == 1
    ensures |xs| == 1 ==> s == t
    ensures |xs| > 1 ==> PrintItems(xs[1..]) + ([']'] + s) == PrintItems(ys[1..]) + ([']'] + t)
  {
    hide PrintItems;
    var p, q := ItemsRest(xs, s), ItemsRest(ys, t);
    StripHead(p[0], q[0], p[1..], q[1..]);
  }

  lemma {:induction false} ItemsInjective(xs: seq<Json>, s: string, ys: seq<Json>, t: string)
    requires (forall i :: 0 <= i < |xs| ==> Plain(xs[i])) && (forall i :: 0 <= i < |ys| ==> Plain(ys[i]))
    requires PrintItems(xs) + ([']'] + s) == PrintItems(ys) + ([']'] + t)
    ensures xs == ys && s == t
    decreases xs
  {
    hide Print, PrintItems, ItemsRest, Plain;
    ItemsHead(xs, s);
    ItemsHead(ys, t);
    if xs == [] {
      NoItems(s);
      NoItems(t);
      StripHead(']', ']', s, t);
    } else {
      ItemsSplit(xs, s);
      ItemsSplit(ys, t);
      PrintInjective(xs[0], ItemsRest(xs, s), ys[0], ItemsRest(ys, t));
      ItemsTail(xs, s, ys, t);
      if |xs| > 1 { ItemsInjective(xs[1..], s, ys[1..], t); }
      assert xs == [xs[0]] + xs[1..] && ys == [ys[0]] + ys[1..];
    }
  }

  lemma NoItems(s: string)
    ensures PrintItems([]) + ([']'] + s) == [']'] + s
    ensures PrintEntries([]) + (['}'] + s) == ['}'] + s
  {
  }

  function EntriesRest(entries: seq<Entry>, s: string): string
    requires entries != []
  {
    if |entries| == 1 then ['}'] + s else ([','] + PrintEntries(entries[1..])) + (['}'] + s)
  }

  lemma EntriesSplit(entries: seq<Entry>, s: string)
    requires entries != []
    ensures PrintEntries(entries) + (['}'] + s)
         == Quote(entries[0].key) + ([':'] + (Print(entries[0].value) + EntriesRest(entries, s)))
    ensures Follows(EntriesRest(entries, s))
  {
    hide Print, Quote;
    var q, v := Quote(entries[0].key), Print(entries[0].value);
    if |entries| == 1 {
      EntryAssociates(q, v, "", ['}'] + s);
    } else {
      EntryAssociates(q, v, [','] + PrintEntries(entries[1..]), ['}'] + s);
    }
  }

  lemma EntryAssociates(q: string, v: string, more: string, rest: string)
    ensures q + [':'] + v + rest == q + ([':'] + (v + rest))
    ensures q + [':'] + v + more + rest == q + ([':'] + (v + (more + rest)))
  {
  }

  lemma EntriesHead(entries: seq<Entry>, s: string)
    ensures var w := PrintEntries(entries) + (['}'] + s); |w| > 0 && (w[0] == '}' <==> entries == [])
  {
    if entries != [] { assert Quote(entries[0].key)[0] == '"'; }
  }

  lemma EntriesTail(xs: seq<Entry>, s: string, ys: seq<Entry>, t: string)
    requires xs != [] && ys != []
    requires EntriesRest(xs, s) == EntriesRest(ys, t)
    ensures |xs| == 1 <==> |ys| == 1
    ensures |xs| == 1 ==> s == t
    ensures |xs| > 1 ==> PrintEntries(xs[1..]) + (['}'] + s) == PrintEntries(ys[1..]) + (['}'] + t)
  {
    hide PrintEntries;
    var p, q := EntriesRest(xs, s), EntriesRest(ys, t);
    if |xs| > 1 { assert p[1..] == PrintEntries(xs[1..]) + (['}'] + s); }
    if |ys| > 1 { assert q[1..] == PrintEntries(ys[1..]) + (['}'] + t); }
    StripHead(p[0], q[0], p[1..], q[1..]);
  }

  lemma {:induction false} EntriesInjective(xs: seq<Entry>, s: string, ys: seq<Entry>, t: string)
    requires (forall i :: 0 <= i < |xs| ==> Plain(xs[i].value)) && (forall i :: 0 <= i < |ys| ==> Plain(ys[i].value))
    requires PrintEntries(xs) + (['}'] + s) == PrintEntries(ys) + (['}'] + t)
    ensures xs == ys && s == t
    decreases xs
  {
    hide Print, PrintEntries, EntriesRest, Plain, Quote;
    EntriesHead(xs, s);
    EntriesHead(ys, t);
    if xs == [] {
      NoItems(s);
      NoItems(t);
      StripHead('}', '}', s, t);
    } else {
      EntriesSplit(xs, s);
      EntriesSplit(ys, t);
      var p, q := Print(xs[0].value) + EntriesRest(xs, s), Print(ys[0].value) + EntriesRest(ys, t);
      QuoteInjective(xs[0].key, [':'] + p, ys[0].key, [':'] + q);
      StripHead(':', ':', p, q);
      PrintInjective(xs[0].value, EntriesRest(xs, s), ys[0].value, EntriesRest(ys, t));
      EntriesTail(xs, s, ys, t);
      if |xs| > 1 { EntriesInjective(xs[1..], s, ys[1..], t); }
      assert xs == [xs[0]] + xs[1..] && ys == [ys[0]] + ys[1..];
    }
  }

  // ── When two values share an encoding ─────────────────────────────────────

  lemma {:induction false} NormalPlain(v: Json)
    requires Valid(v)
    ensures Plain(Normal(v))
    decreases v
  {
    match v
    case Arr(items) => NormalItemsPlain(items);
    case Obj(entries) =>
      NormalEntriesPlain(entries);
      SortCorrect(NormalEntries(entries), EntryKey);
      forall i | 0 <= i < |Sort(NormalEntries(entries), EntryKey)|
        ensures Plain(Sort(NormalEntries(entries), EntryKey)[i].value)
      {
        assert Sort(NormalEntries(entries), EntryKey)[i] in NormalEntries(entries);
      }
    case _ =>
  }

  lemma {:induction false} NormalItemsPlain(items: seq<Json>)
    requires forall i :: 0 <= i < |items| ==> Valid(items[i])
    ensures forall i :: 0 <= i < |items| ==> Plain(NormalItems(items)[i])
    decreases items
  {
    if items != [] {
      NormalPlain(items[0]);
      NormalItemsPlain(items[1..]);
    }
  }

  lemma {:induction false} NormalEntriesPlain(entries: seq<Entry>)
    requires forall i :: 0 <= i < |entries| ==> Valid(entries[i].value)
    ensures forall e :: e in NormalEntries(entries) ==> Plain(e.value)
    decreases entries
  {
    if entries != [] {
      NormalPlain(entries[0].value);
      NormalEntriesPlain(entries[1..]);
    }
  }

  /** Two values have the same encoding exactly when they stand for the same logical value. */
  lemma CanonicalExact(a: Json, b: Json)
    requires Valid(a) && Valid(b)
    ensures Canonical(a) == Canonical(b) <==> Normal(a) == Normal(b)
  {
    CanonicalPrintsNormal(a);
    CanonicalPrintsNormal(b);
    NormalPlain(a);
    NormalPlain(b);
    if Canonical(a) == Canonical(b) {
      assert Print(Normal(a)) + "" == Print(Normal(b)) + "";
      PrintInjective(Normal(a), "", Normal(b), "");
    }
  }

  // ── Objects as maps ───────────────────────────────────────────────────────

  /** What an object holds under a key; an `undefined` value is no value. */
  function Field(entries: seq<Entry>, key: string): (r: Option<Json>) {
    if entries == [] then None
    else if entries[0].key == key && !entries[0].value.Undefined? then Some(Normal(entries[0].value))
    else Field(entries[1..], key)
  }

  ghost predicate SameFields(xs: seq<Entry>, ys: seq<Entry>) {
    forall k :: Field(xs, k) == Field(ys, k)
  }

  lemma {:induction false} NormalEntriesField(entries: seq<Entry>, e: Entry)
    requires DistinctKeys(entries)
    ensures e in NormalEntries(entries) <==> Field(entries, e.key) == Some(e.value)
  {
    if entries != [] {
      NormalEntriesField(entries[1..], e);
      if entries[0].key == e.key { FieldAbsent(entries[1..], e.key); }
    }
  }

  lemma {:induction false} FieldAbsent(entries: seq<Entry>, key: string)
    requires forall i :: 0 <= i < |entries| ==> entries[i].key != key
    ensures Field(entries, key) == None
  {
    if entries != [] { FieldAbsent(entries[1..], key); }
  }

  lemma {:induction false} NormalEntriesKeys(entries: seq<Entry>, key: string)
    requires forall i :: 0 <= i < |entries| ==> entries[i].key != key
    ensures forall i :: 0 <= i < |NormalEntries(entries)| ==> NormalEntries(entries)[i].key != key
  {
    hide Normal;
    if entries != [] { NormalEntriesKeys(entries[1..], key); }
  }

  lemma {:induction false} NormalEntriesDistinct(entries: seq<Entry>)
    requires DistinctKeys(entries)
    ensures DistinctKeys(NormalEntries(entries))
  {
    hide Normal;
    if entries != [] {
      NormalEntriesDistinct(entries[1..]);
      NormalEntriesKeys(entries[1..], entries[0].key);
    }
  }

  lemma NormalEntriesOrdered(entries: seq<Entry>)
    requires DistinctKeys(entries)
    ensures StrictlySortedBy(Sort(NormalEntries(entries), EntryKey), EntryKey)
    ensures SameElements(Sort(NormalEntries(entries), EntryKey), NormalEntries(entries))
  {
    var n := NormalEntries(entries);
    NormalEntriesDistinct(entries);
    SortCorrect(n, EntryKey);
    var r := Sort(n, EntryKey);
    NoDuplicatesByMultiset(n, r);
    forall i, j | 0 <= i < j < |r| ensures r[i].key != r[j].key {
      assert r[i] in n && r[j] in n;
    }
    SortedDistinctKeys(r, EntryKey);
  }

  lemma NormalAsMaps(xs: seq<Entry>, ys: seq<Entry>)
    requires DistinctKeys(xs) && DistinctKeys(ys)
    ensures Normal(Obj(xs)) == Normal(Obj(ys)) <==> SameFields(xs, ys)
  {
    if SameFields(xs, ys) {
      SameFieldsSameObject(xs, ys);
      assert Normal(Obj(xs)) == Normal(Obj(ys));
    }
    if Normal(Obj(xs)) == Normal(Obj(ys)) {
      forall k ensures Field(xs, k) == Field(ys, k) { SameField(xs, ys, k); }
    }
  }

  /** Two objects have the same encoding exactly when they hold the same under every key: the order of the
      keys and keys set to `undefined` do not matter. */
  lemma ObjectsAsMaps(xs: seq<Entry>, ys: seq<Entry>)
    requires Valid(Obj(xs)) && Valid(Obj(ys))
    ensures Canonical(Obj(xs)) == Canonical(Obj(ys)) <==> SameFields(xs, ys)
  {
    hide Canonical, Normal, SameFields;
    CanonicalExact(Obj(xs), Obj(ys));
    ValidKeys(xs);
    ValidKeys(ys);
    NormalAsMaps(xs, ys);
  }

  lemma ValidKeys(xs: seq<Entry>)
    requires Valid(Obj(xs))
    ensures DistinctKeys(xs)
  {
  }

  lemma SameFieldsSameObject(xs: seq<Entry>, ys: seq<Entry>)
    requires DistinctKeys(xs) && DistinctKeys(ys)
    requires SameFields(xs, ys)
    ensures Sort(NormalEntries(xs), EntryKey) == Sort(NormalEntries(ys), EntryKey)
  {
    NormalEntriesOrdered(xs);
    NormalEntriesOrdered(ys);
    forall e ensures e in NormalEntries(xs) <==> e in NormalEntries(ys) {
      NormalEntriesField(xs, e);
      NormalEntriesField(ys, e);
    }
    StrictlySortedUnique(Sort(NormalEntries(xs), EntryKey), Sort(NormalEntries(ys), EntryKey), EntryKey);
  }

  lemma SameField(xs: seq<Entry>, ys: seq<Entry>, k: string)
    requires DistinctKeys(xs) && DistinctKeys(ys)
    requires Sort(NormalEntries(xs), EntryKey) == Sort(NormalEntries(ys), EntryKey)
    ensures Field(xs, k) == Field(ys, k)
  {
    SortCorrect(NormalEntries(xs), EntryKey);
    SortCorrect(NormalEntries(ys), EntryKey);
    if Field(xs, k).Some? {
      NormalEntriesField(xs, Entry(k, Field(xs, k).value));
      NormalEntriesField(ys, Entry(k, Field(xs, k).value));
    } else if Field(ys, k).Some? {
      NormalEntriesField(xs, Entry(k, Field(ys, k).value));
      NormalEntriesField(ys, Entry(k, Field(ys, k).value));
    }
  }
}
