/** The cache key of a search query. */
module SearchKeys {
  import opened Text
  import opened SortedLists
  import opened SearchQuery

  datatype CacheableQuery = CacheableQuery(
    term: string, filters: seq<string>, sort: seq<string>, page: int, pageSize: int)

  function OpName(op: Operator): string {
    match op
    case Eq => "eq"
    case Like => "like"
    case In => "in"
    case Between => "between"
    case Gt => "gt"
    case Lt => "lt"
    case Gte => "gte"
    case Lte => "lte"
  }

  function Joined(items: seq<string>): string {
    if items == [] then "" else if |items| == 1 then items[0] else items[0] + " " + Joined(items[1..])
  }

  /** The `%v` rendering of a filter value. */
  function Render(v: Value): string {
    match v
    case Scalar(text) => text
    case List(items) => "[" + Joined(items) + "]"
    case Range(low, high) => "[" + Joined([low, high]) + "]"
  }

  function Labelled(name: string, rest: string): string {
    name + ":" + rest
  }

  function FilterText(f: Filter): string {
    Labelled(f.field, Labelled(OpName(f.op), Render(f.value)))
  }

  function SortText(s: SortField): string {
    Labelled(s.field, s.direction)
  }

  function FilterTexts(filters: seq<Filter>): seq<string> {
    seq(|filters|, i requires 0 <= i < |filters| => FilterText(filters[i]))
  }

  function SortTexts(sort: seq<SortField>): seq<string> {
    seq(|sort|, i requires 0 <= i < |sort| => SortText(sort[i]))
  }

  predicate LexLe(a: string, b: string) {
    a == b || LexLess(a, b)
  }

  lemma LexLeIsTotal()
    ensures IsPreorder(LexLe)
  {
    forall a, b ensures LexLe(a, b) || LexLe(b, a) { LexTotal(a, b); }
    forall a, b, c | LexLe(a, b) && LexLe(b, c) ensures LexLe(a, c) {
      if a != b && b != c { LexTransitive(a, b, c); }
    }
  }

  lemma LexLeHasNoTies(s: seq<string>)
    ensures NoTies(LexLe, s)
  {
    forall a, b | LexLe(a, b) && LexLe(b, a) ensures a == b {
      if a != b {
        LexTransitive(a, b, a);
        LexIrreflexive(a);
      }
    }
  }

  function TermKey(term: string): string {
    ToLower(TrimSpace(term))
  }

  function Normalize(q: Query): CacheableQuery {
    CacheableQuery(TermKey(q.term), Sort(LexLe, FilterTexts(q.filters)), SortTexts(q.sort), q.page, q.pageSize)
  }

  method NormalizeQueryForKey(q: Query) returns (r: CacheableQuery)
    ensures r == Normalize(q)
  {
    var filters := RenderFilters(q.filters);
    filters := SortStrings(filters);
    var sort := RenderSort(q.sort);
    r := CacheableQuery(ToLower(TrimSpace(q.term)), filters, sort, q.page, q.pageSize);
  }

  method RenderFilters(fs: seq<Filter>) returns (r: seq<string>)
    ensures r == FilterTexts(fs)
  {
    r := [];
    for n := 0 to |fs|
      invariant |r| == n && forall i :: 0 <= i < n ==> r[i] == FilterText(fs[i])
    {
      r := r + [FilterText(fs[n])];
    }
  }

  method RenderSort(sort: seq<SortField>) returns (r: seq<string>)
    ensures r == SortTexts(sort)
  {
    r := [];
    for n := 0 to |sort|
      invariant |r| == n && forall i :: 0 <= i < n ==> r[i] == SortText(sort[i])
    {
      r := r + [SortText(sort[n])];
    }
  }

  method SortStrings(s: seq<string>) returns (r: seq<string>)
    ensures r == Sort(LexLe, s)
    ensures InOrder(LexLe, r) && multiset(r) == multiset(s)
  {
    r := [];
    for n := 0 to |s|
      invariant r == Sort(LexLe, s[..n])
    {
      assert s[..n + 1][..n] == s[..n];
      r := Insert(LexLe, s[n], r);
    }
    assert s[..|s|] == s;
    LexLeIsTotal();
    SortSorts(LexLe, s);
  }

  // ----- what a key tells about the query -----

  /** The position of the first `c`, or the length if there is none. */
  function Until(c: char, s: string): nat {
    if s == "" || s[0] == c then 0 else 1 + Until(c, s[1..])
  }

  lemma {:induction false} UntilEndsPrefix(c: char, a: string, x: string)
    requires c !in a
    ensures Until(c, a + [c] + x) == |a|
    decreases |a|
  {
    if a == "" {
    } else {
      UntilEndsPrefix(c, a[1..], x);
      assert (a + [c] + x)[1..] == a[1..] + [c] + x;
    }
  }

  /** The first separator tells the two parts. */
  lemma SplitIsUnique(c: char, a: string, x: string, b: string, y: string)
    requires c !in a && c !in b && a + [c] + x == b + [c] + y
    ensures a == b && x == y
  {
    var s, t := a + [c] + x, b + [c] + y;
    UntilEndsPrefix(c, a, x);
    UntilEndsPrefix(c, b, y);
    assert s[..|a|] == a && t[..|b|] == b;
    assert s[|a| + 1..] == x && t[|b| + 1..] == y;
  }

  lemma LabelIsReadable(a: string, x: string, b: string, y: string)
    requires ':' !in a && ':' !in b && Labelled(a, x) == Labelled(b, y)
    ensures a == b && x == y
  {
    SplitIsUnique(':', a, x, b, y);
  }

  // ----- which lists and ranges a text tells apart -----

  predicate IsReadable(item: string) {
    item != "" && ' ' !in item
  }

  predicate AllReadable(items: seq<string>) {
    forall i :: 0 <= i < |items| ==> IsReadable(items[i])
  }

  lemma JoinedShape(items: seq<string>)
    ensures |items| > 1 ==> Joined(items) == items[0] + [' '] + Joined(items[1..]) && Joined(items)[|items[0]|] == ' '
    ensures |items| > 1 ==> ' ' in Joined(items)
    ensures |items| == 1 ==> Joined(items) == items[0]
  {
    if |items| > 1 {
      assert Joined(items)[|items[0]|] == ' ';
    }
  }

  /** Lists of readable elements are told apart. */
  lemma {:induction false} ReadableListsAreToldApart(a: seq<string>, b: seq<string>)
    requires AllReadable(a) && AllReadable(b) && Joined(a) == Joined(b)
    ensures a == b
    decreases |a|
  {
    JoinedShape(a);
    JoinedShape(b);
    if a == [] || b == [] {
      assert a == [] ==> Joined(b) == "";
      assert |a| == |b|;
    } else if |a| == 1 || |b| == 1 {
      assert |a| == |b| == 1;
    } else {
      SplitIsUnique(' ', a[0], Joined(a[1..]), b[0], Joined(b[1..]));
      ReadableListsAreToldApart(a[1..], b[1..]);
      assert a == [a[0]] + a[1..] && b == [b[0]] + b[1..];
    }
  }

  ghost predicate HasTwin(items: seq<string>) {
    exists other :: other != items && Joined(other) == Joined(items)
  }

  lemma SplitElement(u: string, v: string)
    ensures Joined([u, v]) == u + " " + v
  {
    assert [u, v][1..] == [v];
  }

  lemma WithSpaces(a: string, b: string, c: string)
    ensures a + " " + (b + " " + c) == (a + " " + b) + " " + c
  {
  }

  lemma MergedFirst(items: seq<string>)
    requires |items| > 1
    ensures Joined([items[0] + " " + items[1]] + items[2..]) == Joined(items)
  {
    var merged := [items[0] + " " + items[1]] + items[2..];
    assert items[1..][1..] == items[2..];
    assert merged[1..] == items[2..];
    if |items| > 2 {
      WithSpaces(items[0], items[1], Joined(items[2..]));
    }
  }

  /** Among all lists, only those of one readable element have a text of their own. */
  lemma ListHasTwinExactly(items: seq<string>)
    ensures HasTwin(items) <==> !(|items| == 1 && IsReadable(items[0]))
  {
    if items == [] {
      assert Joined([""]) == Joined(items);
    } else if |items| > 1 {
      var merged := [items[0] + " " + items[1]] + items[2..];
      MergedFirst(items);
      assert |merged| < |items|;
    } else if items[0] == "" {
      assert Joined([]) == Joined(items);
    } else if ' ' in items[0] {
      var k :| 0 <= k < |items[0]| && items[0][k] == ' ';
      var u, v := items[0][..k], items[0][k + 1..];
      SplitElement(u, v);
      assert u + " " + v == items[0];
      assert |[u, v]| != |items|;
    } else {
      forall other | Joined(other) == Joined(items) ensures other == items {
        JoinedShape(other);
        assert other == [other[0]];
      }
    }
  }

  /** A list with an element that is empty or has a space is never told apart from all others. */
  lemma UnreadableListHasTwin(f: Filter)
    requires f.value.List? && !AllReadable(f.value.items)
    ensures exists g :: g != f && FilterText(g) == FilterText(f)
  {
    ListHasTwinExactly(f.value.items);
    var other :| other != f.value.items && Joined(other) == Joined(f.value.items);
    var g := f.(value := List(other));
    assert g != f && FilterText(g) == FilterText(f);
  }

  lemma RangeText(low: string, high: string)
    ensures Render(Range(low, high)) == "[" + (low + " " + high) + "]"
  {
    SplitElement(low, high);
  }

  lemma SameInside(a: string, b: string)
    requires "[" + a + "]" == "[" + b + "]"
    ensures a == b
  {
    assert ("[" + a + "]")[1..|a| + 1] == a && ("[" + b + "]")[1..|b| + 1] == b;
  }

  /** A range is told apart from all other ranges exactly if neither bound has a space. */
  lemma RangeHasTwinExactly(low: string, high: string)
    ensures (exists l, h :: Range(l, h) != Range(low, high) && Render(Range(l, h)) == Render(Range(low, high))) <==>
            ' ' in low || ' ' in high
  {
    RangeText(low, high);
    if ' ' in low {
      var k :| 0 <= k < |low| && low[k] == ' ';
      var u, v := low[..k], low[k + 1..];
      RangeText(u, v + " " + high);
      assert u + " " + (v + " " + high) == low + " " + high;
    } else if ' ' in high {
      var k :| 0 <= k < |high| && high[k] == ' ';
      var u, v := high[..k], high[k + 1..];
      RangeText(low + " " + u, v);
      assert (low + " " + u) + " " + v == low + " " + high;
    } else {
      forall l, h | Render(Range(l, h)) == Render(Range(low, high)) ensures l == low && h == high {
        OnlyThisSplit(l, h, low, high);
      }
    }
  }

  lemma OnlyThisSplit(l: string, h: string, low: string, high: string)
    requires Render(Range(l, h)) == Render(Range(low, high)) && ' ' !in low && ' ' !in high
    ensures l == low && h == high
  {
    RangeText(l, h);
    RangeText(low, high);
    SameInside(l + " " + h, low + " " + high);
    var t := low + " " + high;
    assert t == l + " " + h && t[|l|] == ' ';
    assert forall i :: 0 <= i < |t| && i != |low| ==> t[i] == (if i < |low| then low[i] else high[i - |low| - 1]);
    assert |l| == |low|;
    assert l == t[..|l|] && low == t[..|low|] && h == t[|l| + 1..] && high == t[|low| + 1..];
  }

  lemma OpNameIsReadable(a: Operator, b: Operator)
    ensures ':' !in OpName(a)
    ensures OpName(a) == OpName(b) ==> a == b
  {
    assert OpName(a)[0] == OpName(b)[0] && OpName(a)[1] == OpName(b)[1] && |OpName(a)| == |OpName(b)| ==> a == b;
  }

  /** A text in brackets, as lists and ranges are rendered. */
  predicate IsBracketed(text: string) {
    |text| > 1 && text[0] == '[' && text[|text| - 1] == ']'
  }

  /**
   A field name without a colon, and a value that its text tells: a list of readable elements or a range whose
   lower bound has no space, each with its own operator, or a single value that does not pass for one of them.
   */
  predicate IsPlain(f: Filter) {
    && ':' !in f.field
    && match f.value
       case Scalar(text) => (f.op != In && f.op != Between) || !IsBracketed(text)
       case List(items) => f.op == In && AllReadable(items)
       case Range(low, _) => f.op == Between && ' ' !in low
  }

  /** The queries for which the key is meant to be unambiguous. */
  ghost predicate Plain(q: Query) {
    && AllPlain(q.filters)
    && (forall s :: s in q.sort ==> ':' !in s.field)
  }

  lemma FilterTextIsReadable(f: Filter, g: Filter)
    requires IsPlain(f) && IsPlain(g) && FilterText(f) == FilterText(g)
    ensures f == g
  {
    var x, y := Labelled(OpName(f.op), Render(f.value)), Labelled(OpName(g.op), Render(g.value));
    LabelIsReadable(f.field, x, g.field, y);
    OpNameIsReadable(f.op, g.op);
    OpNameIsReadable(g.op, f.op);
    LabelIsReadable(OpName(f.op), Render(f.value), OpName(g.op), Render(g.value));
    ValueIsReadable(f, g);
  }

  lemma BracketsShow(v: Value)
    requires !v.Scalar?
    ensures IsBracketed(Render(v))
  {
    var text := Render(v);
    assert text[0] == '[' && text[|text| - 1] == ']';
  }

  lemma ValueIsReadable(f: Filter, g: Filter)
    requires IsPlain(f) && IsPlain(g) && f.op == g.op && Render(f.value) == Render(g.value)
    ensures f.value == g.value
  {
    if !f.value.Scalar? { BracketsShow(f.value); }
    if !g.value.Scalar? { BracketsShow(g.value); }
    match f.value {
      case Scalar(_) =>
      case List(items) =>
        SameInside(Joined(items), Joined(g.value.items));
        ReadableListsAreToldApart(items, g.value.items);
      case Range(low, high) =>
        RangeText(low, high);
        RangeText(g.value.low, g.value.high);
        SameInside(low + " " + high, g.value.low + " " + g.value.high);
        SplitIsUnique(' ', low, high, g.value.low, g.value.high);
    }
  }

  lemma {:induction false} CountOfText(text: Filter -> string, fs: seq<Filter>, ts: seq<string>, f: Filter)
    requires |ts| == |fs| && forall i :: 0 <= i < |fs| ==> ts[i] == text(fs[i])
    requires forall g :: g in fs && text(g) == text(f) ==> g == f
    ensures multiset(ts)[text(f)] == multiset(fs)[f]
    decreases |fs|
  {
    if fs == [] {
    } else {
      var n := |fs| - 1;
      CountOfText(text, fs[..n], ts[..n], f);
      assert fs == fs[..n] + [fs[n]];
      assert ts == ts[..n] + [ts[n]];
      assert multiset(fs) == multiset(fs[..n]) + multiset{fs[n]};
      assert multiset(ts) == multiset(ts[..n]) + multiset{ts[n]};
    }
  }

  lemma CountOfFilter(fs: seq<Filter>, f: Filter)
    requires IsPlain(f) && AllPlain(fs)
    ensures multiset(FilterTexts(fs))[FilterText(f)] == multiset(fs)[f]
  {
    forall g | g in fs && FilterText(g) == FilterText(f) ensures g == f {
      FilterTextIsReadable(g, f);
    }
    CountOfText(FilterText, fs, FilterTexts(fs), f);
  }

  ghost predicate AllPlain(filters: seq<Filter>) {
    forall f :: f in filters ==> IsPlain(f)
  }

  lemma SameFiltersSameTexts(a: seq<Filter>, b: seq<Filter>)
    requires AllPlain(a) && AllPlain(b) && multiset(a) == multiset(b)
    ensures multiset(FilterTexts(a)) == multiset(FilterTexts(b))
  {
    var s, t := FilterTexts(a), FilterTexts(b);
    forall x ensures multiset(s)[x] == multiset(t)[x] {
      if x in s {
        var i :| 0 <= i < |s| && s[i] == x;
        SameCount(a, b, a[i]);
      } else if x in t {
        var i :| 0 <= i < |t| && t[i] == x;
        SameCount(a, b, b[i]);
      }
    }
  }

  lemma SameCount(a: seq<Filter>, b: seq<Filter>, f: Filter)
    requires AllPlain(a) && AllPlain(b) && (f in a || f in b)
    ensures multiset(FilterTexts(a))[FilterText(f)] == multiset(FilterTexts(b))[FilterText(f)] <==>
            multiset(a)[f] == multiset(b)[f]
  {
    CountOfFilter(a, f);
    CountOfFilter(b, f);
  }

  lemma SameTextsSameFilters(a: seq<Filter>, b: seq<Filter>)
    requires AllPlain(a) && AllPlain(b) && multiset(FilterTexts(a)) == multiset(FilterTexts(b))
    ensures multiset(a) == multiset(b)
  {
    forall f ensures multiset(a)[f] == multiset(b)[f] {
      if f in a || f in b { SameCount(a, b, f); }
    }
  }

  lemma SameSortTexts(a: seq<SortField>, b: seq<SortField>)
    requires (forall s :: s in a ==> ':' !in s.field) && (forall s :: s in b ==> ':' !in s.field)
    requires SortTexts(a) == SortTexts(b)
    ensures a == b
  {
    assert |a| == |SortTexts(a)| == |SortTexts(b)| == |b|;
    forall i | 0 <= i < |a| ensures a[i] == b[i] {
      assert SortTexts(a)[i] == SortText(a[i]) && SortTexts(b)[i] == SortText(b[i]);
      LabelIsReadable(a[i].field, a[i].direction, b[i].field, b[i].direction);
    }
  }

  lemma SortedTexts(a: seq<string>, b: seq<string>)
    ensures Sort(LexLe, a) == Sort(LexLe, b) <==> multiset(a) == multiset(b)
  {
    LexLeIsTotal();
    SortSorts(LexLe, a);
    SortSorts(LexLe, b);
    if multiset(a) == multiset(b) {
      LexLeHasNoTies(Sort(LexLe, a));
      SortedOnce(LexLe, Sort(LexLe, a), Sort(LexLe, b));
    }
  }

  /** Two queries share a key exactly when they ask the same, up to case of the term and order of the filters. */
  lemma SameKeyExactly(q: Query, r: Query)
    requires Plain(q) && Plain(r)
    ensures Normalize(q) == Normalize(r) <==>
            && TermKey(q.term) == TermKey(r.term)
            && multiset(q.filters) == multiset(r.filters)
            && q.sort == r.sort && q.page == r.page && q.pageSize == r.pageSize
  {
    SortedTexts(FilterTexts(q.filters), FilterTexts(r.filters));
    if Normalize(q) == Normalize(r) {
      SameTextsSameFilters(q.filters, r.filters);
      SameSortTexts(q.sort, r.sort);
    }
    if multiset(q.filters) == multiset(r.filters) { SameFiltersSameTexts(q.filters, r.filters); }
  }
}

/** The cache in front of the search. */
module SearchCache {
  import opened Basics
  import opened Text
  import opened LikePatterns
  import opened SearchLike
  import opened SearchQuery
  import opened SearchKeys

  datatype SearchError = InnerFailed

  /** Hashing and JSON, which the cache uses but does not define. */
  datatype Codec = Codec(hash: CacheableQuery -> string, encode: Page -> Option<string>, decode: string -> Option<Page>)

  /** No collisions, and a page that was encoded is decoded to itself. */
  ghost predicate Faithful(codec: Codec) {
    && (forall a, b :: codec.hash(a) == codec.hash(b) ==> a == b)
    && (forall p :: codec.encode(p).Some? ==> codec.decode(codec.encode(p).value) == Some(p))
  }

  /** A configured cache. Its keys are given as a function, so that runs need not look into them. */
  datatype Cache = Cache(enabled: bool, prefix: string, codec: Codec, keyOf: Query -> string)

  ghost predicate IsCache(c: Cache) {
    Faithful(c.codec) && forall q :: c.keyOf(q) == c.prefix + ":" + c.codec.hash(Normalize(q))
  }

  type Entries = map<string, string>

  /** Keys of different prefixes are different, as all hashes have the same length. */
  lemma PrefixesSeparate(p: string, h: string, q: string, k: string)
    requires |h| == |k| && p + ":" + h == q + ":" + k
    ensures p == q
  {
    assert |p| == |q|;
    assert p == (p + ":" + h)[..|p|] && q == (q + ":" + k)[..|q|];
  }

  /** Equal keys ask for the same result, under every collation that ignores case. */
  lemma SameKeySameResult(db: Database, desc: Descriptor, q: Query, r: Query)
    requires IgnoresCase(db.fold) && Plain(q) && Plain(r) && Normalize(q) == Normalize(r)
    ensures Search(db, desc, q) == Search(db, desc, r)
  {
    SameKeyExactly(q, r);
    SameHits(db, desc, q, r);
  }

  lemma SameHits(db: Database, desc: Descriptor, q: Query, r: Query)
    requires IgnoresCase(db.fold)
    requires TermKey(q.term) == TermKey(r.term) && multiset(q.filters) == multiset(r.filters)
    ensures Hits(db, desc, q) == Hits(db, desc, r)
  {
    var s, t := TrimSpace(q.term), TrimSpace(r.term);
    forall row ensures Selected(db.fold, row, TextClauses(s, desc.textFields)) <==>
                       Selected(db.fold, row, TextClauses(t, desc.textFields)) {
      SameTermSelectsTheSame(db.fold, row, s, t, desc.textFields);
    }
    forall f ensures f in q.filters <==> f in r.filters {
      assert f in q.filters <==> f in multiset(q.filters);
      assert f in r.filters <==> f in multiset(r.filters);
    }
    SameTestsSameRows(db, TextClauses(s, desc.textFields), TextClauses(t, desc.textFields),
                      Conditions(q.filters, desc.filterable), Conditions(r.filters, desc.filterable), db.rows);
  }

  lemma SameTermSelectsTheSame(fold: char -> char, row: TextRow, s: string, t: string, fields: seq<string>)
    requires IgnoresCase(fold) && ToLower(s) == ToLower(t)
    ensures Selected(fold, row, TextClauses(s, fields)) <==> Selected(fold, row, TextClauses(t, fields))
  {
    assert |s| == |t|;
    var p, p' := PatternFor(s), PatternFor(t);
    forall v ensures LikePatterns.Like(fold, v, p) <==> LikePatterns.Like(fold, v, p') {
      CaseOfTerm(fold, v, s, t);
    }
    if s != "" {
      var c, d := TextClauses(s, fields), TextClauses(t, fields);
      assert forall i :: 0 <= i < |fields| ==> c[i].field == d[i].field == fields[i];
    }
  }

  // ----- the cache and its callers, one call at a time -----

  /**
   Where a caller is between two of its calls: about to read the cache, about to ask the inner repository, about
   to write its answer to the cache, or deleting the keys that it has listed.
   */
  datatype Flight = Asking(q: Query) | Missed(q: Query) | Answered(q: Query, page: Page) | Purging(keys: set<string>)

  datatype Reply = Reply(q: Query, result: Result<Page, SearchError>)

  /** `replies` keeps what every finished search returned. */
  datatype State = State(entries: Entries, flights: map<nat, Flight>, replies: map<nat, Reply>)

  datatype Step =
    | Begin(t: nat, q: Query)
    | Get(t: nat, fails: bool)
    | AskInner(t: nat, fails: bool)
    | Set(t: nat, fails: bool)
    | ListKeys(t: nat)
    | DeleteKey(t: nat, key: string, fails: bool)
    | Abandon(t: nat)
    | Expire(key: string)
    | Foreign(key: string, text: string)

  function Cached(c: Cache, entries: Entries, key: string): Option<Page> {
    if key in entries && entries[key] != "" then c.codec.decode(entries[key]) else None
  }

  predicate Owned(c: Cache, key: string) {
    c.prefix + ":" <= key
  }

  function OwnedKeys(c: Cache, entries: Entries): set<string> {
    set key | key in entries && Owned(c, key)
  }

  predicate Enabled(s: State, a: Step) {
    match a
    case Begin(t, _) => t !in s.flights && t !in s.replies
    case Get(t, _) => t in s.flights && s.flights[t].Asking?
    case AskInner(t, _) => t in s.flights && s.flights[t].Missed?
    case Set(t, _) => t in s.flights && s.flights[t].Answered?
    case ListKeys(t) => t !in s.flights && t !in s.replies
    case DeleteKey(t, key, _) => t in s.flights && s.flights[t].Purging? && key in s.flights[t].keys
    case Abandon(t) => t in s.flights
    case Expire(_) => true
    case Foreign(_, _) => true
  }

  function Finish(s: State, t: nat, q: Query, r: Result<Page, SearchError>): State {
    s.(flights := s.flights - {t}, replies := s.replies[t := Reply(q, r)])
  }

  function Apply(c: Cache, inner: Query -> Page, s: State, a: Step): State
    requires Enabled(s, a)
  {
    match a
    case Begin(t, q) => s.(flights := s.flights[t := Asking(q)])
    case Get(t, fails) =>
      var q := s.flights[t].q;
      var hit := Cached(c, s.entries, c.keyOf(q));
      if c.enabled && !fails && hit.Some? then Finish(s, t, q, Ok(hit.value))
      else s.(flights := s.flights[t := Missed(q)])
    case AskInner(t, fails) =>
      var q := s.flights[t].q;
      if fails then Finish(s, t, q, Err(InnerFailed)) else s.(flights := s.flights[t := Answered(q, inner(q))])
    case Set(t, fails) =>
      var Answered(q, page) := s.flights[t];
      var text := c.codec.encode(page);
      var entries := if c.enabled && !fails && text.Some? then s.entries[c.keyOf(q) := text.value] else s.entries;
      Finish(s.(entries := entries), t, q, Ok(page))
    case ListKeys(t) => s.(flights := s.flights[t := Purging(OwnedKeys(c, s.entries))])
    case DeleteKey(t, key, fails) =>
      s.(entries := if fails then s.entries else s.entries - {key},
         flights := s.flights[t := Purging(s.flights[t].keys - {key})])
    case Abandon(t) => s.(flights := s.flights - {t})
    case Expire(key) => s.(entries := s.entries - {key})
    case Foreign(key, text) => s.(entries := s.entries[key := text])
  }

  /** Queries are plain, and nobody else writes under the keys of this repository. */
  ghost predicate Proper(c: Cache, a: Step) {
    match a
    case Begin(_, q) => Plain(q)
    case Foreign(key, _) => forall q :: key != c.keyOf(q)
    case _ => true
  }

  ghost predicate AllProper(c: Cache, steps: seq<Step>) {
    forall a :: a in steps ==> Proper(c, a)
  }

  /** The steps lead from one state to the other while the data stay as they are. */
  ghost predicate Runs(c: Cache, inner: Query -> Page, s: State, steps: seq<Step>, end: State)
    decreases |steps|
  {
    if steps == [] then s == end
    else Enabled(s, steps[0]) && Runs(c, inner, Apply(c, inner, s, steps[0]), steps[1..], end)
  }

  lemma {:induction false} RunFurther(
    c: Cache, inner: Query -> Page, s: State, steps: seq<Step>, middle: State, a: Step)
    requires Runs(c, inner, s, steps, middle) && Enabled(middle, a)
    ensures Runs(c, inner, s, steps + [a], Apply(c, inner, middle, a))
    decreases |steps|
  {
    if steps == [] {
      assert [] + [a] == [a] && [a][1..] == [];
    } else {
      RunFurther(c, inner, Apply(c, inner, s, steps[0]), steps[1..], middle, a);
      assert (steps + [a])[1..] == steps[1..] + [a];
    }
  }

  // ----- fixed data -----

  /** Queries that share a key have the same answer. */
  ghost predicate Respects(c: Cache, inner: Query -> Page) {
    forall q, r :: Plain(q) && Plain(r) && c.keyOf(q) == c.keyOf(r) ==> inner(q) == inner(r)
  }

  lemma PlainSearchRespects(c: Cache, db: Database, desc: Descriptor)
    requires IsCache(c) && IgnoresCase(db.fold)
    ensures Respects(c, q => Search(db, desc, q))
  {
    forall q, r | Plain(q) && Plain(r) && c.keyOf(q) == c.keyOf(r)
      ensures Search(db, desc, q) == Search(db, desc, r)
    {
      SameStoredKey(c, q, r);
      SameKeySameResult(db, desc, q, r);
    }
  }

  lemma SameStoredKey(c: Cache, q: Query, r: Query)
    requires IsCache(c) && c.keyOf(q) == c.keyOf(r)
    ensures Normalize(q) == Normalize(r)
  {
    SameHash(c.prefix + ":", c.codec.hash(Normalize(q)), c.codec.hash(Normalize(r)));
  }

  lemma SameHash(p: string, h: string, k: string)
    requires p + h == p + k
    ensures h == k
  {
    assert (p + h)[|p|..] == h && (p + k)[|p|..] == k;
  }

  ghost predicate CurrentFor(c: Cache, inner: Query -> Page, entries: Entries, q: Query) {
    Cached(c, entries, c.keyOf(q)) in {None, Some(inner(q))}
  }

  /** Whatever the store holds for a query is what the inner repository answers. */
  ghost predicate Current(c: Cache, inner: Query -> Page, entries: Entries) {
    forall q :: Plain(q) ==> CurrentFor(c, inner, entries, q)
  }

  /** The searches under way ask plain queries. */
  ghost predicate PlainFlights(s: State) {
    forall t :: t in s.flights && !s.flights[t].Purging? ==> Plain(s.flights[t].q)
  }

  /** No search under way holds an answer that the inner repository would not give now. */
  ghost predicate NoneBehind(inner: Query -> Page, s: State) {
    forall t :: t in s.flights && s.flights[t].Answered? ==> s.flights[t].page == inner(s.flights[t].q)
  }

  /** Every search that returned agrees with the inner repository, or failed. */
  ghost predicate RepliesAgree(inner: Query -> Page, s: State) {
    forall t :: t in s.replies ==> s.replies[t].result in {Ok(inner(s.replies[t].q)), Err(InnerFailed)}
  }

  ghost predicate Agrees(c: Cache, inner: Query -> Page, s: State) {
    Current(c, inner, s.entries) && PlainFlights(s) && NoneBehind(inner, s) && RepliesAgree(inner, s)
  }

  /** One step writes at most one key, and under that key the answer of a search under way. */
  lemma EntriesStep(c: Cache, inner: Query -> Page, s: State, a: Step, q: Query)
    requires Faithful(c.codec) && Respects(c, inner) && Proper(c, a) && Enabled(s, a) && PlainFlights(s) && Plain(q)
    requires CurrentFor(c, inner, s.entries, q)
    requires a.Set? && Storable(c, s.flights[a.t].page) ==> s.flights[a.t].page == inner(s.flights[a.t].q)
    ensures CurrentFor(c, inner, Apply(c, inner, s, a).entries, q)
  {
    if a.Set? { assert Plain(s.flights[a.t].q); }
  }

  /** An answer that can be read back once it is written. */
  predicate Storable(c: Cache, page: Page) {
    c.codec.encode(page).Some? && c.codec.encode(page).value != ""
  }

  lemma StepAgrees(c: Cache, inner: Query -> Page, s: State, a: Step)
    requires Faithful(c.codec) && Respects(c, inner) && Proper(c, a) && Enabled(s, a) && Agrees(c, inner, s)
    ensures Agrees(c, inner, Apply(c, inner, s, a))
  {
    forall q | Plain(q) ensures CurrentFor(c, inner, Apply(c, inner, s, a).entries, q) {
      EntriesStep(c, inner, s, a, q);
    }
    if a.Get? { assert CurrentFor(c, inner, s.entries, s.flights[a.t].q); }
  }

  lemma {:induction false} RunAgrees(c: Cache, inner: Query -> Page, s: State, steps: seq<Step>, end: State)
    requires Faithful(c.codec) && Respects(c, inner) && AllProper(c, steps)
    requires Agrees(c, inner, s) && Runs(c, inner, s, steps, end)
    ensures Agrees(c, inner, end)
    decreases |steps|
  {
    if steps == [] {
    } else {
      StepAgrees(c, inner, s, steps[0]);
      RunAgrees(c, inner, Apply(c, inner, s, steps[0]), steps[1..], end);
    }
  }

  const NOTHING: State := State(map[], map[], map[])

  /** Over fixed data, however the calls of all searches and invalidations interleave, no search returns anything else
      than the search without a cache. */
  lemma EveryRunAgrees(c: Cache, db: Database, desc: Descriptor, inner: Query -> Page, steps: seq<Step>, end: State)
    requires IsCache(c) && IgnoresCase(db.fold) && inner == (q => Search(db, desc, q))
    requires AllProper(c, steps) && Runs(c, inner, NOTHING, steps, end)
    ensures forall t :: t in end.replies ==> end.replies[t].result in {Ok(inner(end.replies[t].q)), Err(InnerFailed)}
  {
    PlainSearchRespects(c, db, desc);
    RunAgrees(c, inner, NOTHING, steps, end);
  }

  /** A search only fails if its call of the inner repository does. */
  lemma {:induction false} FailuresAreInner(
    c: Cache, inner: Query -> Page, s: State, steps: seq<Step>, end: State, t: nat)
    requires Runs(c, inner, s, steps, end) && t in end.replies && end.replies[t].result.Err?
    requires t !in s.replies
    ensures AskInner(t, true) in steps
    decreases |steps|
  {
    if steps == [] {
    } else {
      var next := Apply(c, inner, s, steps[0]);
      if t !in next.replies {
        FailuresAreInner(c, inner, next, steps[1..], end, t);
      } else {
        RepliesStay(c, inner, next, steps[1..], end, t);
      }
    }
  }

  lemma {:induction false} RepliesStay(c: Cache, inner: Query -> Page, s: State, steps: seq<Step>, end: State, t: nat)
    requires Runs(c, inner, s, steps, end) && t in s.replies && t !in s.flights
    ensures t in end.replies && end.replies[t] == s.replies[t]
    decreases |steps|
  {
    if steps == [] {
    } else {
      RepliesStay(c, inner, Apply(c, inner, s, steps[0]), steps[1..], end, t);
    }
  }

  // ----- changed data -----

  /** The search holds an answer from older data and is about to write it. */
  ghost predicate HoldsStale(c: Cache, inner: Query -> Page, s: State, t: nat) {
    && t in s.flights && s.flights[t].Answered?
    && Storable(c, s.flights[t].page) && s.flights[t].page != inner(s.flights[t].q)
  }

  ghost predicate NoneStale(c: Cache, inner: Query -> Page, s: State) {
    forall t :: !HoldsStale(c, inner, s, t)
  }

  lemma StaleStep(c: Cache, inner: Query -> Page, s: State, a: Step)
    requires Enabled(s, a) && Proper(c, a) && NoneStale(c, inner, s) && PlainFlights(s)
    ensures NoneStale(c, inner, Apply(c, inner, s, a)) && PlainFlights(Apply(c, inner, s, a))
  {
    var next := Apply(c, inner, s, a);
    forall t ensures !HoldsStale(c, inner, next, t) {
      assert !HoldsStale(c, inner, s, t);
    }
  }

  lemma SetIsNotStale(c: Cache, inner: Query -> Page, s: State, a: Step)
    requires Enabled(s, a) && NoneStale(c, inner, s)
    ensures a.Set? && Storable(c, s.flights[a.t].page) ==> s.flights[a.t].page == inner(s.flights[a.t].q)
  {
    if a.Set? { assert !HoldsStale(c, inner, s, a.t); }
  }

  lemma {:induction false} RunStaysCurrent(c: Cache, inner: Query -> Page, s: State, steps: seq<Step>, end: State)
    requires Faithful(c.codec) && Respects(c, inner) && AllProper(c, steps) && Runs(c, inner, s, steps, end)
    requires Current(c, inner, s.entries) && PlainFlights(s) && NoneStale(c, inner, s)
    ensures Current(c, inner, end.entries)
    decreases |steps|
  {
    if steps == [] {
    } else {
      var next := Apply(c, inner, s, steps[0]);
      SetIsNotStale(c, inner, s, steps[0]);
      forall q | Plain(q) ensures CurrentFor(c, inner, next.entries, q) {
        EntriesStep(c, inner, s, steps[0], q);
      }
      StaleStep(c, inner, s, steps[0]);
      RunStaysCurrent(c, inner, next, steps[1..], end);
    }
  }

  /** The write of a stale answer makes the cache wrong. */
  lemma StaleWriteShows(c: Cache, inner: Query -> Page, s: State, t: nat)
    requires Faithful(c.codec) && c.enabled && PlainFlights(s) && HoldsStale(c, inner, s, t)
    ensures Runs(c, inner, s, [Set(t, false)], Apply(c, inner, s, Set(t, false)))
    ensures !Current(c, inner, Apply(c, inner, s, Set(t, false)).entries)
  {
    var end := Apply(c, inner, s, Set(t, false));
    var q := s.flights[t].q;
    assert [Set(t, false)][1..] == [];
    assert Cached(c, end.entries, c.keyOf(q)) == Some(s.flights[t].page);
    assert !CurrentFor(c, inner, end.entries, q);
  }

  /**
   From any point on, for instance after the data have changed, the cache holds nothing but current answers in all
   that can follow if and only if it does now and no search under way holds a stale one.
   */
  lemma StaysCurrentExactly(c: Cache, inner: Query -> Page, s: State)
    requires Faithful(c.codec) && c.enabled && Respects(c, inner) && PlainFlights(s)
    ensures (forall steps, end :: AllProper(c, steps) && Runs(c, inner, s, steps, end) ==>
               Current(c, inner, end.entries)) <==>
            Current(c, inner, s.entries) && NoneStale(c, inner, s)
  {
    if Current(c, inner, s.entries) && NoneStale(c, inner, s) {
      forall steps, end | AllProper(c, steps) && Runs(c, inner, s, steps, end) ensures Current(c, inner, end.entries) {
        RunStaysCurrent(c, inner, s, steps, end);
      }
    } else if !Current(c, inner, s.entries) {
      assert AllProper(c, []) && Runs(c, inner, s, [], s);
    } else {
      var t :| HoldsStale(c, inner, s, t);
      StaleWriteShows(c, inner, s, t);
      assert AllProper(c, [Set(t, false)]);
    }
  }

  // ----- invalidation -----

  /** The caller is not given up, and none of its deletions fails. */
  ghost predicate PurgeWorks(c: Cache, steps: seq<Step>, t: nat) {
    AllProper(c, steps) && forall a :: a in steps ==> a != Abandon(t) && !(a.DeleteKey? && a.t == t && a.fails)
  }

  /** What is not current is still to be deleted. */
  ghost predicate NearlyCurrent(c: Cache, inner: Query -> Page, s: State, t: nat) {
    && t in s.flights && s.flights[t].Purging?
    && forall q :: Plain(q) ==> c.keyOf(q) in s.flights[t].keys || CurrentFor(c, inner, s.entries, q)
  }

  lemma PurgeStep(c: Cache, inner: Query -> Page, s: State, a: Step, t: nat)
    requires Faithful(c.codec) && Respects(c, inner) && Proper(c, a) && Enabled(s, a)
    requires a != Abandon(t) && !(a.DeleteKey? && a.t == t && a.fails)
    requires PlainFlights(s) && NoneStale(c, inner, s) && NearlyCurrent(c, inner, s, t)
    ensures NearlyCurrent(c, inner, Apply(c, inner, s, a), t)
  {
    var next := Apply(c, inner, s, a);
    SetIsNotStale(c, inner, s, a);
    forall q | Plain(q) ensures c.keyOf(q) in next.flights[t].keys || CurrentFor(c, inner, next.entries, q) {
      if CurrentFor(c, inner, s.entries, q) { EntriesStep(c, inner, s, a, q); }
    }
  }

  lemma {:induction false} PurgeRun(c: Cache, inner: Query -> Page, s: State, steps: seq<Step>, end: State, t: nat)
    requires Faithful(c.codec) && Respects(c, inner) && PurgeWorks(c, steps, t) && Runs(c, inner, s, steps, end)
    requires PlainFlights(s) && NoneStale(c, inner, s) && NearlyCurrent(c, inner, s, t)
    ensures NearlyCurrent(c, inner, end, t) && PlainFlights(end) && NoneStale(c, inner, end)
    decreases |steps|
  {
    if steps == [] {
    } else {
      PurgeStep(c, inner, s, steps[0], t);
      StaleStep(c, inner, s, steps[0]);
      PurgeRun(c, inner, Apply(c, inner, s, steps[0]), steps[1..], end, t);
    }
  }

  /**
   An invalidation whose calls succeed makes the cache current for whatever the data are now, while any other calls
   go on, and it stays so, provided that no search under way held a stale answer when the keys were listed.
   */
  lemma InvalidationWorks(c: Cache, inner: Query -> Page, s: State, t: nat, steps: seq<Step>, end: State)
    requires IsCache(c) && c.enabled && Respects(c, inner) && PlainFlights(s) && NoneStale(c, inner, s)
    requires Enabled(s, ListKeys(t)) && PurgeWorks(c, steps, t)
    requires Runs(c, inner, Apply(c, inner, s, ListKeys(t)), steps, end)
    requires t in end.flights && end.flights[t] == Purging({})
    ensures Current(c, inner, end.entries) && NoneStale(c, inner, end)
  {
    var listed := Apply(c, inner, s, ListKeys(t));
    forall q | Plain(q) ensures c.keyOf(q) in listed.flights[t].keys || CurrentFor(c, inner, listed.entries, q) {
      assert c.keyOf(q) == c.prefix + ":" + c.codec.hash(Normalize(q));
      assert Owned(c, c.keyOf(q));
    }
    StaleStep(c, inner, s, ListKeys(t));
    PurgeRun(c, inner, listed, steps, end, t);
  }

  // ----- the repository itself -----

  /** The store, with a record of the calls under way. */
  class Store {
    var entries: Entries
    ghost var flights: map<nat, Flight>
    ghost var replies: map<nat, Reply>

    constructor ()
      ensures Snapshot() == NOTHING
    {
      entries, flights, replies := map[], map[], map[];
    }

    ghost function Snapshot(): State
      reads this
    {
      State(entries, flights, replies)
    }

    /** Records a step that leaves the entries as they are. */
    ghost method Record(c: Cache, inner: Query -> Page, start: State, steps: seq<Step>, a: Step)
      returns (longer: seq<Step>)
      requires Runs(c, inner, start, steps, Snapshot()) && Enabled(Snapshot(), a)
      requires Apply(c, inner, Snapshot(), a).entries == entries
      modifies this`flights, this`replies
      ensures Snapshot() == Apply(c, inner, old(Snapshot()), a) && Runs(c, inner, start, longer, Snapshot())
    {
      RunFurther(c, inner, start, steps, Snapshot(), a);
      longer := steps + [a];
      var next := Apply(c, inner, Snapshot(), a);
      flights, replies := next.flights, next.replies;
    }

    /** Writes the answer of a search, if that succeeds. */
    method SetEntry(c: Cache, ghost inner: Query -> Page, key: string, text: Option<string>, fails: bool,
                    ghost start: State, ghost steps: seq<Step>, ghost t: nat)
      returns (ghost longer: seq<Step>)
      requires Runs(c, inner, start, steps, Snapshot()) && Enabled(Snapshot(), Set(t, fails)) && c.enabled
      requires key == c.keyOf(flights[t].q) && text == c.codec.encode(flights[t].page)
      modifies this
      ensures Snapshot() == Apply(c, inner, old(Snapshot()), Set(t, fails)) && Runs(c, inner, start, longer, Snapshot())
    {
      RunFurther(c, inner, start, steps, Snapshot(), Set(t, fails));
      longer := steps + [Set(t, fails)];
      ghost var next := Apply(c, inner, Snapshot(), Set(t, fails));
      if text.Some? && !fails {
        entries := entries[key := text.value];
      }
      flights, replies := next.flights, next.replies;
    }

    /** Deletes a listed key, if that succeeds. */
    method Delete(ghost c: Cache, ghost inner: Query -> Page, key: string, fails: bool,
                  ghost start: State, ghost steps: seq<Step>, ghost t: nat)
      returns (ghost longer: seq<Step>)
      requires Runs(c, inner, start, steps, Snapshot()) && Enabled(Snapshot(), DeleteKey(t, key, fails))
      modifies this
      ensures Snapshot() == Apply(c, inner, old(Snapshot()), DeleteKey(t, key, fails))
      ensures Runs(c, inner, start, longer, Snapshot())
    {
      RunFurther(c, inner, start, steps, Snapshot(), DeleteKey(t, key, fails));
      longer := steps + [DeleteKey(t, key, fails)];
      ghost var next := Apply(c, inner, Snapshot(), DeleteKey(t, key, fails));
      if !fails {
        entries := entries - {key};
      }
      flights := next.flights;
    }
  }

  /** The answer of a search that nobody interrupts, and the entries afterwards. */
  function Ask(c: Cache, inner: Query -> Page, entries: Entries, q: Query,
               getFails: bool, setFails: bool, innerFails: bool)
    : (Result<Page, SearchError>, Entries)
  {
    var hit := if getFails then None else Cached(c, entries, c.keyOf(q));
    if hit.Some? then (Ok(hit.value), entries)
    else if innerFails then (Err(InnerFailed), entries)
    else
      var text := c.codec.encode(inner(q));
      (Ok(inner(q)), if !setFails && text.Some? then entries[c.keyOf(q) := text.value] else entries)
  }

  /** An answer that was written is given from then on, without the inner repository, even if that has changed. */
  lemma WrittenIsGiven(c: Cache, inner: Query -> Page, later: Query -> Page, entries: Entries, q: Query,
                       setFails: bool, innerFails: bool)
    requires Faithful(c.codec) && Cached(c, entries, c.keyOf(q)).None?
    requires c.codec.encode(inner(q)).Some? && c.codec.encode(inner(q)).value != ""
    ensures var (r, now) := Ask(c, inner, entries, q, false, false, false);
            r == Ok(inner(q)) && Ask(c, later, now, q, false, setFails, innerFails) == (r, now)
  {
  }

  class CachedRepository {
    const cache: Cache
    const store: Store?

    constructor (cache: Cache, store: Store?)
      ensures this.cache == cache && this.store == store
    {
      this.cache, this.store := cache, store;
    }

    /** Reads the cache, asks the inner repository on a miss, and writes its answer to the cache. */
    method Search(inner: Query -> Page, q: Query, getFails: bool, setFails: bool, innerFails: bool, ghost t: nat)
      returns (r: Result<Page, SearchError>, ghost steps: seq<Step>)
      requires store != null ==> t !in store.flights && t !in store.replies
      modifies store
      ensures store == null || !cache.enabled ==> r == (if innerFails then Err(InnerFailed) else Ok(inner(q)))
      ensures store != null && !cache.enabled ==> store.entries == old(store.entries)
      ensures store != null && cache.enabled ==>
                && Runs(cache, inner, old(store.Snapshot()), steps, store.Snapshot())
                && t in store.replies && store.replies[t] == Reply(q, r)
                && (r, store.entries) == Ask(cache, inner, old(store.entries), q, getFails, setFails, innerFails)
    {
      steps := [];
      if !cache.enabled || store == null {
        r := if innerFails then Err(InnerFailed) else Ok(inner(q));
        return;
      }
      ghost var start := store.Snapshot();
      var key := cache.keyOf(q);
      steps := store.Record(cache, inner, start, steps, Begin(t, q));
      var page: Option<Page> := None;
      if !getFails && key in store.entries && store.entries[key] != "" {
        page := cache.codec.decode(store.entries[key]);
      }
      steps := store.Record(cache, inner, start, steps, Get(t, getFails));
      if page.Some? {
        r := Ok(page.value);
        return;
      }
      steps := store.Record(cache, inner, start, steps, AskInner(t, innerFails));
      if innerFails {
        r := Err(InnerFailed);
        return;
      }
      var result := inner(q);
      steps := store.SetEntry(cache, inner, key, cache.codec.encode(result), setFails, start, steps, t);
      r := Ok(result);
    }

    /** Deletes the listed keys one by one; a failed deletion is ignored. */
    method Invalidate(ghost inner: Query -> Page, keysFail: bool, stuck: set<string>, ghost t: nat)
      returns (ghost steps: seq<Step>)
      requires store != null ==> t !in store.flights && t !in store.replies
      modifies store
      ensures store != null && (!cache.enabled || keysFail) ==> store.Snapshot() == old(store.Snapshot())
      ensures store != null && cache.enabled && !keysFail ==>
                && Runs(cache, inner, old(store.Snapshot()), steps, store.Snapshot())
                && t in store.flights && store.flights[t] == Purging({})
                && store.entries == Remaining(cache, old(store.entries), stuck)
                && forall key :: key in store.entries <==>
                     key in old(store.entries) && (cache.prefix + ":" <= key ==> key in stuck)
    {
      steps := [];
      if !cache.enabled || store == null || keysFail {
        return;
      }
      ghost var start := store.Snapshot();
      var keys := OwnedKeys(cache, store.entries);
      steps := store.Record(cache, inner, start, steps, ListKeys(t));
      while keys != {}
        invariant Runs(cache, inner, start, steps, store.Snapshot())
        invariant t in store.flights && store.flights[t] == Purging(keys)
        invariant keys <= OwnedKeys(cache, old(store.entries))
        invariant store.entries == RemainingBut(cache, old(store.entries), stuck, keys)
        decreases |keys|
      {
        var key :| key in keys;
        steps := store.Delete(cache, inner, key, key in stuck, start, steps, t);
        keys := keys - {key};
      }
    }
  }

  /** The entries of others, and those that could not be deleted. */
  function Remaining(c: Cache, entries: Entries, stuck: set<string>): Entries {
    RemainingBut(c, entries, stuck, {})
  }

  function RemainingBut(c: Cache, entries: Entries, stuck: set<string>, keys: set<string>): Entries {
    map key | key in entries && (!Owned(c, key) || key in stuck || key in keys) :: entries[key]
  }
}
