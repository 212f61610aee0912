/** Sorting lists that may hold equal and tied elements. */
module SortedLists {
  type Order<!T> = (T, T) -> bool

  ghost predicate IsPreorder<T(!new)>(le: Order<T>) {
    && (forall a, b :: le(a, b) || le(b, a))
    && (forall a, b, c :: le(a, b) && le(b, c) ==> le(a, c))
  }

  /** No two different elements of the list are tied. */
  ghost predicate NoTies<T>(le: Order<T>, s: seq<T>) {
    forall i, j :: 0 <= i < |s| && 0 <= j < |s| && le(s[i], s[j]) && le(s[j], s[i]) ==> s[i] == s[j]
  }

  ghost predicate InOrder<T>(le: Order<T>, s: seq<T>) {
    forall i, j :: 0 <= i < j < |s| ==> le(s[i], s[j])
  }

  function Insert<T>(le: Order<T>, x: T, s: seq<T>): seq<T> {
    if s == [] || le(x, s[0]) then [x] + s else [s[0]] + Insert(le, x, s[1..])
  }

  function Sort<T>(le: Order<T>, s: seq<T>): seq<T> {
    if s == [] then [] else Insert(le, s[|s| - 1], Sort(le, s[..|s| - 1]))
  }

  lemma {:induction false} InsertKeeps<T>(le: Order<T>, x: T, s: seq<T>)
    ensures multiset(Insert(le, x, s)) == multiset(s) + multiset{x}
    ensures Insert(le, x, s) != []
    decreases |s|
  {
    if s == [] || le(x, s[0]) {
    } else {
      InsertKeeps(le, x, s[1..]);
      assert s == [s[0]] + s[1..];
    }
  }

  /** An element before all others. */
  lemma InOrderBehind<T>(le: Order<T>, first: T, s: seq<T>)
    requires InOrder(le, s) && forall y :: y in multiset(s) ==> le(first, y)
    ensures InOrder(le, [first] + s)
  {
    forall i | 0 <= i < |s| ensures le(first, s[i]) { assert s[i] in multiset(s); }
  }

  lemma FirstIsLeast<T(!new)>(le: Order<T>, s: seq<T>)
    requires IsPreorder(le) && InOrder(le, s) && s != []
    ensures forall y :: y in multiset(s) ==> le(s[0], y)
    ensures forall y :: y in multiset(s[1..]) ==> le(s[0], y)
  {
    forall y | y in s ensures le(s[0], y) {
      var i :| 0 <= i < |s| && s[i] == y;
      if i == 0 { assert le(y, y); }
    }
  }

  lemma {:induction false} InsertSorts<T(!new)>(le: Order<T>, x: T, s: seq<T>)
    requires IsPreorder(le) && InOrder(le, s)
    ensures InOrder(le, Insert(le, x, s)) && multiset(Insert(le, x, s)) == multiset(s) + multiset{x}
    decreases |s|
  {
    InsertKeeps(le, x, s);
    if s == [] {
    } else if le(x, s[0]) {
      FirstIsLeast(le, s);
      InOrderBehind(le, x, s);
    } else {
      InsertSorts(le, x, s[1..]);
      FirstIsLeast(le, s);
      InOrderBehind(le, s[0], Insert(le, x, s[1..]));
    }
  }

  lemma {:induction false} SortSorts<T(!new)>(le: Order<T>, s: seq<T>)
    requires IsPreorder(le)
    ensures InOrder(le, Sort(le, s)) && multiset(Sort(le, s)) == multiset(s)
    decreases |s|
  {
    if s == [] {
    } else {
      SortSorts(le, s[..|s| - 1]);
      InsertSorts(le, s[|s| - 1], Sort(le, s[..|s| - 1]));
      assert s == s[..|s| - 1] + [s[|s| - 1]];
    }
  }

  /** Two sorted lists of the same elements start with the same one. */
  lemma SameFirst<T(!new)>(le: Order<T>, a: seq<T>, b: seq<T>)
    requires IsPreorder(le) && NoTies(le, a) && InOrder(le, a) && InOrder(le, b)
    requires multiset(a) == multiset(b) && a != [] && b != []
    ensures a[0] == b[0]
  {
    FirstIsLeast(le, a);
    FirstIsLeast(le, b);
    assert a[0] in multiset(a) && b[0] in multiset(b);
    assert b[0] in a;
  }

  lemma SameRest<T>(a: seq<T>, b: seq<T>)
    requires multiset(a) == multiset(b) && a != [] && b != [] && a[0] == b[0]
    ensures multiset(a[1..]) == multiset(b[1..])
  {
    assert a == [a[0]] + a[1..] && b == [b[0]] + b[1..];
    assert multiset(a[1..]) == multiset(a) - multiset{a[0]};
    assert multiset(b[1..]) == multiset(b) - multiset{b[0]};
  }

  /** Without ties, a list has only one sorted arrangement. */
  lemma {:induction false} SortedOnce<T(!new)>(le: Order<T>, a: seq<T>, b: seq<T>)
    requires IsPreorder(le) && NoTies(le, a) && InOrder(le, a) && InOrder(le, b) && multiset(a) == multiset(b)
    ensures a == b
    decreases |a|
  {
    assert |a| == |multiset(a)| && |b| == |multiset(b)|;
    if a == [] {
    } else {
      SameFirst(le, a, b);
      SameRest(a, b);
      SortedOnce(le, a[1..], b[1..]);
      assert a == [a[0]] + a[1..] && b == [b[0]] + b[1..];
    }
  }

  /** Two tied elements of a sorted list may as well change places. */
  lemma TiedMaySwap<T(!new)>(le: Order<T>, s: seq<T>, i: nat, j: nat)
    requires IsPreorder(le) && InOrder(le, s) && i < |s| && j < |s| && i != j && le(s[i], s[j]) && le(s[j], s[i])
    ensures InOrder(le, s[i := s[j]][j := s[i]]) && multiset(s[i := s[j]][j := s[i]]) == multiset(s)
  {
    var t := s[i := s[j]][j := s[i]];
    forall x | 0 <= x < |s| ensures le(s[x], t[x]) && le(t[x], s[x]) {
      assert le(s[x], s[x]);
    }
    forall x, y | 0 <= x < y < |t| ensures le(t[x], t[y]) {
      assert le(t[x], s[x]) && le(s[x], s[y]) && le(s[y], t[y]);
    }
  }
}

/** Search queries and what they select. */
module SearchQuery {
  import opened Text
  import opened LikePatterns
  import opened SearchLike
  import opened SearchPages
  import opened SortedLists

  datatype Operator = Eq | Like | In | Between | Gt | Lt | Gte | Lte

  /** A single value, a list of values, or the bounds of a range. */
  datatype Value = Scalar(text: string) | List(items: seq<string>) | Range(low: string, high: string)

  datatype Filter = Filter(field: string, op: Operator, value: Value)

  /** Directions are plain text; only two of them are known. */
  type Direction = string

  const ASC: Direction := "ASC"
  const DESC: Direction := "DESC"

  datatype SortField = SortField(field: string, direction: Direction)

  datatype Query = Query(term: string, filters: seq<Filter>, sort: seq<SortField>, page: int, pageSize: int)

  datatype Descriptor = Descriptor(
    textFields: seq<string>,
    filterable: map<string, seq<Operator>>,
    sortable: seq<string>,
    defaultSort: SortField)

  /** What the database does on its own: it compares characters and values, and orders rows. */
  datatype Database = Database(
    rows: seq<TextRow>,
    fold: char -> char,
    holds: (TextRow, Filter) -> bool,
    arrange: (seq<SortField>, seq<TextRow>) -> seq<TextRow>)

  predicate IsOperatorAllowed(f: Filter, allowed: map<string, seq<Operator>>) {
    f.field in allowed && f.op in allowed[f.field]
  }

  /** A range operator without a range restricts nothing. */
  predicate Restricts(f: Filter, allowed: map<string, seq<Operator>>) {
    IsOperatorAllowed(f, allowed) && (f.op == Between ==> f.value.Range?)
  }

  function Conditions(filters: seq<Filter>, allowed: map<string, seq<Operator>>): (r: seq<Filter>)
    ensures forall f :: f in r <==> f in filters && Restricts(f, allowed)
  {
    if filters == [] then []
    else
      assert filters == filters[..|filters| - 1] + [filters[|filters| - 1]];
      var rest := Conditions(filters[..|filters| - 1], allowed);
      if Restricts(filters[|filters| - 1], allowed) then rest + [filters[|filters| - 1]] else rest
  }

  method ApplyFilters(filters: seq<Filter>, allowed: map<string, seq<Operator>>) returns (conditions: seq<Filter>)
    ensures conditions == Conditions(filters, allowed)
  {
    conditions := [];
    for n := 0 to |filters|
      invariant conditions == Conditions(filters[..n], allowed)
    {
      assert filters[..n + 1][..n] == filters[..n];
      var f := filters[n];
      if !IsOperatorAllowed(f, allowed) {
        continue;
      }
      if f.op != Between || f.value.Range? {
        conditions := conditions + [f];
      }
    }
    assert filters[..|filters|] == filters;
  }

  predicate IsKnown(direction: Direction) {
    direction == ASC || direction == DESC
  }

  const DEFAULT_SORT := SortField("created_at", DESC)

  function Fallback(desc: Descriptor): SortField {
    if desc.defaultSort.field != "" then desc.defaultSort else DEFAULT_SORT
  }

  function Accepted(requested: seq<SortField>, sortable: seq<string>): (r: seq<SortField>)
    ensures forall s :: s in r ==> s.field in sortable && IsKnown(s.direction)
    ensures r == [] <==> forall s :: s in requested ==> s.field !in sortable
  {
    if requested == [] then []
    else
      assert requested == requested[..|requested| - 1] + [requested[|requested| - 1]];
      var rest := Accepted(requested[..|requested| - 1], sortable);
      var last := requested[|requested| - 1];
      if last.field !in sortable then rest
      else rest + [SortField(last.field, if IsKnown(last.direction) then last.direction else DESC)]
  }

  function EffectiveSort(requested: seq<SortField>, desc: Descriptor): (r: seq<SortField>)
    ensures r != []
    ensures forall s :: s in r ==> s == Fallback(desc) || (s.field in desc.sortable && IsKnown(s.direction))
  {
    var valid := Accepted(requested, desc.sortable);
    if valid == [] then [Fallback(desc)] else valid
  }

  method ResolveSort(requested: seq<SortField>, desc: Descriptor) returns (sort: seq<SortField>)
    ensures sort == EffectiveSort(requested, desc)
  {
    if |requested| == 0 {
      return [Fallback(desc)];
    }
    sort := [];
    for n := 0 to |requested|
      invariant sort == Accepted(requested[..n], desc.sortable)
    {
      assert requested[..n + 1][..n] == requested[..n];
      if requested[n].field in desc.sortable {
        var dir := requested[n].direction;
        if dir != ASC && dir != DESC {
          dir := DESC;
        }
        sort := sort + [SortField(requested[n].field, dir)];
      }
    }
    assert requested[..|requested|] == requested;
    if |sort| == 0 {
      return [Fallback(desc)];
    }
  }

  /** A sort on a sortable field, with its own direction if that is known and descending otherwise. */
  function Kept(s: SortField, sortable: seq<string>): seq<SortField> {
    if s.field !in sortable then []
    else [SortField(s.field, if s.direction == "ASC" || s.direction == "DESC" then s.direction else "DESC")]
  }

  /** Every requested sort that is kept stays in its place; when none is kept, the default is used. */
  lemma SortMeans(a: seq<SortField>, s: SortField, b: seq<SortField>, desc: Descriptor)
    ensures Accepted(a + [s] + b, desc.sortable) ==
            Accepted(a, desc.sortable) + Kept(s, desc.sortable) + Accepted(b, desc.sortable)
    ensures Accepted(a, desc.sortable) != [] ==> EffectiveSort(a, desc) == Accepted(a, desc.sortable)
    ensures Accepted(a, desc.sortable) == [] ==>
              EffectiveSort(a, desc) ==
              [if desc.defaultSort.field != "" then desc.defaultSort else SortField("created_at", "DESC")]
  {
    AcceptedConcat(a + [s], b, desc.sortable);
    AcceptedConcat(a, [s], desc.sortable);
    AcceptedOne(s, desc.sortable);
  }

  lemma AcceptedOne(s: SortField, sortable: seq<string>)
    ensures Accepted([s], sortable) == Kept(s, sortable)
  {
    assert [s][..0] == [];
  }

  lemma {:induction false} AcceptedConcat(a: seq<SortField>, b: seq<SortField>, sortable: seq<string>)
    ensures Accepted(a + b, sortable) == Accepted(a, sortable) + Accepted(b, sortable)
    decreases |b|
  {
    if b == [] {
      assert a + b == a;
    } else {
      AcceptedConcat(a, b[..|b| - 1], sortable);
      assert (a + b)[..|a + b| - 1] == a + b[..|b| - 1];
    }
  }

  predicate Passes(db: Database, conditions: seq<Filter>, row: TextRow) {
    forall f :: f in conditions ==> db.holds(row, f)
  }

  /** The selected rows. */
  function Matching(db: Database, clauses: seq<Clause>, conditions: seq<Filter>, rows: seq<TextRow>): (r: seq<TextRow>)
    ensures forall row :: row in r <==>
            row in rows && Selected(db.fold, row, clauses) && Passes(db, conditions, row)
  {
    if rows == [] then []
    else
      assert rows == rows[..|rows| - 1] + [rows[|rows| - 1]];
      var rest := Matching(db, clauses, conditions, rows[..|rows| - 1]);
      var last := rows[|rows| - 1];
      if Selected(db.fold, last, clauses) && Passes(db, conditions, last) then rest + [last] else rest
  }

  lemma {:induction false} SameTestsSameRows(
    db: Database, c: seq<Clause>, d: seq<Clause>, f: seq<Filter>, g: seq<Filter>, rows: seq<TextRow>)
    requires forall row :: Selected(db.fold, row, c) <==> Selected(db.fold, row, d)
    requires forall x :: x in f <==> x in g
    ensures Matching(db, c, f, rows) == Matching(db, d, g, rows)
    decreases |rows|
  {
    if rows == [] {
    } else {
      SameTestsSameRows(db, c, d, f, g, rows[..|rows| - 1]);
    }
  }

  datatype Page = Page(data: seq<TextRow>, total: nat, page: int, pageSize: int, totalPages: nat)

  function Clauses(desc: Descriptor, q: Query): seq<Clause> {
    TextClauses(TrimSpace(q.term), desc.textFields)
  }

  function Hits(db: Database, desc: Descriptor, q: Query): seq<TextRow> {
    Matching(db, Clauses(desc, q), Conditions(q.filters, desc.filterable), db.rows)
  }

  function Arranged(db: Database, desc: Descriptor, q: Query): seq<TextRow> {
    db.arrange(EffectiveSort(q.sort, desc), Hits(db, desc, q))
  }

  /** The search without a cache. */
  function Search(db: Database, desc: Descriptor, q: Query): Page {
    PageAt(Arranged(db, desc, q), |Hits(db, desc, q)|, q.page, q.pageSize)
  }

  function PageAt(rows: seq<TextRow>, total: nat, page: int, pageSize: int): Page {
    var (p, size) := NormalizePagination(page, pageSize);
    Page(PageOf(rows, p, size), total, p, size, TotalPages(total, size))
  }

  /** Ordering neither loses nor invents rows. */
  ghost predicate KeepsRows(db: Database) {
    forall sort, rows :: multiset(db.arrange(sort, rows)) == multiset(rows)
  }

  /** What the first `n` pages hold together. */
  function Collected(show: int -> seq<TextRow>, n: nat): seq<TextRow> {
    if n == 0 then [] else Collected(show, n - 1) + show(n)
  }

  lemma {:induction false} CollectedArePages(show: int -> seq<TextRow>, rows: seq<TextRow>, size: int, n: nat)
    requires size >= 1 && forall k :: k >= 1 ==> show(k) == PageOf(rows, k, size)
    ensures Collected(show, n) == FirstPages(rows, n, size)
    decreases n
  {
    if n == 0 {
    } else {
      CollectedArePages(show, rows, size, n - 1);
    }
  }

  function Shown(db: Database, desc: Descriptor, q: Query): int -> seq<TextRow> {
    k => Search(db, desc, q.(page := k)).data
  }

  /** If a result is arranged alike for every page, turning the pages shows every row as often as it is stored. */
  lemma TurningPagesShowsEverything(db: Database, desc: Descriptor, q: Query)
    requires KeepsRows(db)
    ensures Collected(Shown(db, desc, q), Search(db, desc, q).totalPages) == Arranged(db, desc, q)
    ensures multiset(Arranged(db, desc, q)) == multiset(Hits(db, desc, q))
    ensures Search(db, desc, q).total == |Hits(db, desc, q)|
  {
    var rows := Arranged(db, desc, q);
    var size := NormalizePagination(q.page, q.pageSize).1;
    assert multiset(rows) == multiset(Hits(db, desc, q));
    assert |rows| == |multiset(rows)| && |Hits(db, desc, q)| == |multiset(Hits(db, desc, q))|;
    CollectedArePages(Shown(db, desc, q), rows, size, TotalPages(|rows|, size));
    PagesPartition(rows, size);
  }

  // ----- what a search shows, in terms of the stored rows -----

  /** The row has the term in some text field, and passes every filter that is permitted and restricts anything. */
  ghost predicate IsMatch(db: Database, desc: Descriptor, q: Query, row: TextRow) {
    && Found(db.fold, row, TrimSpace(q.term), desc.textFields)
    && forall f :: f in q.filters ==>
         (f.field in desc.filterable && f.op in desc.filterable[f.field] && (f.op == Between ==> f.value.Range?)
          ==> db.holds(row, f))
  }

  ghost function Positions(rows: seq<TextRow>, wanted: TextRow -> bool): set<nat> {
    set i: nat | i < |rows| && wanted(rows[i])
  }

  /**
   For a term without a backslash, the pages together show every matching row exactly as often as it is stored, and
   no other row; the total is the number of stored rows that match.
   */
  lemma PagesShowMatches(db: Database, desc: Descriptor, q: Query, row: TextRow)
    requires KeepsRows(db) && IsCollation(db.fold) && '\\' !in q.term
    ensures multiset(Collected(Shown(db, desc, q), Search(db, desc, q).totalPages))[row] ==
            if IsMatch(db, desc, q, row) then multiset(db.rows)[row] else 0
    ensures Search(db, desc, q).total == |Positions(db.rows, r => IsMatch(db, desc, q, r))|
  {
    var wanted := r => IsMatch(db, desc, q, r);
    TurningPagesShowsEverything(db, desc, q);
    HitsAreMatches(db, desc, q);
    MatchesCounted(db, Clauses(desc, q), Conditions(q.filters, desc.filterable), db.rows, wanted, row);
  }

  lemma HitsAreMatches(db: Database, desc: Descriptor, q: Query)
    requires IsCollation(db.fold) && '\\' !in q.term
    ensures forall row :: IsMatch(db, desc, q, row) <==>
              Selected(db.fold, row, Clauses(desc, q)) && Passes(db, Conditions(q.filters, desc.filterable), row)
  {
    TrimKeepsOut('\\', q.term);
    forall row ensures Selected(db.fold, row, Clauses(desc, q)) <==>
                       Found(db.fold, row, TrimSpace(q.term), desc.textFields) {
      TextSearchMeaning(db.fold, row, TrimSpace(q.term), desc.textFields);
    }
  }

  lemma TrimKeepsOut(c: char, s: string)
    requires c !in s
    ensures c !in TrimSpace(s)
  {
    TrimIsSlice(s);
    var i: nat :| LiesAt(TrimSpace(s), s, i);
    forall k | 0 <= k < |TrimSpace(s)| ensures TrimSpace(s)[k] in s { assert s[i + k] in s; }
  }

  lemma {:induction false} MatchesCounted(db: Database, clauses: seq<Clause>, conditions: seq<Filter>,
                                          rows: seq<TextRow>, wanted: TextRow -> bool, row: TextRow)
    requires forall r :: wanted(r) <==> Selected(db.fold, r, clauses) && Passes(db, conditions, r)
    ensures multiset(Matching(db, clauses, conditions, rows))[row] == if wanted(row) then multiset(rows)[row] else 0
    ensures |Matching(db, clauses, conditions, rows)| == |Positions(rows, wanted)|
    decreases |rows|
  {
    if rows == [] {
    } else {
      var front, last := rows[..|rows| - 1], rows[|rows| - 1];
      MatchesCounted(db, clauses, conditions, front, wanted, row);
      assert rows == front + [last];
      OneMorePosition(front, last, wanted);
      assert wanted(last) <==> Selected(db.fold, last, clauses) && Passes(db, conditions, last);
    }
  }

  lemma OneMorePosition(front: seq<TextRow>, last: TextRow, wanted: TextRow -> bool)
    ensures |Positions(front + [last], wanted)| == |Positions(front, wanted)| + (if wanted(last) then 1 else 0)
  {
    assert Positions(front + [last], wanted) == Positions(front, wanted) + (if wanted(last) then {|front|} else {});
  }

  /** A page number below 1 is 1; the size is at least 1 and at most 100, and 20 if none is given. */
  ghost predicate IsHeader(q: Query, p: Page) {
    && p.page == (if q.page >= 1 then q.page else 1)
    && p.pageSize == (if q.pageSize <= 0 then 20 else if q.pageSize > 100 then 100 else q.pageSize)
  }

  /** The header of a page, the page count, and which pages have rows. */
  lemma SearchHeader(db: Database, desc: Descriptor, q: Query)
    requires KeepsRows(db)
    ensures var p := Search(db, desc, q);
            && IsHeader(q, p) && |p.data| <= p.pageSize
            && p.totalPages * p.pageSize >= p.total
            && (p.totalPages > 0 ==> (p.totalPages - 1) * p.pageSize < p.total)
            && (p.data != [] <==> p.page <= p.totalPages)
  {
    var p := Search(db, desc, q);
    TurningPagesShowsEverything(db, desc, q);
    assert |Arranged(db, desc, q)| == |multiset(Arranged(db, desc, q))| == |multiset(Hits(db, desc, q))|;
    PagesPartition(Arranged(db, desc, q), p.pageSize);
  }

  /** The database brings rows into the order that a list of sort fields asks for. */
  ghost predicate SortsRows(db: Database, before: seq<SortField> -> Order<TextRow>) {
    forall sort, rows :: InOrder(before(sort), db.arrange(sort, rows))
  }

  /** The pages follow one another in the order of the effective sort. */
  lemma PagesAreInOrder(db: Database, desc: Descriptor, q: Query, before: seq<SortField> -> Order<TextRow>)
    requires KeepsRows(db) && SortsRows(db, before)
    ensures InOrder(before(EffectiveSort(q.sort, desc)), Collected(Shown(db, desc, q), Search(db, desc, q).totalPages))
  {
    TurningPagesShowsEverything(db, desc, q);
  }

  // ----- tied rows -----

  /** For every page the database may arrange the result anew, as long as the sort keys are in order. */
  ghost predicate IsArranged(before: Order<TextRow>, hits: seq<TextRow>, choice: int -> seq<TextRow>) {
    forall k :: InOrder(before, choice(k)) && multiset(choice(k)) == multiset(hits)
  }

  function PagesOf(choice: int -> seq<TextRow>, size: int): int -> seq<TextRow>
    requires size >= 1
  {
    k => if k >= 1 then PageOf(choice(k), k, size) else []
  }

  /** All pages together show every row exactly as often as it was found. */
  ghost predicate ShowsEverything(hits: seq<TextRow>, choice: int -> seq<TextRow>, size: int)
    requires size >= 1
  {
    multiset(Collected(PagesOf(choice, size), TotalPages(|hits|, size))) == multiset(hits)
  }

  lemma SameLength(a: seq<TextRow>, b: seq<TextRow>)
    requires multiset(a) == multiset(b)
    ensures |a| == |b|
  {
    assert |a| == |multiset(a)| == |multiset(b)| == |b|;
  }

  /** Without ties there is only one arrangement, and a single page shows all of it in any case. */
  lemma UntiedPagesShowEverything(before: Order<TextRow>, hits: seq<TextRow>, choice: int -> seq<TextRow>, size: int)
    requires IsPreorder(before) && IsArranged(before, hits, choice) && size >= 1
    requires NoTies(before, hits) || |hits| <= size
    ensures ShowsEverything(hits, choice, size)
  {
    var rows := choice(1);
    SameLength(rows, hits);
    if |hits| <= size {
      OnePage(choice, hits, size);
    } else {
      forall k ensures choice(k) == rows {
        TiesOfArranged(before, hits, rows);
        SortedOnce(before, rows, choice(k));
      }
      CollectedArePages(PagesOf(choice, size), rows, size, TotalPages(|rows|, size));
      PagesPartition(rows, size);
    }
  }

  lemma TiesOfArranged(before: Order<TextRow>, hits: seq<TextRow>, rows: seq<TextRow>)
    requires multiset(rows) == multiset(hits)
    ensures NoTies(before, hits) <==> NoTies(before, rows)
  {
    forall r ensures r in rows <==> r in hits {
      assert r in rows <==> r in multiset(rows);
      assert r in hits <==> r in multiset(hits);
    }
    if NoTies(before, hits) {
      forall i, j | 0 <= i < |rows| && 0 <= j < |rows| && before(rows[i], rows[j]) && before(rows[j], rows[i])
        ensures rows[i] == rows[j]
      {
        assert rows[i] in hits && rows[j] in hits;
      }
    }
    if NoTies(before, rows) {
      forall i, j | 0 <= i < |hits| && 0 <= j < |hits| && before(hits[i], hits[j]) && before(hits[j], hits[i])
        ensures hits[i] == hits[j]
      {
        assert hits[i] in rows && hits[j] in rows;
      }
    }
  }

  lemma OnePage(choice: int -> seq<TextRow>, hits: seq<TextRow>, size: int)
    requires size >= 1 && |hits| <= size && multiset(choice(1)) == multiset(hits)
    ensures ShowsEverything(hits, choice, size)
  {
    SameLength(choice(1), hits);
    var n := TotalPages(|hits|, size);
    if hits == [] {
      assert Collected(PagesOf(choice, size), n) == [];
    } else {
      OnePageSuffices(|hits|, size);
      assert Collected(PagesOf(choice, size), 1) == Collected(PagesOf(choice, size), 0) + PageOf(choice(1), 1, size);
      assert PageOf(choice(1), 1, size) == choice(1);
    }
  }

  /** The arrangement that differs from `rows` on page `k` alone. */
  function ExceptOn(rows: seq<TextRow>, k: int, other: seq<TextRow>): int -> seq<TextRow> {
    p => if p == k then other else rows
  }

  lemma {:induction false} PagesOfOne(choice: int -> seq<TextRow>, shown: seq<TextRow>, n: nat)
    requires n <= |shown|
    requires forall k :: 1 <= k <= n ==> |choice(k)| >= k && choice(k)[k - 1] == shown[k - 1]
    ensures Collected(PagesOf(choice, 1), n) == shown[..n]
    decreases n
  {
    if n == 0 {
    } else {
      PagesOfOne(choice, shown, n - 1);
      assert PageOf(choice(n), n, 1) == [shown[n - 1]];
      assert shown[..n] == shown[..n - 1] + [shown[n - 1]];
    }
  }

  lemma SwappedIsArranged(before: Order<TextRow>, hits: seq<TextRow>, rows: seq<TextRow>, i: nat, j: nat)
    requires IsPreorder(before) && InOrder(before, rows) && multiset(rows) == multiset(hits)
    requires i < |rows| && j < |rows| && i != j && before(rows[i], rows[j]) && before(rows[j], rows[i])
    ensures IsArranged(before, hits, ExceptOn(rows, j + 1, rows[i := rows[j]][j := rows[i]]))
  {
    TiedMaySwap(before, rows, i, j);
  }

  /** Page `j + 1` of the swapped arrangement shows the row of page `i + 1` again. */
  lemma SwappedLosesRow(hits: seq<TextRow>, rows: seq<TextRow>, i: nat, j: nat)
    requires multiset(rows) == multiset(hits) && i < |rows| && j < |rows| && rows[i] != rows[j]
    ensures !ShowsEverything(hits, ExceptOn(rows, j + 1, rows[i := rows[j]][j := rows[i]]), 1)
  {
    SameLength(rows, hits);
    var shown := rows[j := rows[i]];
    assert TotalPages(|hits|, 1) == |hits|;
    PagesOfOne(ExceptOn(rows, j + 1, rows[i := rows[j]][j := rows[i]]), shown, |hits|);
    assert shown[..|hits|] == shown;
    assert multiset(shown)[rows[j]] == multiset(rows)[rows[j]] - 1;
  }

  /** With tied rows, pages of one row can show a row twice and another one not at all. */
  lemma TiedPagesCanFail(before: Order<TextRow>, hits: seq<TextRow>) returns (choice: int -> seq<TextRow>)
    requires IsPreorder(before) && !NoTies(before, hits)
    ensures IsArranged(before, hits, choice) && !ShowsEverything(hits, choice, 1)
  {
    var rows := Sort(before, hits);
    SortSorts(before, hits);
    TiesOfArranged(before, hits, rows);
    var i, j := TiedPair(before, rows);
    SwappedIsArranged(before, hits, rows, i, j);
    SwappedLosesRow(hits, rows, i, j);
    choice := ExceptOn(rows, j + 1, rows[i := rows[j]][j := rows[i]]);
  }

  lemma TiedPair(before: Order<TextRow>, rows: seq<TextRow>) returns (i: nat, j: nat)
    requires !NoTies(before, rows)
    ensures i < |rows| && j < |rows| && before(rows[i], rows[j]) && before(rows[j], rows[i]) && rows[i] != rows[j]
  {
    i, j :| i < |rows| && j < |rows| && before(rows[i], rows[j]) && before(rows[j], rows[i]) && rows[i] != rows[j];
  }

  /** Turning the pages shows everything, for every page size and arrangement, exactly for results without ties. */
  lemma TurningPagesExactly(before: Order<TextRow>, hits: seq<TextRow>)
    requires IsPreorder(before)
    ensures (forall size, choice :: 1 <= size <= MAX_PAGE_SIZE && IsArranged(before, hits, choice) ==>
               ShowsEverything(hits, choice, size)) <==>
            NoTies(before, hits)
  {
    if NoTies(before, hits) {
      forall size, choice | 1 <= size <= MAX_PAGE_SIZE && IsArranged(before, hits, choice)
        ensures ShowsEverything(hits, choice, size)
      {
        UntiedPagesShowEverything(before, hits, choice, size);
      }
    } else {
      var choice := TiedPagesCanFail(before, hits);
    }
  }
}
