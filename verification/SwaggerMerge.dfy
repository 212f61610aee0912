/** Two-level tables and their disjoint union. */
module Tables {
  type Table<K, L, V> = map<K, map<L, V>>

  /** No entry is defined in both tables. */
  ghost predicate Compatible<K, L, V>(a: Table<K, L, V>, b: Table<K, L, V>) {
    forall k :: k in a && k in b ==> a[k].Keys !! b[k].Keys
  }

  function Row<K, L, V>(a: Table<K, L, V>, k: K): map<L, V> {
    if k in a then a[k] else map[]
  }

  function Join<K, L, V>(a: Table<K, L, V>, b: Table<K, L, V>): Table<K, L, V> {
    map k | k in a.Keys + b.Keys :: Row(a, k) + Row(b, k)
  }

  ghost predicate Has<K, L, V>(a: Table<K, L, V>, k: K, l: L, v: V) {
    k in a && l in a[k] && a[k][l] == v
  }

  lemma JoinHas<K, L, V>(a: Table<K, L, V>, b: Table<K, L, V>, k: K, l: L, v: V)
    requires Compatible(a, b)
    ensures Has(Join(a, b), k, l, v) <==> Has(a, k, l, v) || Has(b, k, l, v)
  {
  }

  lemma JoinCompatible<K, L, V>(a: Table<K, L, V>, b: Table<K, L, V>, c: Table<K, L, V>)
    requires Compatible(a, b)
    ensures Compatible(Join(a, b), c) <==> Compatible(a, c) && Compatible(b, c)
  {
    var ab := Join(a, b);
    forall k | k in ab ensures ab[k].Keys == Row(a, k).Keys + Row(b, k).Keys {
    }
    if Compatible(ab, c) {
      forall k | k in a && k in c ensures a[k].Keys !! c[k].Keys { assert k in ab; }
      forall k | k in b && k in c ensures b[k].Keys !! c[k].Keys { assert k in ab; }
    }
  }

  lemma CompatibleSwaps<K, L, V>(a: Table<K, L, V>, b: Table<K, L, V>)
    ensures Compatible(a, b) <==> Compatible(b, a)
  {
  }

  lemma RowOfJoin<K, L, V>(a: Table<K, L, V>, b: Table<K, L, V>, k: K)
    ensures Row(Join(a, b), k) == Row(a, k) + Row(b, k)
  {
    if k !in a.Keys + b.Keys { assert Row(a, k) + Row(b, k) == map[]; }
  }

  lemma AddsSwap<L, V>(d: map<L, V>, a: map<L, V>, b: map<L, V>)
    requires a.Keys !! b.Keys
    ensures d + a + b == d + b + a
  {
  }

  lemma RowSwaps<K, L, V>(d: Table<K, L, V>, a: Table<K, L, V>, b: Table<K, L, V>, k: K)
    requires Compatible(a, b)
    ensures Row(Join(Join(d, a), b), k) == Row(Join(Join(d, b), a), k)
  {
    RowOfJoin(d, a, k);
    RowOfJoin(d, b, k);
    RowOfJoin(Join(d, a), b, k);
    RowOfJoin(Join(d, b), a, k);
    assert Row(a, k).Keys !! Row(b, k).Keys;
    AddsSwap(Row(d, k), Row(a, k), Row(b, k));
  }

  lemma JoinSwaps<K, L, V>(d: Table<K, L, V>, a: Table<K, L, V>, b: Table<K, L, V>)
    requires Compatible(a, b)
    ensures Join(Join(d, a), b) == Join(Join(d, b), a)
  {
    var x, y := Join(Join(d, a), b), Join(Join(d, b), a);
    forall k ensures Row(x, k) == Row(y, k) { RowSwaps(d, a, b, k); }
    SameRows(x, y);
  }

  lemma SameRows<K, L, V>(x: Table<K, L, V>, y: Table<K, L, V>)
    requires x.Keys == y.Keys && forall k :: Row(x, k) == Row(y, k)
    ensures x == y
  {
    forall k | k in x ensures x[k] == y[k] { assert Row(x, k) == Row(y, k); }
  }
}

/** Adding the entries of one map, or the rows of one table, to another one by one. */
module Adding {
  import opened Tables

  function Without<L, V>(m: map<L, V>, todo: set<L>): map<L, V> {
    map k | k in m && k !in todo :: m[k]
  }

  /** `now` is `before` with all entries of `source` but those still to do, none of which was there. */
  ghost predicate Added<L, V>(before: map<L, V>, source: map<L, V>, todo: set<L>, now: map<L, V>) {
    && todo <= source.Keys
    && before.Keys !! source.Keys - todo
    && now == before + Without(source, todo)
  }

  lemma AddOne<L, V>(before: map<L, V>, source: map<L, V>, todo: set<L>, now: map<L, V>, k: L)
    requires Added(before, source, todo, now) && k in todo
    ensures k in now <==> k in before
    ensures k !in before ==> Added(before, source, todo - {k}, now[k := source[k]])
  {
    assert Without(source, todo - {k}) == Without(source, todo)[k := source[k]];
  }

  lemma AddedAll<L, V>(before: map<L, V>, source: map<L, V>, now: map<L, V>)
    requires Added(before, source, {}, now)
    ensures before.Keys !! source.Keys && now == before + source
  {
    assert Without(source, {}) == source;
  }

  ghost predicate Joined<K, L, V>(before: Table<K, L, V>, source: Table<K, L, V>, todo: set<K>, now: Table<K, L, V>) {
    && Compatible(before, Without(source, todo))
    && now == Join(before, Without(source, todo))
  }

  lemma NothingJoined<K, L, V>(before: Table<K, L, V>, source: Table<K, L, V>, todo: set<K>)
    requires source.Keys <= todo
    ensures Joined(before, source, todo, before)
  {
    assert Without(source, todo) == map[];
    forall k | k in before ensures Row(before, k) + map[] == before[k] {
    }
  }

  lemma JoinOne<K, L, V>(before: Table<K, L, V>, source: Table<K, L, V>, todo: set<K>, now: Table<K, L, V>, k: K)
    requires Joined(before, source, todo, now) && k in todo && k in source
    ensures Row(now, k) == Row(before, k) && (k in now <==> k in before)
    ensures Row(before, k).Keys !! source[k].Keys ==>
              Joined(before, source, todo - {k}, now[k := Row(before, k) + source[k]])
  {
    var less, more := Without(source, todo), Without(source, todo - {k});
    assert more == less[k := source[k]];
    RowOfJoin(before, less, k);
    var grown := now[k := Row(before, k) + source[k]];
    if Row(before, k).Keys !! source[k].Keys {
      assert grown.Keys == Join(before, more).Keys;
      forall j | j in grown ensures grown[j] == Join(before, more)[j] {
        RowOfJoin(before, less, j);
        RowOfJoin(before, more, j);
      }
    }
  }

  lemma Clash<K, L, V>(before: Table<K, L, V>, source: Table<K, L, V>, k: K)
    requires k in source && !(Row(before, k).Keys !! source[k].Keys)
    ensures !Compatible(before, source)
  {
  }

  /** One row is added, if it can be. */
  lemma JoinStep<K, L, V>(before: Table<K, L, V>, source: Table<K, L, V>, todo: set<K>,
                          now: Table<K, L, V>, later: Table<K, L, V>, k: K, ok: bool)
    requires Joined(before, source, todo, now) && k in todo && k in source
    requires ok <==> Row(now, k).Keys !! source[k].Keys
    requires ok ==> later == now[k := Row(now, k) + source[k]]
    ensures ok ==> Joined(before, source, todo - {k}, later)
    ensures !ok ==> !Compatible(before, source)
  {
    JoinOne(before, source, todo, now, k);
    if !ok { Clash(before, source, k); }
  }

  lemma JoinedAll<K, L, V>(before: Table<K, L, V>, source: Table<K, L, V>, now: Table<K, L, V>)
    requires Joined(before, source, {}, now)
    ensures Compatible(before, source) && now == Join(before, source)
  {
    assert Without(source, {}) == source;
  }
}

/** What merging OpenAPI specs means, in any order. */
module SwaggerAlgebra {
  import opened Basics
  import opened Tables

  datatype Method = Connect | Delete | Get | Head | Options | Patch | Post | Put | Trace

  datatype Section =
    | Schemas | Parameters | Headers | RequestBodies | Responses | SecuritySchemes | Examples | Links | Callbacks

  /** Operations and component definitions are taken over as they are. */
  type Definition = string

  type Operations = Table<string, Method, Definition>
  type Components = Table<Section, string, Definition>

  /** A spec as a value; `sound` if neither it nor one of its path items and tags is nil. */
  datatype Source = Source(sound: bool, operations: Operations, components: Components, tags: set<string>)

  /** The merged document as a value, tags by name. */
  datatype Merged = Merged(operations: Operations, components: Components, tags: set<string>)

  ghost predicate Fits(d: Merged, s: Source) {
    s.sound && Compatible(d.operations, s.operations) && Compatible(d.components, s.components)
  }

  /** Nothing is defined by both specs. */
  ghost predicate Apart(s: Source, t: Source) {
    Compatible(s.operations, t.operations) && Compatible(s.components, t.components)
  }

  lemma ApartSwaps(s: Source, t: Source)
    ensures Apart(s, t) <==> Apart(t, s)
  {
    CompatibleSwaps(s.operations, t.operations);
    CompatibleSwaps(s.components, t.components);
  }

  function Plus(d: Merged, s: Source): Merged {
    Merged(Join(d.operations, s.operations), Join(d.components, s.components), d.tags + s.tags)
  }

  ghost function Step(d: Option<Merged>, s: Source): Option<Merged> {
    if d.Some? && Fits(d.value, s) then Some(Plus(d.value, s)) else None
  }

  /** Merging specs one after the other; an error ends it. */
  ghost function MergeAll(d: Merged, specs: seq<Source>): Option<Merged> {
    if specs == [] then Some(d) else Step(MergeAll(d, specs[..|specs| - 1]), specs[|specs| - 1])
  }

  lemma FitsAfter(d: Merged, s: Source, t: Source)
    requires Fits(d, s)
    ensures Fits(Plus(d, s), t) <==> Fits(d, t) && Apart(s, t)
  {
    JoinCompatible(d.operations, s.operations, t.operations);
    JoinCompatible(d.components, s.components, t.components);
  }

  lemma PlusSwaps(d: Merged, s: Source, t: Source)
    requires Apart(s, t)
    ensures Plus(Plus(d, s), t) == Plus(Plus(d, t), s)
  {
    JoinSwaps(d.operations, s.operations, t.operations);
    JoinSwaps(d.components, s.components, t.components);
    assert d.tags + s.tags + t.tags == d.tags + t.tags + s.tags;
  }

  lemma StepsSwap(d: Option<Merged>, s: Source, t: Source)
    ensures Step(Step(d, s), t) == Step(Step(d, t), s)
  {
    if d.Some? {
      ApartSwaps(s, t);
      if Fits(d.value, s) { FitsAfter(d.value, s, t); }
      if Fits(d.value, t) { FitsAfter(d.value, t, s); }
      if Apart(s, t) { PlusSwaps(d.value, s, t); }
    }
  }

  /** A spec may as well be merged last. */
  lemma {:induction false} MoveToEnd(d: Merged, a: seq<Source>, s: Source, b: seq<Source>)
    ensures MergeAll(d, a + [s] + b) == MergeAll(d, a + b + [s])
    decreases |b|
  {
    if b == [] {
      assert a + [s] + b == a + b + [s];
    } else {
      var c, t := b[..|b| - 1], b[|b| - 1];
      assert (a + [s] + b)[..|a + [s] + b| - 1] == a + [s] + c;
      assert (a + b + [s])[..|a + b + [s]| - 1] == a + b;
      assert (a + b)[..|a + b| - 1] == a + c;
      assert (a + c + [s])[..|a + c + [s]| - 1] == a + c;
      MoveToEnd(d, a, s, c);
      StepsSwap(MergeAll(d, a + c), s, t);
    }
  }

  /** Every order of the same specs gives the same document, or none of them does. */
  lemma {:induction false} OrderDoesNotMatter(d: Merged, a: seq<Source>, b: seq<Source>)
    requires multiset(a) == multiset(b)
    ensures MergeAll(d, a) == MergeAll(d, b)
    decreases |a|
  {
    assert |a| == |multiset(a)| == |b|;
    if a == [] {
    } else {
      var s := a[|a| - 1];
      var front := a[..|a| - 1];
      assert a == front + [s];
      assert s in multiset(b);
      var i :| 0 <= i < |b| && b[i] == s;
      var rest := b[..i] + b[i + 1..];
      assert b == b[..i] + [s] + b[i + 1..];
      assert multiset(rest) == multiset(b) - multiset{s} == multiset(front);
      OrderDoesNotMatter(d, front, rest);
      MoveToEnd(d, b[..i], s, b[i + 1..]);
      assert (rest + [s])[..|rest|] == rest;
    }
  }

  // ----- when merging succeeds, and what it gives -----

  const EMPTY := Merged(map[], map[], {})

  /** No operation and no component is defined by two of the specs. */
  ghost predicate DefinedOnce(specs: seq<Source>) {
    forall i, j :: 0 <= i < j < |specs| ==> Apart(specs[i], specs[j])
  }

  ghost predicate AllSound(specs: seq<Source>) {
    forall i :: 0 <= i < |specs| ==> specs[i].sound
  }

  ghost predicate FitsAll(specs: seq<Source>, s: Source) {
    forall i :: 0 <= i < |specs| ==> Apart(specs[i], s)
  }

  lemma FitsAllSplits(specs: seq<Source>, s: Source)
    requires specs != []
    ensures FitsAll(specs, s) <==> FitsAll(specs[..|specs| - 1], s) && Apart(specs[|specs| - 1], s)
  {
  }

  lemma {:induction false} FitsMerged(specs: seq<Source>, s: Source)
    requires MergeAll(EMPTY, specs).Some? && s.sound
    ensures Fits(MergeAll(EMPTY, specs).value, s) <==> FitsAll(specs, s)
    decreases |specs|
  {
    if specs == [] {
    } else {
      var n := |specs| - 1;
      FitsMerged(specs[..n], s);
      FitsAfter(MergeAll(EMPTY, specs[..n]).value, specs[n], s);
      FitsAllSplits(specs, s);
    }
  }

  lemma {:induction false} SucceedsExactly(specs: seq<Source>)
    ensures MergeAll(EMPTY, specs).Some? <==> AllSound(specs) && DefinedOnce(specs)
    decreases |specs|
  {
    if specs == [] {
    } else {
      var n := |specs| - 1;
      SucceedsExactly(specs[..n]);
      assert AllSound(specs) <==> AllSound(specs[..n]) && specs[n].sound;
      assert DefinedOnce(specs) <==> DefinedOnce(specs[..n]) && FitsAll(specs[..n], specs[n]);
      if MergeAll(EMPTY, specs[..n]).Some? && specs[n].sound { FitsMerged(specs[..n], specs[n]); }
    }
  }

  ghost predicate SomeOperation(specs: seq<Source>, path: string, m: Method, def: Definition) {
    exists i :: 0 <= i < |specs| && Has(specs[i].operations, path, m, def)
  }

  ghost predicate SomeComponent(specs: seq<Source>, section: Section, key: string, def: Definition) {
    exists i :: 0 <= i < |specs| && Has(specs[i].components, section, key, def)
  }

  ghost predicate SomeTag(specs: seq<Source>, tag: string) {
    exists i :: 0 <= i < |specs| && tag in specs[i].tags
  }

  /** The document holds exactly what some spec defines. */
  ghost predicate IsUnion(d: Merged, specs: seq<Source>) {
    && (forall p, m, def :: Has(d.operations, p, m, def) <==> SomeOperation(specs, p, m, def))
    && (forall c, k, def :: Has(d.components, c, k, def) <==> SomeComponent(specs, c, k, def))
    && (forall tag :: tag in d.tags <==> SomeTag(specs, tag))
  }

  lemma {:induction false} MergedIsUnion(specs: seq<Source>)
    requires MergeAll(EMPTY, specs).Some?
    ensures IsUnion(MergeAll(EMPTY, specs).value, specs)
    decreases |specs|
  {
    if specs == [] {
    } else {
      var n := |specs| - 1;
      MergedIsUnion(specs[..n]);
      UnionGrows(MergeAll(EMPTY, specs[..n]).value, specs);
    }
  }

  lemma UnionGrows(d: Merged, specs: seq<Source>)
    requires specs != [] && IsUnion(d, specs[..|specs| - 1]) && Fits(d, specs[|specs| - 1])
    ensures IsUnion(Plus(d, specs[|specs| - 1]), specs)
  {
    var n := |specs| - 1;
    var front, last := specs[..n], specs[n];
    assert specs == front + [last];
    forall p, m, def ensures Has(Plus(d, last).operations, p, m, def) <==> SomeOperation(specs, p, m, def) {
      JoinHas(d.operations, last.operations, p, m, def);
      assert SomeOperation(specs, p, m, def) <==> SomeOperation(front, p, m, def) || Has(last.operations, p, m, def);
    }
    forall c, k, def ensures Has(Plus(d, last).components, c, k, def) <==> SomeComponent(specs, c, k, def) {
      JoinHas(d.components, last.components, c, k, def);
      assert SomeComponent(specs, c, k, def) <==> SomeComponent(front, c, k, def) || Has(last.components, c, k, def);
    }
    forall tag ensures tag in Plus(d, last).tags <==> SomeTag(specs, tag) {
      assert SomeTag(specs, tag) <==> SomeTag(front, tag) || tag in last.tags;
    }
  }
}

/** The document itself, whose path items are objects that are updated in place. */
module SwaggerDocument {
  import opened Basics
  import opened Tables
  import opened Adding
  import opened SwaggerAlgebra

  /** The operations of one path, its parameter and server lists, and the other fields, which are values. */
  class PathItem {
    var operations: map<Method, Definition>
    const parameters: array<Definition>
    const servers: array<Definition>
    const details: seq<string>

    constructor (operations: map<Method, Definition>, parameters: array<Definition>, servers: array<Definition>,
                 details: seq<string>)
      ensures this.operations == operations && this.details == details
      ensures this.parameters == parameters && this.servers == servers
    {
      this.operations, this.details := operations, details;
      this.parameters, this.servers := parameters, servers;
    }
  }

  method CopyList(source: array<Definition>) returns (copied: array<Definition>)
    ensures fresh(copied) && copied[..] == source[..]
  {
    copied := new Definition[source.Length](_ => "");
    for n := 0 to source.Length
      invariant forall i :: 0 <= i < n ==> copied[i] == source[i]
    {
      copied[n] := source[n];
    }
  }

  /** A detached item: neither it nor its lists are shared with the source. */
  method ClonePathItem(source: PathItem) returns (cloned: PathItem)
    ensures fresh(cloned) && fresh(cloned.parameters) && fresh(cloned.servers)
    ensures cloned.operations == source.operations && cloned.details == source.details
    ensures cloned.parameters[..] == source.parameters[..] && cloned.servers[..] == source.servers[..]
  {
    var parameters := CopyList(source.parameters);
    var servers := CopyList(source.servers);
    cloned := new PathItem(source.operations, parameters, servers, source.details);
  }

  type Paths = map<string, PathItem>

  /** Path items and tags may be nil. */
  datatype Spec = Spec(paths: map<string, PathItem?>, components: Components, tags: seq<Option<string>>)

  ghost function OperationsOf(paths: map<string, PathItem?>): Operations
    reads paths.Values
  {
    map path | path in paths && paths[path] != null :: paths[path].operations
  }

  /** The items agree in all but their operations. */
  ghost predicate SameRest(a: PathItem, b: PathItem)
    reads a.parameters, a.servers, b.parameters, b.servers
  {
    a.details == b.details && a.parameters[..] == b.parameters[..] && a.servers[..] == b.servers[..]
  }

  /** Known paths keep their item. */
  predicate ItemsKept(before: Paths, now: Paths) {
    forall path :: path in before ==> path in now && now[path] == before[path]
  }

  type Trim = string -> string

  function Trimmed(trim: Trim, tags: seq<string>): set<string> {
    set tag | tag in tags :: trim(tag)
  }

  /** The names of the tags, without blank ones. */
  function Names(trim: Trim, tags: seq<string>): set<string> {
    Trimmed(trim, tags) - {""}
  }

  /** The tags that are not nil. */
  function Present(tags: seq<Option<string>>): (r: seq<string>)
    ensures forall tag :: tag in r <==> Some(tag) in tags
  {
    if tags == [] then []
    else
      assert tags == tags[..|tags| - 1] + [tags[|tags| - 1]];
      var rest := Present(tags[..|tags| - 1]);
      if tags[|tags| - 1].Some? then rest + [tags[|tags| - 1].value] else rest
  }

  predicate NoNilItem(paths: map<string, PathItem?>) {
    forall path :: path in paths ==> paths[path] != null
  }

  predicate NoNil(spec: Spec) {
    NoNilItem(spec.paths) && None !in spec.tags
  }

  ghost function SourceOf(trim: Trim, spec: Spec): Source
    reads spec.paths.Values
  {
    Source(NoNil(spec), OperationsOf(spec.paths), spec.components, Names(trim, Present(spec.tags)))
  }

  const SECTIONS: seq<Section> :=
    [Schemas, Parameters, Headers, RequestBodies, Responses, SecuritySchemes, Examples, Links, Callbacks]

  /** Adds the operations of a path that is known already. */
  method MergeOperations(target: PathItem, source: map<Method, Definition>) returns (ok: bool)
    modifies target
    ensures ok <==> old(target.operations).Keys !! source.Keys
    ensures ok ==> target.operations == old(target.operations) + source
  {
    var todo := source.Keys;
    while todo != {}
      invariant Added(old(target.operations), source, todo, target.operations)
      decreases |todo|
    {
      var m :| m in todo;
      AddOne(old(target.operations), source, todo, target.operations, m);
      if m in target.operations {
        return false;
      }
      target.operations := target.operations[m := source[m]];
      todo := todo - {m};
    }
    AddedAll(old(target.operations), source, target.operations);
    ok := true;
  }

  /** Adds the definitions of one component section. */
  method MergeSection(target: map<string, Definition>, source: map<string, Definition>)
    returns (ok: bool, merged: map<string, Definition>)
    ensures ok <==> target.Keys !! source.Keys
    ensures ok ==> merged == target + source
  {
    merged := target;
    var todo := source.Keys;
    while todo != {}
      invariant Added(target, source, todo, merged)
      decreases |todo|
    {
      var key :| key in todo;
      AddOne(target, source, todo, merged, key);
      if key in merged {
        return false, merged;
      }
      merged := merged[key := source[key]];
      todo := todo - {key};
    }
    AddedAll(target, source, merged);
    ok := true;
  }

  lemma EverySection(section: Section)
    ensures exists i :: 0 <= i < |SECTIONS| && SECTIONS[i] == section
  {
    assert SECTIONS[0] == Schemas && SECTIONS[1] == Parameters && SECTIONS[2] == Headers;
    assert SECTIONS[3] == RequestBodies && SECTIONS[4] == Responses && SECTIONS[5] == SecuritySchemes;
    assert SECTIONS[6] == Examples && SECTIONS[7] == Links && SECTIONS[8] == Callbacks;
  }

  /** The sections in the list are merged, the others are as before. */
  ghost predicate SectionsMerged(before: Components, source: Components, done: seq<Section>, now: Components) {
    && (forall section :: section in before && section in now)
    && (forall section :: section in done ==>
          before[section].Keys !! Row(source, section).Keys && now[section] == before[section] + Row(source, section))
    && (forall section :: section !in done ==> now[section] == before[section])
  }

  lemma SectionMerged(before: Components, source: Components, n: nat, now: Components, all: map<string, Definition>)
    requires n < |SECTIONS| && SectionsMerged(before, source, SECTIONS[..n], now)
    ensures now[SECTIONS[n]] == before[SECTIONS[n]]
    ensures before[SECTIONS[n]].Keys !! Row(source, SECTIONS[n]).Keys
            && all == before[SECTIONS[n]] + Row(source, SECTIONS[n])
            ==> SectionsMerged(before, source, SECTIONS[..n + 1], now[SECTIONS[n] := all])
  {
    assert SECTIONS[..n + 1] == SECTIONS[..n] + [SECTIONS[n]];
    SectionsDiffer(n);
  }

  lemma SectionsDiffer(n: nat)
    requires n < |SECTIONS|
    ensures SECTIONS[n] !in SECTIONS[..n]
  {
  }

  lemma AllSectionsMerged(before: Components, source: Components, now: Components)
    requires SectionsMerged(before, source, SECTIONS, now)
    ensures Compatible(before, source) && now == Join(before, source)
  {
    forall section ensures section in SECTIONS { EverySection(section); }
  }

  lemma NamesGrow(trim: Trim, tags: seq<string>, tag: string)
    ensures Trimmed(trim, tags + [tag]) == Trimmed(trim, tags) + {trim(tag)}
    ensures Names(trim, tags + [tag]) == Names(trim, tags) + ({trim(tag)} - {""})
  {
  }

  lemma PresentGrows(trim: Trim, source: seq<Option<string>>, n: nat)
    requires n < |source| && source[n].Some?
    ensures Names(trim, Present(source[..n + 1])) ==
            Names(trim, Present(source[..n])) + ({trim(source[n].value)} - {""})
  {
    assert source[..n + 1][..n] == source[..n];
    NamesGrow(trim, Present(source[..n]), source[n].value);
  }

  class Document {
    var paths: Paths
    var components: Components
    var tags: seq<string>

    ghost predicate Valid()
      reads this
    {
      && (forall p, q :: p in paths && q in paths && p != q ==> paths[p] != paths[q])
      && (forall section: Section :: section in components)
    }

    ghost function Items(): set<PathItem>
      reads this
    {
      paths.Values
    }

    ghost function Value(trim: Trim): Merged
      reads this, Items()
    {
      Merged(OperationsOf(paths), components, Names(trim, tags))
    }

    constructor ()
      ensures Valid() && Items() == {} && tags == []
      ensures OperationsOf(paths) == map[]
      ensures forall section :: section in components && components[section] == map[]
    {
      paths, tags := map[], [];
      components := map[
        Schemas := map[], Parameters := map[], Headers := map[], RequestBodies := map[], Responses := map[],
        SecuritySchemes := map[], Examples := map[], Links := map[], Callbacks := map[]];
      new;
      forall section ensures section in components && components[section] == map[] { EverySection(section); }
    }

    /** Puts a clone of the item under a new path. */
    method AddPath(path: string, item: PathItem)
      requires Valid() && path !in paths && item !in Items()
      modifies this`paths
      ensures Valid() && fresh(Items() - old(Items()))
      ensures OperationsOf(paths) == old(OperationsOf(paths))[path := item.operations]
      ensures path in paths && paths == old(paths)[path := paths[path]] && SameRest(paths[path], item)
    {
      var cloned := ClonePathItem(item);
      paths := paths[path := cloned];
      forall known | known in Items() ensures known in old(Items()) || known == cloned {
        var p :| p in paths && paths[p] == known;
      }
    }

    /** Adds the operations of the item to a known path. */
    method ExtendPath(path: string, item: PathItem) returns (ok: bool)
      requires Valid() && path in paths && item !in Items()
      modifies paths[path]
      ensures ok <==> old(paths[path].operations).Keys !! item.operations.Keys
      ensures ok ==> OperationsOf(paths) ==
                     old(OperationsOf(paths))[path := old(paths[path].operations) + item.operations]
    {
      ok := MergeOperations(paths[path], item.operations);
    }

    /** How far the merge has come: `todo` is left of the source, whose operations are `added`. */
    ghost predicate Merging(source: map<string, PathItem?>, before: Operations, added: Operations, todo: set<string>)
      reads this, Items(), source.Values
    {
      && Valid() && Items() !! source.Values
      && (forall p :: p in source && source[p] != null ==> p in added && source[p].operations == added[p])
      && Joined(before, added, todo, OperationsOf(paths))
    }

    /** Merges one path item. */
    method MergePath(path: string, item: PathItem, ghost source: map<string, PathItem?>,
                     ghost before: Operations, ghost added: Operations, ghost todo: set<string>)
      returns (ok: bool)
      requires Merging(source, before, added, todo) && path in todo && path in source && source[path] == item
      modifies this`paths, Items()
      ensures fresh(Items() - old(Items())) && Valid() && Items() !! source.Values
      ensures ok ==> Merging(source, before, added, todo - {path})
      ensures ItemsKept(old(paths), paths) && paths.Keys == old(paths).Keys + {path}
      ensures path !in old(paths) ==> SameRest(paths[path], item)
      ensures !ok ==> !Compatible(before, added)
    {
      ghost var now := OperationsOf(paths);
      if path !in paths {
        assert map[] + item.operations == item.operations;
        AddPath(path, item);
        ok := true;
      } else {
        ok := ExtendPath(path, item);
      }
      JoinStep(before, added, todo, now, OperationsOf(paths), path, ok);
    }

    method MergeEachPath(source: map<string, PathItem?>, ghost before: Operations, ghost added: Operations)
      returns (ok: bool)
      requires Merging(source, before, added, source.Keys)
      modifies this`paths, Items()
      ensures fresh(Items() - old(Items())) && Valid() && Items() !! source.Values
      ensures ok ==> NoNilItem(source) && Merging(source, before, added, {})
      ensures ItemsKept(old(paths), paths)
      ensures !ok ==> !NoNilItem(source) || !Compatible(before, added)
    {
      var todo := source.Keys;
      while todo != {}
        invariant todo <= source.Keys && (forall path :: path in source && path !in todo ==> source[path] != null)
        invariant fresh(Items() - old(Items())) && Merging(source, before, added, todo)
        invariant ItemsKept(old(paths), paths)
        decreases |todo|
      {
        var path :| path in todo;
        var item := source[path];
        if item == null {
          return false;
        }
        ok := MergePath(path, item, source, before, added, todo);
        if !ok {
          return;
        }
        todo := todo - {path};
      }
      ok := true;
    }

    method MergePaths(source: map<string, PathItem?>) returns (ok: bool)
      requires Valid() && Items() !! source.Values
      modifies this`paths, Items()
      ensures Valid() && fresh(Items() - old(Items())) && Items() !! source.Values
      ensures ok <==> NoNilItem(source) && Compatible(old(OperationsOf(paths)), old(OperationsOf(source)))
      ensures ok ==> OperationsOf(paths) == Join(old(OperationsOf(paths)), old(OperationsOf(source)))
      ensures ItemsKept(old(paths), paths)
    {
      ghost var before, added := OperationsOf(paths), OperationsOf(source);
      NothingJoined(before, added, source.Keys);
      ok := MergeEachPath(source, before, added);
      if ok { JoinedAll(before, added, OperationsOf(paths)); }
    }

    method MergeComponents(source: Components) returns (ok: bool)
      requires Valid()
      modifies this`components
      ensures Valid()
      ensures ok <==> Compatible(old(components), source)
      ensures ok ==> components == Join(old(components), source)
    {
      for n := 0 to |SECTIONS|
        invariant SectionsMerged(old(components), source, SECTIONS[..n], components)
      {
        var section := SECTIONS[n];
        var merged, all := MergeSection(components[section], Row(source, section));
        SectionMerged(old(components), source, n, components, all);
        if !merged {
          return false;
        }
        components := components[section := all];
      }
      assert SECTIONS[..|SECTIONS|] == SECTIONS;
      AllSectionsMerged(old(components), source, components);
      ok := true;
    }

    method MergeTags(trim: Trim, source: seq<Option<string>>) returns (ok: bool)
      modifies this`tags
      ensures ok <==> None !in source
      ensures old(tags) <= tags
      ensures ok ==> Names(trim, tags) == Names(trim, old(tags)) + Names(trim, Present(source))
    {
      var existing := Trimmed(trim, tags);
      assert Trimmed(trim, Present(source[..0])) == {};
      for n := 0 to |source|
        invariant old(tags) <= tags && None !in source[..n]
        invariant existing == Trimmed(trim, tags)
        invariant Names(trim, tags) == Names(trim, old(tags)) + Names(trim, Present(source[..n]))
      {
        if source[n].None? {
          assert source[n] in source;
          return false;
        }
        var name := trim(source[n].value);
        PresentGrows(trim, source, n);
        if name == "" || name in existing {
          continue;
        }
        NamesGrow(trim, tags, source[n].value);
        tags := tags + [source[n].value];
        existing := existing + {name};
      }
      assert source[..|source|] == source;
      ok := true;
    }

    method MergeParts(trim: Trim, spec: Spec) returns (ok: bool)
      requires Valid() && Items() !! spec.paths.Values
      modifies this, Items()
      ensures Valid() && fresh(Items() - old(Items())) && Items() !! spec.paths.Values
      ensures ok <==> NoNil(spec) && Compatible(old(OperationsOf(paths)), old(OperationsOf(spec.paths)))
                      && Compatible(old(components), spec.components)
      ensures ok ==> OperationsOf(paths) == Join(old(OperationsOf(paths)), old(OperationsOf(spec.paths)))
      ensures ok ==> components == Join(old(components), spec.components)
      ensures ok ==> Names(trim, tags) == Names(trim, old(tags)) + Names(trim, Present(spec.tags))
    {
      ok := MergePaths(spec.paths);
      if ok {
        ok := MergeComponents(spec.components);
      }
      if ok {
        ok := MergeTags(trim, spec.tags);
      }
    }

    /** Adds a spec; its own path items stay as they are. */
    method Merge(trim: Trim, spec: Option<Spec>) returns (ok: bool)
      requires Valid() && (spec.Some? ==> Items() !! spec.value.paths.Values)
      modifies this, Items()
      ensures Valid() && fresh(Items() - old(Items()))
      ensures spec.Some? ==> Items() !! spec.value.paths.Values
      ensures ok <==> spec.Some? && Fits(old(Value(trim)), old(SourceOf(trim, spec.value)))
      ensures ok ==> Value(trim) == Plus(old(Value(trim)), old(SourceOf(trim, spec.value)))
      ensures spec.Some? ==> SourceOf(trim, spec.value) == old(SourceOf(trim, spec.value))
    {
      if spec.None? {
        return false;
      }
      ok := MergeParts(trim, spec.value);
    }
  }
}
