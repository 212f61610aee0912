/** The display order of folders: by name, then slug, then identifier. */
module FolderOrder {
  import opened Text

  /** One stored folder, as far as the tree looks at it. */
  datatype Row = Row(id: string, name: string, slug: string, parentId: string)

  datatype SortKey = SortKey(name: string, slug: string, id: string)

  function KeyOf(row: Row): SortKey {
    SortKey(ToLower(TrimSpace(row.name)), ToLower(TrimSpace(row.slug)), row.id)
  }

  predicate KeyLess(a: SortKey, b: SortKey) {
    if a.name != b.name then LexLess(a.name, b.name)
    else if a.slug != b.slug then LexLess(a.slug, b.slug)
    else LexLess(a.id, b.id)
  }

  lemma KeyTotal(a: SortKey, b: SortKey)
    ensures !KeyLess(a, a)
    ensures a == b || KeyLess(a, b) || KeyLess(b, a)
  {
    LexIrreflexive(a.id);
    LexTotal(a.name, b.name);
    LexTotal(a.slug, b.slug);
    LexTotal(a.id, b.id);
  }

  lemma KeyTransitive(a: SortKey, b: SortKey, c: SortKey)
    requires KeyLess(a, b) && KeyLess(b, c)
    ensures KeyLess(a, c)
  {
    LexIrreflexive(a.name);
    LexIrreflexive(a.slug);
    if a.name != b.name && b.name != c.name { LexTransitive(a.name, b.name, c.name); }
    else if a.name == b.name == c.name {
      if a.slug != b.slug && b.slug != c.slug { LexTransitive(a.slug, b.slug, c.slug); }
      else if a.slug == b.slug == c.slug { LexTransitive(a.id, b.id, c.id); }
    }
  }

  /** By name, then by slug, both without regard to case and surrounding space, then by identifier. */
  ghost predicate ShownBefore(a: Row, b: Row) {
    var name, otherName := ToLower(TrimSpace(a.name)), ToLower(TrimSpace(b.name));
    Precedes(name, otherName) || (name == otherName && SlugBefore(a, b))
  }

  ghost predicate SlugBefore(a: Row, b: Row) {
    var slug, otherSlug := ToLower(TrimSpace(a.slug)), ToLower(TrimSpace(b.slug));
    Precedes(slug, otherSlug) || (slug == otherSlug && Precedes(a.id, b.id))
  }

  lemma KeyOrderMeans(a: Row, b: Row)
    ensures KeyLess(KeyOf(a), KeyOf(b)) <==> ShownBefore(a, b)
  {
    var x, y := KeyOf(a), KeyOf(b);
    LexLessMeans(x.name, y.name);
    LexLessMeans(x.slug, y.slug);
    LexLessMeans(x.id, y.id);
    LexIrreflexive(x.name);
    LexIrreflexive(x.slug);
  }

  type Less = (string, string) -> bool

  /** A strict total order on a set of identifiers. */
  ghost predicate Orders(less: Less, ids: set<string>) {
    && (forall a :: a in ids ==> !less(a, a))
    && (forall a, b :: a in ids && b in ids ==> a == b || less(a, b) || less(b, a))
    && (forall a, b, c :: a in ids && b in ids && c in ids && less(a, b) && less(b, c) ==> less(a, c))
  }

  /** The comparison of `sortFolderIDs`. */
  function LessOf(nodes: map<string, Row>): Less {
    (a, b) => a in nodes && b in nodes && KeyLess(KeyOf(nodes[a]), KeyOf(nodes[b]))
  }

  lemma LessOfOrders(nodes: map<string, Row>)
    requires forall id :: id in nodes ==> nodes[id].id == id
    ensures Orders(LessOf(nodes), nodes.Keys)
  {
    var less := LessOf(nodes);
    forall a, b | a in nodes && b in nodes ensures !less(a, a) && (a == b || less(a, b) || less(b, a)) {
      KeyTotal(KeyOf(nodes[a]), KeyOf(nodes[b]));
    }
    forall a, b, c | a in nodes && b in nodes && c in nodes && less(a, b) && less(b, c) ensures less(a, c) {
      KeyTransitive(KeyOf(nodes[a]), KeyOf(nodes[b]), KeyOf(nodes[c]));
    }
  }

  /** Strictly increasing. */
  ghost predicate IsSorted(less: Less, ids: seq<string>) {
    forall i, j :: 0 <= i < j < |ids| ==> less(ids[i], ids[j])
  }

  function SetOf(ids: seq<string>): set<string> {
    set id | id in ids
  }

  ghost predicate Lists(ids: seq<string>, s: set<string>) {
    forall id :: id in ids <==> id in s
  }

  /** There is only one way to list a set in order. */
  lemma {:induction false} SortedIsUnique(less: Less, a: seq<string>, b: seq<string>, s: set<string>)
    requires Orders(less, s) && Lists(a, s) && Lists(b, s) && IsSorted(less, a) && IsSorted(less, b)
    ensures a == b
    decreases |a|
  {
    SameLength(a, b, s);
    if a == [] {
    } else {
      FirstIsFirst(less, a, b, s);
      TailLists(less, a, s);
      TailLists(less, b, s);
      SortedIsUnique(less, a[1..], b[1..], s - {a[0]});
      SameHeadSameTail(a, b);
    }
  }

  lemma SameHeadSameTail(a: seq<string>, b: seq<string>)
    requires a != [] && b != [] && a[0] == b[0] && a[1..] == b[1..]
    ensures a == b
  {
    assert a == [a[0]] + a[1..] && b == [b[0]] + b[1..];
  }

  lemma SameLength(a: seq<string>, b: seq<string>, s: set<string>)
    requires Lists(a, s) && Lists(b, s)
    ensures a == [] <==> b == []
  {
    if a != [] { assert a[0] in b; }
    if b != [] { assert b[0] in a; }
  }

  lemma FirstIsFirst(less: Less, a: seq<string>, b: seq<string>, s: set<string>)
    requires Orders(less, s) && Lists(a, s) && Lists(b, s) && IsSorted(less, a) && IsSorted(less, b)
    requires a != [] && b != []
    ensures a[0] == b[0]
  {
    assert a[0] in b && b[0] in a;
    var i :| 0 <= i < |b| && b[i] == a[0];
    var j :| 0 <= j < |a| && a[j] == b[0];
  }

  lemma TailLists(less: Less, a: seq<string>, s: set<string>)
    requires Orders(less, s) && Lists(a, s) && IsSorted(less, a) && a != []
    ensures Lists(a[1..], s - {a[0]})
  {
    forall id ensures id in a[1..] <==> id in s - {a[0]} {
      if id in a[1..] {
        var i :| 0 <= i < |a[1..]| && a[1..][i] == id;
        assert less(a[0], a[i + 1]);
      }
    }
  }

  /** Where `x` belongs in a sorted list. */
  lemma InsertSorted(less: Less, r: seq<string>, p: nat, x: string, s: set<string>)
    requires Orders(less, s) && x in s && Lists(r, s - {x}) && IsSorted(less, r) && p <= |r|
    requires forall i :: 0 <= i < p ==> less(r[i], x)
    requires p < |r| ==> !less(r[p], x)
    ensures IsSorted(less, r[..p] + [x] + r[p..]) && Lists(r[..p] + [x] + r[p..], s)
  {
    forall i | p <= i < |r| ensures less(x, r[i]) {
      assert r[p] in r && r[i] in r;
      assert less(x, r[p]);
    }
    InsertedInOrder(less, r, p, x);
    InsertedMembers(r, p, x);
    forall id ensures id in r[..p] + [x] + r[p..] <==> id in s {
      assert id in r <==> id in s - {x};
    }
  }

  lemma InsertedInOrder(less: Less, r: seq<string>, p: nat, x: string)
    requires IsSorted(less, r) && p <= |r|
    requires forall i :: 0 <= i < p ==> less(r[i], x)
    requires forall i :: p <= i < |r| ==> less(x, r[i])
    ensures IsSorted(less, r[..p] + [x] + r[p..])
  {
    var t := r[..p] + [x] + r[p..];
    forall i, j | 0 <= i < j < |t| ensures less(t[i], t[j]) {
      assert t[i] == if i < p then r[i] else if i == p then x else r[i - 1];
      assert t[j] == if j < p then r[j] else if j == p then x else r[j - 1];
    }
  }

  lemma InsertedMembers(r: seq<string>, p: nat, x: string)
    requires p <= |r|
    ensures forall id :: id in r[..p] + [x] + r[p..] <==> id in r || id == x
  {
    assert r == r[..p] + r[p..];
  }

  /** Sorts distinct identifiers by insertion. */
  method SortFolderIDs(less: Less, ids: seq<string>) returns (r: seq<string>)
    requires Orders(less, SetOf(ids))
    requires forall i, j :: 0 <= i < j < |ids| ==> ids[i] != ids[j]
    ensures IsSorted(less, r) && Lists(r, SetOf(ids))
  {
    r := [];
    for n := 0 to |ids|
      invariant IsSorted(less, r) && Lists(r, SetOf(ids[..n]))
    {
      var p := 0;
      while p < |r| && less(r[p], ids[n])
        invariant p <= |r|
        invariant forall i :: 0 <= i < p ==> less(r[i], ids[n])
      {
        p := p + 1;
      }
      assert ids[..n + 1] == ids[..n] + [ids[n]];
      assert SetOf(ids[..n + 1]) - {ids[n]} == SetOf(ids[..n]);
      InsertSorted(less, r, p, ids[n], SetOf(ids[..n + 1]));
      r := r[..p] + [ids[n]] + r[p..];
    }
    assert ids[..|ids|] == ids;
  }

  lemma {:induction false} SortingExists(less: Less, s: set<string>) returns (r: seq<string>)
    requires Orders(less, s)
    ensures IsSorted(less, r) && Lists(r, s)
    decreases |s|
  {
    if s == {} {
      r := [];
    } else {
      var x :| x in s;
      r := SortingExists(less, s - {x});
      var p := 0;
      while p < |r| && less(r[p], x)
        invariant p <= |r|
        invariant forall i :: 0 <= i < p ==> less(r[i], x)
      {
        p := p + 1;
      }
      InsertSorted(less, r, p, x, s);
      r := r[..p] + [x] + r[p..];
    }
  }
}

/** What the folder tree is, as a function of the stored folders. */
module FolderForest {
  import opened FolderOrder

  datatype Tree = Node(row: Row, children: seq<Tree>)

  /** The stored folders by identifier, and the order in which siblings are shown. */
  datatype Index = Index(nodes: map<string, Row>, less: Less)

  ghost predicate IsIndex(ix: Index) {
    && "" !in ix.nodes
    && (forall id :: id in ix.nodes ==> ix.nodes[id].id == id)
    && Orders(ix.less, ix.nodes.Keys)
  }

  /** Without a parent, its own parent, or under a parent that does not exist. */
  predicate IsRoot(nodes: map<string, Row>, id: string)
    requires id in nodes
  {
    nodes[id].parentId == "" || nodes[id].parentId == id || nodes[id].parentId !in nodes
  }

  function Roots(nodes: map<string, Row>): set<string> {
    set id | id in nodes && IsRoot(nodes, id)
  }

  function ChildSet(nodes: map<string, Row>, parent: string): set<string> {
    set id | id in nodes && !IsRoot(nodes, id) && nodes[id].parentId == parent
  }

  /** The one sorted listing of a set of folders. */
  ghost function Listing(ix: Index, ids: set<string>): (r: seq<string>)
    requires IsIndex(ix) && ids <= ix.nodes.Keys
    ensures IsSorted(ix.less, r) && Lists(r, ids)
  {
    ListingExists(ix, ids);
    var r :| IsSorted(ix.less, r) && Lists(r, ids);
    r
  }

  lemma ListingExists(ix: Index, ids: set<string>)
    requires IsIndex(ix) && ids <= ix.nodes.Keys
    ensures exists r :: IsSorted(ix.less, r) && Lists(r, ids)
  {
    var r := SortingExists(ix.less, ids);
  }

  /** The listed folders that are not on the path. */
  ghost function Outside(ids: seq<string>, path: set<string>): (r: seq<string>)
    ensures forall id :: id in r <==> id in ids && id !in path
  {
    if ids == [] then []
    else
      var rest := Outside(ids[..|ids| - 1], path);
      assert ids == ids[..|ids| - 1] + [ids[|ids| - 1]];
      if ids[|ids| - 1] in path then rest else rest + [ids[|ids| - 1]]
  }

  lemma {:induction false} OutsideSorted(less: Less, ids: seq<string>, path: set<string>)
    requires IsSorted(less, ids)
    ensures IsSorted(less, Outside(ids, path))
    decreases |ids|
  {
    if ids == [] {
    } else {
      OutsideSorted(less, ids[..|ids| - 1], path);
      var rest := Outside(ids[..|ids| - 1], path);
      forall i | 0 <= i < |rest| ensures less(rest[i], ids[|ids| - 1]) {
        assert rest[i] in ids[..|ids| - 1];
      }
    }
  }

  lemma {:induction false} OutsideNothing(ids: seq<string>, path: set<string>)
    requires forall id :: id in ids ==> id !in path
    ensures Outside(ids, path) == ids
    decreases |ids|
  {
    if ids == [] {
    } else {
      OutsideNothing(ids[..|ids| - 1], path);
    }
  }

  ghost function ChildIds(ix: Index, id: string, path: set<string>): (r: seq<string>)
    requires IsIndex(ix)
    ensures forall c :: c in r <==> c in ChildSet(ix.nodes, id) && c !in path
  {
    Outside(Listing(ix, ChildSet(ix.nodes, id)), path)
  }

  /** The branch below a folder, without the folders that are already on the path to it. */
  ghost function TreeOf(ix: Index, id: string, path: set<string>): Tree
    requires IsIndex(ix) && id in ix.nodes && id !in path
    decreases ix.nodes.Keys - path, 0
  {
    Node(ix.nodes[id], TreesOf(ix, ChildIds(ix, id, path + {id}), path + {id}))
  }

  ghost function TreesOf(ix: Index, ids: seq<string>, path: set<string>): seq<Tree>
    requires IsIndex(ix) && forall id :: id in ids ==> id in ix.nodes && id !in path
    decreases ix.nodes.Keys - path, |ids| + 1
  {
    if ids == [] then []
    else TreesOf(ix, ids[..|ids| - 1], path) + [TreeOf(ix, ids[|ids| - 1], path)]
  }

  /** The identifiers of a tree, each as often as it occurs. */
  function Ids(t: Tree): seq<string> {
    [t.row.id] + AllIds(t.children)
  }

  function AllIds(trees: seq<Tree>): seq<string> {
    if trees == [] then [] else AllIds(trees[..|trees| - 1]) + Ids(trees[|trees| - 1])
  }

  /** The trees of the listed roots, except those that an earlier tree already contains. */
  ghost function Emit(ix: Index, ids: seq<string>): seq<Tree>
    requires IsIndex(ix) && forall id :: id in ids ==> id in ix.nodes
  {
    if ids == [] then []
    else
      var trees := Emit(ix, ids[..|ids| - 1]);
      var last := ids[|ids| - 1];
      if last in AllIds(trees) then trees else trees + [TreeOf(ix, last, {})]
  }

  /** Where the tree starts: at the roots, or at every folder when there is no root at all. */
  function Tops(nodes: map<string, Row>): set<string> {
    if Roots(nodes) == {} then nodes.Keys else Roots(nodes)
  }

  /** The whole result. */
  ghost function ForestOf(ix: Index): seq<Tree>
    requires IsIndex(ix)
  {
    Emit(ix, Listing(ix, Tops(ix.nodes)))
  }

  // ----- the shape of the tree, for any parent links -----

  ghost predicate SiblingsSorted(less: Less, trees: seq<Tree>) {
    forall i, j :: 0 <= i < j < |trees| ==> less(trees[i].row.id, trees[j].row.id)
  }

  /** Rows are the stored ones, children sit under their stored parent, siblings are in display order. */
  ghost predicate WellPlaced(ix: Index, t: Tree) {
    && t.row.id in ix.nodes && t.row == ix.nodes[t.row.id]
    && SiblingsSorted(ix.less, t.children)
    && (forall c :: c in t.children ==> c.row.parentId == t.row.id && WellPlaced(ix, c))
  }

  /** No identifier occurs twice on the way from the root of the tree to any of its leaves. */
  ghost predicate NoRepeats(t: Tree, path: set<string>) {
    && t.row.id !in path
    && (forall c :: c in t.children ==> NoRepeats(c, path + {t.row.id}))
  }

  lemma {:induction false} TreesAt(ix: Index, ids: seq<string>, path: set<string>)
    requires IsIndex(ix) && forall id :: id in ids ==> id in ix.nodes && id !in path
    ensures |TreesOf(ix, ids, path)| == |ids|
    ensures forall i :: 0 <= i < |ids| ==> TreesOf(ix, ids, path)[i] == TreeOf(ix, ids[i], path)
    decreases |ids|
  {
    if ids == [] {
    } else {
      TreesAt(ix, ids[..|ids| - 1], path);
    }
  }

  lemma {:induction false} TreeShape(ix: Index, id: string, path: set<string>)
    requires IsIndex(ix) && id in ix.nodes && id !in path
    ensures WellPlaced(ix, TreeOf(ix, id, path)) && NoRepeats(TreeOf(ix, id, path), path)
    decreases ix.nodes.Keys - path
  {
    var ids := ChildIds(ix, id, path + {id});
    var t := TreeOf(ix, id, path);
    TreesAt(ix, ids, path + {id});
    ChildrenSorted(ix, id, path);
    forall c | c in t.children
      ensures c.row.parentId == id && WellPlaced(ix, c) && NoRepeats(c, path + {id})
    {
      var i :| 0 <= i < |t.children| && t.children[i] == c;
      assert ids[i] in ids;
      TreeShape(ix, ids[i], path + {id});
    }
  }

  lemma ChildrenSorted(ix: Index, id: string, path: set<string>)
    requires IsIndex(ix) && id in ix.nodes && id !in path
    ensures SiblingsSorted(ix.less, TreeOf(ix, id, path).children)
  {
    var ids := ChildIds(ix, id, path + {id});
    TreesAt(ix, ids, path + {id});
    OutsideSorted(ix.less, Listing(ix, ChildSet(ix.nodes, id)), path + {id});
  }

  lemma {:induction false} EmitShape(ix: Index, ids: seq<string>)
    requires IsIndex(ix) && forall id :: id in ids ==> id in ix.nodes
    ensures forall t :: t in Emit(ix, ids) ==> t.row.id in ids && WellPlaced(ix, t) && NoRepeats(t, {})
    decreases |ids|
  {
    if ids == [] {
    } else {
      EmitShape(ix, ids[..|ids| - 1]);
      TreeShape(ix, ids[|ids| - 1], {});
      assert ids == ids[..|ids| - 1] + [ids[|ids| - 1]];
    }
  }

  lemma {:induction false} EmitSorted(ix: Index, ids: seq<string>)
    requires IsIndex(ix) && IsSorted(ix.less, ids) && forall id :: id in ids ==> id in ix.nodes
    ensures SiblingsSorted(ix.less, Emit(ix, ids))
    decreases |ids|
  {
    if ids == [] {
    } else {
      var front := ids[..|ids| - 1];
      EmitSorted(ix, front);
      forall t | t in Emit(ix, front) ensures ix.less(t.row.id, ids[|ids| - 1]) {
        EmittedBefore(ix, ids, t);
      }
    }
  }

  lemma EmittedBefore(ix: Index, ids: seq<string>, t: Tree)
    requires IsIndex(ix) && IsSorted(ix.less, ids) && ids != [] && forall id :: id in ids ==> id in ix.nodes
    requires t in Emit(ix, ids[..|ids| - 1])
    ensures ix.less(t.row.id, ids[|ids| - 1])
  {
    var front := ids[..|ids| - 1];
    EmitShape(ix, front);
    var j :| 0 <= j < |front| && front[j] == t.row.id;
    assert front[j] == ids[j];
  }
}

/** Which folders the tree contains, and how often. */
module FolderCoverage {
  import opened FolderOrder
  import opened FolderChains
  import opened FolderForest

  /** The parent links that the tree builder follows. */
  function Links(nodes: map<string, Row>): Parents
    requires "" !in nodes
  {
    map id | id in nodes :: if IsRoot(nodes, id) then "" else nodes[id].parentId
  }

  ghost predicate NoDup(s: seq<string>) {
    forall i, j :: 0 <= i < j < |s| ==> s[i] != s[j]
  }

  lemma ChildIsLinked(nodes: map<string, Row>, c: string, x: string)
    requires "" !in nodes && x in nodes
    ensures c in ChildSet(nodes, x) <==> c in nodes && Links(nodes)[c] == x
    ensures c in ChildSet(nodes, x) ==> LinksExist(Links(nodes), c, 1) && Up(Links(nodes), c, 1) == x
  {
    assert Up(Links(nodes), c, 0) == c;
  }

  /** A folder is below `x` if it is `x` or below a child of `x`. */
  lemma BelowByChild(nodes: map<string, Row>, x: string, y: string)
    requires "" !in nodes && x in nodes && y in nodes
    ensures IsBelow(Links(nodes), y, x) <==>
            y == x || exists c :: c in ChildSet(nodes, x) && IsBelow(Links(nodes), y, c)
  {
    var ps := Links(nodes);
    if y == x {
      assert LinksExist(ps, y, 0) && Up(ps, y, 0) == x;
    } else if IsBelow(ps, y, x) {
      var k: nat :| LinksExist(ps, y, k) && Up(ps, y, k) == x;
      var c := Up(ps, y, k - 1);
      ChildIsLinked(nodes, c, x);
      assert LinksExist(ps, y, k - 1);
      assert IsBelow(ps, y, c);
    } else if c :| c in ChildSet(nodes, x) && IsBelow(ps, y, c) {
      ChildIsLinked(nodes, c, x);
      assert IsBelow(ps, c, x);
      BelowTransitive(ps, y, c, x);
    }
  }

  /** The child of a rooted folder is rooted, and neither the folder itself nor above it. */
  lemma ChildIsNew(nodes: map<string, Row>, x: string, c: string, p: string)
    requires "" !in nodes && x in nodes && c in ChildSet(nodes, x)
    requires IsRooted(Links(nodes), x) && IsBelow(Links(nodes), x, p)
    ensures IsRooted(Links(nodes), c) && c != p && IsBelow(Links(nodes), c, p)
  {
    var ps := Links(nodes);
    ChildIsLinked(nodes, c, x);
    assert IsBelow(ps, c, x);
    BelowTransitive(ps, c, x, p);
    assert IsBelow(ps, x, "");
    BelowTransitive(ps, c, x, "");
    var k: nat :| LinksExist(ps, x, k) && Up(ps, x, k) == p;
    UpAdds(ps, c, 1, k);
    forall i: nat | i < 1 + k ensures Up(ps, c, i) in ps {
      if i > 0 { UpAdds(ps, c, 1, i - 1); }
    }
    RootedHasNoCycle(ps, c, 1 + k);
  }

  /** The branches of two children of a rooted folder have nothing in common. */
  lemma BranchesAreDisjoint(nodes: map<string, Row>, x: string, c: string, d: string, y: string)
    requires "" !in nodes && x in nodes && c in ChildSet(nodes, x) && d in ChildSet(nodes, x)
    requires IsRooted(Links(nodes), x)
    requires IsBelow(Links(nodes), y, c) && IsBelow(Links(nodes), y, d)
    ensures c == d
  {
    var ps := Links(nodes);
    var i: nat :| LinksExist(ps, y, i) && Up(ps, y, i) == c;
    var j: nat :| LinksExist(ps, y, j) && Up(ps, y, j) == d;
    if i < j {
      NotAbove(nodes, x, c, d, y, i, j);
    } else if j < i {
      NotAbove(nodes, x, d, c, y, j, i);
    }
  }

  lemma NotAbove(nodes: map<string, Row>, x: string, c: string, d: string, y: string, i: nat, j: nat)
    requires "" !in nodes && x in nodes && c in ChildSet(nodes, x) && d in ChildSet(nodes, x)
    requires IsRooted(Links(nodes), x) && i < j
    requires LinksExist(Links(nodes), y, j) && Up(Links(nodes), y, i) == c
    ensures Up(Links(nodes), y, j) != d
  {
    var ps := Links(nodes);
    if Up(ps, y, j) == d {
      ChildIsLinked(nodes, c, x);
      assert Up(ps, y, i + 1) == x;
      UpAdds(ps, y, i + 1, j - i - 1);
      forall k: nat | k < j - i - 1 ensures Up(ps, x, k) in ps {
        UpAdds(ps, y, i + 1, k);
      }
      assert IsBelow(ps, x, d);
      ChildIsNew(nodes, x, d, d);
    }
  }

  lemma NoDupConcat(a: seq<string>, b: seq<string>)
    requires NoDup(a) && NoDup(b) && forall y :: y in a ==> y !in b
    ensures NoDup(a + b)
  {
    forall i, j | 0 <= i < j < |a + b| ensures (a + b)[i] != (a + b)[j] {
      if i < |a| <= j { assert a[i] in a && b[j - |a|] in b; }
    }
  }

  lemma {:induction false} AllIdsMembers(trees: seq<Tree>, y: string)
    ensures y in AllIds(trees) <==> exists i :: 0 <= i < |trees| && y in Ids(trees[i])
    decreases |trees|
  {
    if trees == [] {
    } else {
      AllIdsMembers(trees[..|trees| - 1], y);
    }
  }

  lemma {:induction false} AllIdsNoDup(trees: seq<Tree>)
    requires forall i :: 0 <= i < |trees| ==> NoDup(Ids(trees[i]))
    requires forall i, j, y :: 0 <= i < j < |trees| && y in Ids(trees[i]) ==> y !in Ids(trees[j])
    ensures NoDup(AllIds(trees))
    decreases |trees|
  {
    if trees == [] {
    } else {
      var front := trees[..|trees| - 1];
      AllIdsNoDup(front);
      forall y | y in AllIds(front) ensures y !in Ids(trees[|trees| - 1]) {
        AllIdsMembers(front, y);
      }
      NoDupConcat(AllIds(front), Ids(trees[|trees| - 1]));
    }
  }

  ghost predicate InBranch(ix: Index, y: string, x: string)
    requires IsIndex(ix)
  {
    y in ix.nodes && IsBelow(Links(ix.nodes), y, x)
  }

  /** The tree holds the folders below `x`, and each of them once. */
  ghost predicate Covers(ix: Index, t: Tree, x: string)
    requires IsIndex(ix)
  {
    NoDup(Ids(t)) && forall y :: y in Ids(t) <==> InBranch(ix, y, x)
  }

  ghost predicate Rooted(ix: Index, x: string)
    requires IsIndex(ix)
  {
    x in ix.nodes && IsRooted(Links(ix.nodes), x)
  }

  lemma BranchMembers(ix: Index, x: string, ids: seq<string>, trees: seq<Tree>, y: string)
    requires IsIndex(ix) && Rooted(ix, x) && Lists(ids, ChildSet(ix.nodes, x)) && |trees| == |ids|
    requires forall i :: 0 <= i < |ids| ==> Covers(ix, trees[i], ids[i])
    ensures y == x || y in AllIds(trees) <==> InBranch(ix, y, x)
  {
    AllIdsMembers(trees, y);
    if y in ix.nodes {
      BelowByChild(ix.nodes, x, y);
      if c :| c in ChildSet(ix.nodes, x) && IsBelow(Links(ix.nodes), y, c) {
        var i :| 0 <= i < |ids| && ids[i] == c;
        assert InBranch(ix, y, c);
        assert Covers(ix, trees[i], ids[i]);
        assert y in Ids(trees[i]);
      }
    }
    if i :| 0 <= i < |trees| && y in Ids(trees[i]) {
      assert Covers(ix, trees[i], ids[i]) && ids[i] in ids;
      assert InBranch(ix, y, ids[i]);
    }
  }

  lemma BranchNoDup(ix: Index, x: string, ids: seq<string>, trees: seq<Tree>)
    requires IsIndex(ix) && Rooted(ix, x) && Lists(ids, ChildSet(ix.nodes, x)) && |trees| == |ids|
    requires IsSorted(ix.less, ids)
    requires forall i :: 0 <= i < |ids| ==> Covers(ix, trees[i], ids[i])
    ensures NoDup([x] + AllIds(trees))
  {
    forall i, j, y | 0 <= i < j < |trees| && y in Ids(trees[i]) ensures y !in Ids(trees[j]) {
      assert Covers(ix, trees[i], ids[i]) && Covers(ix, trees[j], ids[j]);
      assert ids[i] in ids && ids[j] in ids && ix.less(ids[i], ids[j]);
      if y in Ids(trees[j]) {
        assert InBranch(ix, y, ids[i]) && InBranch(ix, y, ids[j]);
        BranchesAreDisjoint(ix.nodes, x, ids[i], ids[j], y);
      }
    }
    AllIdsNoDup(trees);
    AllIdsMembers(trees, x);
    if i :| 0 <= i < |trees| && x in Ids(trees[i]) {
      assert Covers(ix, trees[i], ids[i]) && ids[i] in ids;
      assert InBranch(ix, x, ids[i]);
      ChildIsNew(ix.nodes, x, ids[i], ids[i]);
    }
    NoDupConcat([x], AllIds(trees));
  }

  /** A rooted folder is never cut off by the path to it. */
  lemma ChildrenAreNew(ix: Index, x: string, path: set<string>)
    requires IsIndex(ix) && Rooted(ix, x)
    requires forall p :: p in path ==> IsBelow(Links(ix.nodes), x, p)
    ensures Lists(ChildIds(ix, x, path + {x}), ChildSet(ix.nodes, x))
    ensures IsSorted(ix.less, ChildIds(ix, x, path + {x}))
    ensures forall c :: c in ChildSet(ix.nodes, x) ==> Rooted(ix, c)
    ensures forall c, p :: c in ChildSet(ix.nodes, x) && p in path + {x} ==> IsBelow(Links(ix.nodes), c, p)
  {
    ChildrenAreRooted(ix, x, path);
    OutsideNothing(Listing(ix, ChildSet(ix.nodes, x)), path + {x});
  }

  lemma ChildrenAreRooted(ix: Index, x: string, path: set<string>)
    requires IsIndex(ix) && Rooted(ix, x)
    requires forall p :: p in path ==> IsBelow(Links(ix.nodes), x, p)
    ensures forall c :: c in ChildSet(ix.nodes, x) ==> Rooted(ix, c) && c !in path + {x}
    ensures forall c, p :: c in ChildSet(ix.nodes, x) && p in path + {x} ==> IsBelow(Links(ix.nodes), c, p)
  {
    forall c, p | c in ChildSet(ix.nodes, x) && p in path + {x}
      ensures Rooted(ix, c) && c != p && IsBelow(Links(ix.nodes), c, p)
    {
      ChildOfRooted(ix, x, path, c, p);
    }
    assert x in path + {x};
  }

  lemma ChildOfRooted(ix: Index, x: string, path: set<string>, c: string, p: string)
    requires IsIndex(ix) && Rooted(ix, x) && c in ChildSet(ix.nodes, x) && p in path + {x}
    requires p in path ==> IsBelow(Links(ix.nodes), x, p)
    ensures Rooted(ix, c) && c != p && IsBelow(Links(ix.nodes), c, p)
  {
    var ps := Links(ix.nodes);
    assert LinksExist(ps, x, 0) && Up(ps, x, 0) == x;
    ChildIsNew(ix.nodes, x, c, p);
  }

  /** The tree of a rooted folder holds exactly the folders below it, each once. */
  lemma {:induction false} BranchCoverage(ix: Index, x: string, path: set<string>)
    requires IsIndex(ix) && x !in path && Rooted(ix, x)
    requires forall p :: p in path ==> IsBelow(Links(ix.nodes), x, p)
    ensures Covers(ix, TreeOf(ix, x, path), x)
    decreases ix.nodes.Keys - path
  {
    var deeper := path + {x};
    var ids := ChildIds(ix, x, deeper);
    var trees := TreesOf(ix, ids, deeper);
    TreesAt(ix, ids, deeper);
    ChildrenAreNew(ix, x, path);
    forall i | 0 <= i < |ids| ensures Covers(ix, trees[i], ids[i]) {
      assert ids[i] in ids;
      BranchCoverage(ix, ids[i], deeper);
    }
    BranchNoDup(ix, x, ids, trees);
    forall y ensures y in Ids(TreeOf(ix, x, path)) <==> InBranch(ix, y, x) {
      BranchMembers(ix, x, ids, trees, y);
    }
    assert Ids(TreeOf(ix, x, path)) == [x] + AllIds(trees);
  }

  // ----- the whole forest -----

  /** Every rooted folder is below exactly one root. */
  lemma RootAbove(nodes: map<string, Row>, y: string) returns (root: string)
    requires "" !in nodes && y in nodes && IsRooted(Links(nodes), y)
    ensures root in Roots(nodes) && IsBelow(Links(nodes), y, root)
  {
    var ps := Links(nodes);
    var k: nat :| LinksExist(ps, y, k) && Up(ps, y, k) == "";
    assert Up(ps, y, 0) == y;
    root := Up(ps, y, k - 1);
    assert LinksExist(ps, y, k - 1);
  }

  lemma RootIsOnTop(nodes: map<string, Row>, y: string, a: string, b: string)
    requires "" !in nodes && y in nodes && a in Roots(nodes) && b in Roots(nodes)
    requires IsBelow(Links(nodes), y, a) && IsBelow(Links(nodes), y, b)
    ensures a == b && IsRooted(Links(nodes), y)
  {
    var ps := Links(nodes);
    var i: nat :| LinksExist(ps, y, i) && Up(ps, y, i) == a;
    var j: nat :| LinksExist(ps, y, j) && Up(ps, y, j) == b;
    assert Up(ps, y, i + 1) == "" && Up(ps, y, j + 1) == "";
    assert LinksExist(ps, y, i + 1);
    EndsThere(ps, y, i + 1, j);
    EndsThere(ps, y, j + 1, i);
  }

  lemma EndsThere(ps: Parents, y: string, k: nat, j: nat)
    requires Up(ps, y, k) == "" && LinksExist(ps, y, j) && Up(ps, y, j) != ""
    ensures j < k
  {
    assert k < j ==> Up(ps, y, k) in ps;
  }

  ghost predicate InSomeBranch(ix: Index, y: string, ids: seq<string>)
    requires IsIndex(ix)
  {
    exists i :: 0 <= i < |ids| && InBranch(ix, y, ids[i])
  }

  lemma AllIdsGrow(trees: seq<Tree>, t: Tree)
    ensures AllIds(trees + [t]) == AllIds(trees) + Ids(t)
    ensures t.row.id in AllIds(trees + [t])
  {
    assert (trees + [t])[..|trees|] == trees;
  }

  /** The trees hold exactly the branches of the listed roots, each folder once. */
  ghost predicate CoversAll(ix: Index, ids: seq<string>, trees: seq<Tree>)
    requires IsIndex(ix)
  {
    NoDup(AllIds(trees)) && forall y :: y in AllIds(trees) <==> InSomeBranch(ix, y, ids)
  }

  ghost predicate AreRoots(ix: Index, ids: seq<string>) {
    forall id :: id in ids ==> id in ix.nodes && id in Roots(ix.nodes)
  }

  /** The branch of another root has nothing in common with those before. */
  lemma NewRootIsNew(ix: Index, ids: seq<string>, y: string)
    requires IsIndex(ix) && IsSorted(ix.less, ids) && ids != [] && AreRoots(ix, ids)
    requires InSomeBranch(ix, y, ids[..|ids| - 1])
    ensures !InBranch(ix, y, ids[|ids| - 1])
  {
    var n := |ids| - 1;
    var i :| 0 <= i < n && InBranch(ix, y, ids[..n][i]);
    assert ids[..n][i] == ids[i] && ids[i] in ids && ids[n] in ids && ix.less(ids[i], ids[n]);
    if InBranch(ix, y, ids[n]) { RootIsOnTop(ix.nodes, y, ids[i], ids[n]); }
  }

  lemma OneMoreRoot(ix: Index, ids: seq<string>, trees: seq<Tree>, t: Tree)
    requires IsIndex(ix) && IsSorted(ix.less, ids) && ids != [] && AreRoots(ix, ids)
    requires CoversAll(ix, ids[..|ids| - 1], trees) && Covers(ix, t, ids[|ids| - 1])
    ensures CoversAll(ix, ids, trees + [t])
  {
    forall y | y in AllIds(trees) ensures y !in Ids(t) { NewRootIsNew(ix, ids, y); }
    NoDupConcat(AllIds(trees), Ids(t));
    AllIdsGrow(trees, t);
    forall y ensures y in AllIds(trees + [t]) <==> InSomeBranch(ix, y, ids) {
      InSomeBranchSplits(ix, y, ids);
    }
  }

  lemma {:induction false} EmitCoverage(ix: Index, ids: seq<string>)
    requires IsIndex(ix) && IsSorted(ix.less, ids) && AreRoots(ix, ids)
    ensures CoversAll(ix, ids, Emit(ix, ids))
    decreases |ids|
  {
    if ids == [] {
    } else {
      var front, last := ids[..|ids| - 1], ids[|ids| - 1];
      EmitCoverage(ix, front);
      RootIsItsOwn(ix, last);
      if InSomeBranch(ix, last, front) { NewRootIsNew(ix, ids, last); }
      BranchCoverage(ix, last, {});
      OneMoreRoot(ix, ids, Emit(ix, front), TreeOf(ix, last, {}));
    }
  }

  lemma InSomeBranchSplits(ix: Index, y: string, ids: seq<string>)
    requires IsIndex(ix) && ids != []
    ensures InSomeBranch(ix, y, ids) <==> InSomeBranch(ix, y, ids[..|ids| - 1]) || InBranch(ix, y, ids[|ids| - 1])
  {
    if i :| 0 <= i < |ids| && InBranch(ix, y, ids[i]) {
      if i < |ids| - 1 { assert ids[..|ids| - 1][i] == ids[i]; }
    }
  }

  lemma RootIsItsOwn(ix: Index, x: string)
    requires IsIndex(ix) && x in Roots(ix.nodes)
    ensures Rooted(ix, x) && InBranch(ix, x, x)
  {
    var ps := Links(ix.nodes);
    assert Up(ps, x, 0) == x;
    assert LinksExist(ps, x, 1) && Up(ps, x, 1) == "";
    assert LinksExist(ps, x, 0);
  }

  /** When there is a root, the tree holds each folder whose parent links end at a root once, and no other folder. */
  lemma ForestCoverage(ix: Index)
    requires IsIndex(ix) && Roots(ix.nodes) != {}
    ensures NoDup(AllIds(ForestOf(ix)))
    ensures forall y :: y in AllIds(ForestOf(ix)) <==> Rooted(ix, y)
  {
    var ids := Listing(ix, Tops(ix.nodes));
    EmitCoverage(ix, ids);
    forall y ensures InSomeBranch(ix, y, ids) <==> Rooted(ix, y) {
      if i :| 0 <= i < |ids| && InBranch(ix, y, ids[i]) {
        assert ids[i] in ids;
        RootIsOnTop(ix.nodes, y, ids[i], ids[i]);
      }
      if Rooted(ix, y) {
        var root := RootAbove(ix.nodes, y);
        var i :| 0 <= i < |ids| && ids[i] == root;
        assert InBranch(ix, y, ids[i]);
      }
    }
  }

  lemma {:induction false} PlacedIsStored(ix: Index, t: Tree, y: string)
    requires WellPlaced(ix, t) && y in Ids(t)
    ensures y in ix.nodes
    decreases t
  {
    if y != t.row.id {
      AllIdsMembers(t.children, y);
      var i :| 0 <= i < |t.children| && y in Ids(t.children[i]);
      PlacedIsStored(ix, t.children[i], y);
    }
  }

  lemma {:induction false} EmitReaches(ix: Index, ids: seq<string>)
    requires IsIndex(ix) && forall id :: id in ids ==> id in ix.nodes
    ensures forall id :: id in ids ==> id in AllIds(Emit(ix, ids))
    decreases |ids|
  {
    if ids == [] {
    } else {
      var front, last := ids[..|ids| - 1], ids[|ids| - 1];
      EmitReaches(ix, front);
      assert ids == front + [last];
      AllIdsGrow(Emit(ix, front), TreeOf(ix, last, {}));
    }
  }

  /** When there is no root at all, every folder appears nevertheless. */
  lemma RootlessCoverage(ix: Index)
    requires IsIndex(ix) && Roots(ix.nodes) == {}
    ensures forall y :: y in AllIds(ForestOf(ix)) <==> y in ix.nodes
    ensures forall y :: !Rooted(ix, y)
  {
    var ids := Listing(ix, Tops(ix.nodes));
    EmitReaches(ix, ids);
    EmitShape(ix, ids);
    forall y | y in AllIds(ForestOf(ix)) ensures y in ix.nodes {
      AllIdsMembers(ForestOf(ix), y);
      var i :| 0 <= i < |ForestOf(ix)| && y in Ids(ForestOf(ix)[i]);
      assert ForestOf(ix)[i] in ForestOf(ix);
      PlacedIsStored(ix, ForestOf(ix)[i], y);
    }
    forall y ensures !Rooted(ix, y) {
      if Rooted(ix, y) { var root := RootAbove(ix.nodes, y); }
    }
  }

  /** No folder is lost if and only if every folder is rooted or none is a root. */
  lemma NothingIsLostExactly(ix: Index)
    requires IsIndex(ix)
    ensures (forall y :: y in ix.nodes ==> y in AllIds(ForestOf(ix))) <==>
            Roots(ix.nodes) == {} || forall y :: y in ix.nodes ==> Rooted(ix, y)
  {
    if Roots(ix.nodes) == {} { RootlessCoverage(ix); } else { ForestCoverage(ix); }
  }

  /** The stored parents of the indexed folders. */
  function StoredParents(nodes: map<string, Row>): Parents
    requires "" !in nodes
  {
    map id | id in nodes :: nodes[id].parentId
  }

  /** In a hierarchy without cycles and dangling parents, the roots are the folders without a parent. */
  lemma ForestLinks(nodes: map<string, Row>)
    requires "" !in nodes && IsForest(StoredParents(nodes))
    ensures Links(nodes) == StoredParents(nodes)
  {
    var ps := StoredParents(nodes);
    forall id | id in nodes ensures IsRoot(nodes, id) <==> nodes[id].parentId == "" {
      assert IsRooted(ps, id);
      var k: nat :| LinksExist(ps, id, k) && Up(ps, id, k) == "";
      assert Up(ps, id, 0) == id && Up(ps, id, 1) == nodes[id].parentId;
      if nodes[id].parentId == id { RootedHasNoCycle(ps, id, 1); }
    }
  }

  /** What the folder service stores is shown completely: each folder once, and no other. */
  lemma ForestIsShownCompletely(ix: Index)
    requires IsIndex(ix) && IsForest(StoredParents(ix.nodes))
    ensures NoDup(AllIds(ForestOf(ix)))
    ensures forall y :: y in AllIds(ForestOf(ix)) <==> y in ix.nodes
  {
    ForestLinks(ix.nodes);
    if y :| y in ix.nodes {
      var root := RootAbove(ix.nodes, y);
      ForestCoverage(ix);
    } else {
      RootlessCoverage(ix);
      EmitCoverage(ix, Listing(ix, Tops(ix.nodes)));
    }
  }

  /** The forest as a whole: stored rows under their stored parents, in display order, no repetition on any path. */
  lemma ForestShape(ix: Index)
    requires IsIndex(ix)
    ensures SiblingsSorted(ix.less, ForestOf(ix))
    ensures forall t :: t in ForestOf(ix) ==> t.row.id in Tops(ix.nodes) && WellPlaced(ix, t) && NoRepeats(t, {})
  {
    var ids := Listing(ix, Tops(ix.nodes));
    EmitShape(ix, ids);
    EmitSorted(ix, ids);
  }
}

/** What the tree shows, told from the listed rows themselves. */
module FolderRows {
  import opened Text
  import opened FolderOrder
  import opened FolderChains
  import opened FolderForest
  import opened FolderCoverage

  function Cleaned(row: Row): Row {
    row.(id := TrimSpace(row.id), parentId := TrimSpace(row.parentId))
  }

  function CleanedRows(rows: seq<Row>): seq<Row> {
    seq(|rows|, i requires 0 <= i < |rows| => Cleaned(rows[i]))
  }

  /** Rows by identifier; blank identifiers are skipped, a later row replaces an earlier one. */
  function ById(rows: seq<Row>): (nodes: map<string, Row>)
    ensures "" !in nodes && forall id :: id in nodes ==> nodes[id].id == id
  {
    if rows == [] then map[]
    else
      var row := rows[|rows| - 1];
      if row.id == "" then ById(rows[..|rows| - 1]) else ById(rows[..|rows| - 1])[row.id := row]
  }

  function IndexRows(rows: seq<Row>): map<string, Row> {
    ById(CleanedRows(rows))
  }

  function IndexOf(nodes: map<string, Row>): Index {
    Index(nodes, LessOf(nodes))
  }

  lemma IndexOfRows(rows: seq<Row>)
    ensures IsIndex(IndexOf(IndexRows(rows)))
  {
    LessOfOrders(IndexRows(rows));
  }

  /** No two different rows share an identifier. */
  ghost predicate Unambiguous(rows: seq<Row>) {
    forall r, s :: r in rows && s in rows && r.id == s.id ==> r == s
  }

  lemma {:induction false} IndexedRows(rows: seq<Row>, id: string)
    requires Unambiguous(rows)
    ensures id in ById(rows) <==> id != "" && exists r :: r in rows && r.id == id
    ensures id in ById(rows) ==> ById(rows)[id] in rows
    decreases |rows|
  {
    if rows == [] {
    } else {
      var front, last := rows[..|rows| - 1], rows[|rows| - 1];
      assert rows == front + [last];
      IndexedRows(front, id);
    }
  }

  /** The order in which the rows are listed does not matter. */
  lemma OrderDoesNotMatter(a: seq<Row>, b: seq<Row>)
    requires Unambiguous(CleanedRows(a)) && forall r :: r in CleanedRows(a) <==> r in CleanedRows(b)
    ensures IndexRows(a) == IndexRows(b)
  {
    SameRowsSameIndex(CleanedRows(a), CleanedRows(b));
  }

  lemma SameRowsSameIndex(a: seq<Row>, b: seq<Row>)
    requires Unambiguous(a) && forall r :: r in a <==> r in b
    ensures ById(a) == ById(b)
  {
    forall id ensures id in ById(a) <==> id in ById(b) {
      IndexedRows(a, id);
      IndexedRows(b, id);
    }
    forall id | id in ById(a) ensures ById(a)[id] == ById(b)[id] {
      IndexedRows(a, id);
      IndexedRows(b, id);
    }
  }

  // ----- the rows -----

  /** Row `i` says what the tree shows of the folder `x`: it is the last one with this identifier. */
  ghost predicate Describes(rows: seq<Row>, i: int, x: string) {
    && 0 <= i < |rows| && x != "" && TrimSpace(rows[i].id) == x
    && forall j :: i < j < |rows| ==> TrimSpace(rows[j].id) != x
  }

  ghost predicate IsFolder(rows: seq<Row>, x: string) {
    exists i :: Describes(rows, i, x)
  }

  /** The row of `x` names `p` as its parent, and `p` is another folder. */
  ghost predicate IsUnder(rows: seq<Row>, x: string, p: string) {
    x != p && IsFolder(rows, p) && exists i :: Describes(rows, i, x) && TrimSpace(rows[i].parentId) == p
  }

  ghost predicate IsTop(rows: seq<Row>, x: string) {
    IsFolder(rows, x) && forall p :: !IsUnder(rows, x, p)
  }

  /** At most `n` parents above there is a folder that is under no other. */
  ghost predicate LeadsUp(rows: seq<Row>, x: string, n: nat)
    decreases n
  {
    IsTop(rows, x) || (n > 0 && exists p :: IsUnder(rows, x, p) && LeadsUp(rows, p, n - 1))
  }

  ghost predicate LeadsToTop(rows: seq<Row>, x: string) {
    exists n: nat :: LeadsUp(rows, x, n)
  }

  // ----- the tree -----

  ghost predicate InTrees(t: Tree, trees: seq<Tree>) {
    exists i :: 0 <= i < |trees| && (trees[i] == t || InTrees(t, trees[i].children))
  }

  ghost predicate InDisplayOrder(trees: seq<Tree>) {
    forall i, j :: 0 <= i < j < |trees| ==> ShownBefore(trees[i].row, trees[j].row)
  }

  /** A node shows its folder's row, and below it folders that are under it, in order. */
  ghost predicate ShowsRow(rows: seq<Row>, t: Tree) {
    && (exists i :: Describes(rows, i, t.row.id) && t.row.name == rows[i].name && t.row.slug == rows[i].slug
                    && t.row.parentId == TrimSpace(rows[i].parentId))
    && InDisplayOrder(t.children)
    && (forall c :: c in t.children ==> IsUnder(rows, c.row.id, t.row.id))
  }

  ghost predicate ShownUnder(trees: seq<Tree>, x: string, p: string) {
    exists t, c :: InTrees(t, trees) && t.row.id == p && c in t.children && c.row.id == x
  }

  /** The folders that lead to a top one are all shown, each once, in their places. */
  ghost predicate ShowsLeading(rows: seq<Row>, trees: seq<Tree>) {
    && NoDup(AllIds(trees))
    && (forall x :: x in AllIds(trees) <==> LeadsToTop(rows, x))
    && (forall x :: (exists t :: t in trees && t.row.id == x) <==> IsTop(rows, x))
    && (forall x, p :: LeadsToTop(rows, x) ==> (ShownUnder(trees, x, p) <==> IsUnder(rows, x, p)))
  }

  /** What the tree of the rows must be. */
  ghost predicate IsTreeOf(rows: seq<Row>, trees: seq<Tree>) {
    && (forall t :: InTrees(t, trees) ==> ShowsRow(rows, t))
    && InDisplayOrder(trees)
    && ((exists x :: IsTop(rows, x)) ==> ShowsLeading(rows, trees))
    && (!(exists x :: IsTop(rows, x)) ==> forall x :: x in AllIds(trees) <==> IsFolder(rows, x))
  }

  // ----- rows and index -----

  ghost predicate LastWith(cleaned: seq<Row>, i: int, x: string) {
    0 <= i < |cleaned| && cleaned[i].id == x && forall j :: i < j < |cleaned| ==> cleaned[j].id != x
  }

  lemma {:induction false} ByIdMeans(cleaned: seq<Row>, x: string)
    requires x != ""
    ensures x in ById(cleaned) <==> exists i :: LastWith(cleaned, i, x)
    ensures forall i :: LastWith(cleaned, i, x) ==> x in ById(cleaned) && ById(cleaned)[x] == cleaned[i]
    decreases |cleaned|
  {
    if cleaned == [] {
    } else {
      var n := |cleaned| - 1;
      ByIdMeans(cleaned[..n], x);
      if cleaned[n].id == x {
        assert LastWith(cleaned, n, x);
      } else {
        forall i ensures LastWith(cleaned, i, x) <==> LastWith(cleaned[..n], i, x) {
        }
      }
    }
  }

  lemma DescribedIsLast(rows: seq<Row>, i: int, x: string)
    requires x != ""
    ensures Describes(rows, i, x) <==> LastWith(CleanedRows(rows), i, x)
  {
    forall j | 0 <= j < |rows| ensures CleanedRows(rows)[j].id == TrimSpace(rows[j].id) {
    }
  }

  lemma IndexMeans(rows: seq<Row>, x: string)
    ensures x in IndexRows(rows) <==> IsFolder(rows, x)
    ensures forall i :: Describes(rows, i, x) ==>
              && x in IndexRows(rows)
              && IndexRows(rows)[x] == Row(x, rows[i].name, rows[i].slug, TrimSpace(rows[i].parentId))
  {
    if x != "" {
      ByIdMeans(CleanedRows(rows), x);
      forall i ensures Describes(rows, i, x) <==> LastWith(CleanedRows(rows), i, x) {
        DescribedIsLast(rows, i, x);
      }
    }
  }

  lemma UnderMeans(rows: seq<Row>, x: string, p: string)
    ensures var nodes := IndexRows(rows);
            IsUnder(rows, x, p) <==> x in nodes && !IsRoot(nodes, x) && nodes[x].parentId == p
  {
    IndexMeans(rows, x);
    IndexMeans(rows, p);
  }

  lemma TopMeans(rows: seq<Row>, x: string)
    ensures IsTop(rows, x) <==> x in Roots(IndexRows(rows))
  {
    var nodes := IndexRows(rows);
    IndexMeans(rows, x);
    forall p ensures IsUnder(rows, x, p) <==> x in nodes && !IsRoot(nodes, x) && nodes[x].parentId == p {
      UnderMeans(rows, x, p);
    }
    if x in nodes { assert IsUnder(rows, x, nodes[x].parentId) <==> !IsRoot(nodes, x); }
  }

  lemma LinkMeans(rows: seq<Row>, x: string, p: string)
    requires IsUnder(rows, x, p)
    ensures x in IndexRows(rows) && p in IndexRows(rows) && Links(IndexRows(rows))[x] == p
  {
    UnderMeans(rows, x, p);
    IndexMeans(rows, p);
  }

  lemma {:induction false} LeadingIsRooted(rows: seq<Row>, x: string, n: nat)
    requires LeadsUp(rows, x, n)
    ensures x in IndexRows(rows) && IsRooted(Links(IndexRows(rows)), x)
    decreases n
  {
    var ps := Links(IndexRows(rows));
    assert Up(ps, x, 0) == x;
    if IsTop(rows, x) {
      TopMeans(rows, x);
      assert LinksExist(ps, x, 1) && Up(ps, x, 1) == "";
    } else {
      var p :| IsUnder(rows, x, p) && LeadsUp(rows, p, n - 1);
      LeadingIsRooted(rows, p, n - 1);
      LinkMeans(rows, x, p);
      assert LinksExist(ps, x, 1) && Up(ps, x, 1) == p;
      assert IsBelow(ps, x, p) && IsBelow(ps, p, "");
      BelowTransitive(ps, x, p, "");
    }
  }

  lemma {:induction false} RootedIsLeading(rows: seq<Row>, x: string, k: nat)
    requires x in IndexRows(rows)
    requires LinksExist(Links(IndexRows(rows)), x, k) && Up(Links(IndexRows(rows)), x, k) == ""
    ensures LeadsUp(rows, x, k)
    decreases k
  {
    var nodes := IndexRows(rows);
    var ps := Links(nodes);
    TopMeans(rows, x);
    if !IsTop(rows, x) {
      var p := ps[x];
      UnderMeans(rows, x, p);
      assert Up(ps, x, 0) == x && k > 0 && Up(ps, x, 1) == p;
      UpAdds(ps, x, 1, k - 1);
      forall i: nat | i < k - 1 ensures Up(ps, p, i) in ps { UpAdds(ps, x, 1, i); }
      RootedIsLeading(rows, p, k - 1);
    }
  }

  lemma LeadingMeans(rows: seq<Row>, x: string)
    ensures LeadsToTop(rows, x) <==> x in IndexRows(rows) && IsRooted(Links(IndexRows(rows)), x)
  {
    if n: nat :| LeadsUp(rows, x, n) { LeadingIsRooted(rows, x, n); }
    if x in IndexRows(rows) && IsRooted(Links(IndexRows(rows)), x) {
      var ps := Links(IndexRows(rows));
      var k: nat :| LinksExist(ps, x, k) && Up(ps, x, k) == "";
      RootedIsLeading(rows, x, k);
    }
  }

  // ----- nodes of a forest -----

  /** A node anywhere in the trees is well placed, and its children are others. */
  lemma {:induction false} NodeIsPlaced(ix: Index, t: Tree, trees: seq<Tree>, path: set<string>)
    requires InTrees(t, trees)
    requires forall u :: u in trees ==> WellPlaced(ix, u) && NoRepeats(u, path)
    ensures WellPlaced(ix, t) && forall c :: c in t.children ==> c.row.id != t.row.id
    decreases trees
  {
    var i :| 0 <= i < |trees| && (trees[i] == t || InTrees(t, trees[i].children));
    assert trees[i] in trees;
    if trees[i] == t {
      forall c | c in t.children ensures c.row.id != t.row.id {
        assert NoRepeats(c, path + {t.row.id});
      }
    } else {
      NodeIsPlaced(ix, t, trees[i].children, path + {trees[i].row.id});
    }
  }

  /** Every identifier in the trees belongs to a node, and the other way round. */
  lemma {:induction false} IdsAreNodes(trees: seq<Tree>, x: string)
    ensures x in AllIds(trees) <==> exists t :: InTrees(t, trees) && t.row.id == x
    decreases trees
  {
    AllIdsMembers(trees, x);
    if i :| 0 <= i < |trees| && x in Ids(trees[i]) {
      if trees[i].row.id != x {
        IdsAreNodes(trees[i].children, x);
        var t :| InTrees(t, trees[i].children) && t.row.id == x;
        assert InTrees(t, trees);
      } else {
        assert InTrees(trees[i], trees);
      }
    }
    if t :| InTrees(t, trees) && t.row.id == x {
      var i :| 0 <= i < |trees| && (trees[i] == t || InTrees(t, trees[i].children));
      if trees[i] != t { IdsAreNodes(trees[i].children, x); }
      assert x in Ids(trees[i]);
    }
  }

  /** A node is a tree of its own or the child of another node. */
  lemma {:induction false} NodeHasParent(c: Tree, trees: seq<Tree>)
    requires InTrees(c, trees)
    ensures c in trees || exists t :: InTrees(t, trees) && c in t.children
    decreases trees
  {
    var i :| 0 <= i < |trees| && (trees[i] == c || InTrees(c, trees[i].children));
    if trees[i] != c {
      NodeHasParent(c, trees[i].children);
      assert InTrees(trees[i], trees);
      if c !in trees[i].children {
        var t :| InTrees(t, trees[i].children) && c in t.children;
        assert InTrees(t, trees);
      }
    }
  }

  // ----- the tree of the rows -----

  /** The tree that is built of the rows is what it must be. */
  lemma TreeOfRows(rows: seq<Row>)
    ensures IsIndex(IndexOf(IndexRows(rows))) && IsTreeOf(rows, ForestOf(IndexOf(IndexRows(rows))))
  {
    IndexOfRows(rows);
    var ix := IndexOf(IndexRows(rows));
    var trees := ForestOf(ix);
    ForestShape(ix);
    forall t | InTrees(t, trees) ensures ShowsRow(rows, t) { NodeShowsRow(rows, t); }
    forall t | t in trees ensures t.row.id in ix.nodes && t.row == ix.nodes[t.row.id] {
      assert WellPlaced(ix, t);
    }
    SiblingsAreInOrder(ix, trees);
    if x :| IsTop(rows, x) {
      TopMeans(rows, x);
      LeadingShown(rows);
    } else {
      forall x ensures x !in Roots(ix.nodes) { TopMeans(rows, x); }
      RootlessCoverage(ix);
      forall x ensures x in AllIds(trees) <==> IsFolder(rows, x) { IndexMeans(rows, x); }
    }
  }

  lemma SiblingsAreInOrder(ix: Index, trees: seq<Tree>)
    requires ix == IndexOf(ix.nodes) && SiblingsSorted(ix.less, trees)
    requires forall t :: t in trees ==> t.row.id in ix.nodes && t.row == ix.nodes[t.row.id]
    ensures InDisplayOrder(trees)
  {
    forall i, j | 0 <= i < j < |trees| ensures ShownBefore(trees[i].row, trees[j].row) {
      assert trees[i] in trees && trees[j] in trees;
      KeyOrderMeans(trees[i].row, trees[j].row);
    }
  }

  lemma NodeShowsRow(rows: seq<Row>, t: Tree)
    requires IsIndex(IndexOf(IndexRows(rows))) && InTrees(t, ForestOf(IndexOf(IndexRows(rows))))
    ensures ShowsRow(rows, t)
  {
    var ix := IndexOf(IndexRows(rows));
    ForestShape(ix);
    NodeIsPlaced(ix, t, ForestOf(ix), {});
    IndexMeans(rows, t.row.id);
    forall c | c in t.children ensures IsUnder(rows, c.row.id, t.row.id) && c.row == ix.nodes[c.row.id] {
      UnderMeans(rows, c.row.id, t.row.id);
    }
    SiblingsAreInOrder(ix, t.children);
  }

  /** When there is a top folder, exactly those that lead to one are shown, in their places. */
  lemma LeadingShown(rows: seq<Row>)
    requires IsIndex(IndexOf(IndexRows(rows))) && Roots(IndexRows(rows)) != {}
    ensures ShowsLeading(rows, ForestOf(IndexOf(IndexRows(rows))))
  {
    var ix := IndexOf(IndexRows(rows));
    var trees := ForestOf(ix);
    ForestCoverage(ix);
    forall x ensures x in AllIds(trees) <==> LeadsToTop(rows, x) { LeadingMeans(rows, x); }
    forall x ensures (exists t :: t in trees && t.row.id == x) <==> IsTop(rows, x) { TopIsShownOnTop(rows, x); }
    forall x, p | LeadsToTop(rows, x) ensures ShownUnder(trees, x, p) <==> IsUnder(rows, x, p) {
      if ShownUnder(trees, x, p) {
        var t, c :| InTrees(t, trees) && t.row.id == p && c in t.children && c.row.id == x;
        NodeShowsRow(rows, t);
      }
      if IsUnder(rows, x, p) { ChildIsShown(rows, x, p); }
    }
  }

  lemma TopIsShownOnTop(rows: seq<Row>, x: string)
    requires IsIndex(IndexOf(IndexRows(rows))) && Roots(IndexRows(rows)) != {}
    ensures (exists t :: t in ForestOf(IndexOf(IndexRows(rows))) && t.row.id == x) <==> IsTop(rows, x)
  {
    var ix := IndexOf(IndexRows(rows));
    var trees := ForestOf(ix);
    ForestShape(ix);
    TopMeans(rows, x);
    if IsTop(rows, x) {
      RootIsItsOwn(ix, x);
      ForestCoverage(ix);
      IdsAreNodes(trees, x);
      var c :| InTrees(c, trees) && c.row.id == x;
      NodeHasParent(c, trees);
      if c !in trees {
        var t :| InTrees(t, trees) && c in t.children;
        NodeShowsRow(rows, t);
      }
    }
  }

  lemma ChildIsShown(rows: seq<Row>, x: string, p: string)
    requires IsIndex(IndexOf(IndexRows(rows))) && Roots(IndexRows(rows)) != {}
    requires LeadsToTop(rows, x) && IsUnder(rows, x, p)
    ensures ShownUnder(ForestOf(IndexOf(IndexRows(rows))), x, p)
  {
    var ix := IndexOf(IndexRows(rows));
    var trees := ForestOf(ix);
    ForestCoverage(ix);
    LeadingMeans(rows, x);
    IdsAreNodes(trees, x);
    var c :| InTrees(c, trees) && c.row.id == x;
    NodeHasParent(c, trees);
    TopIsShownOnTop(rows, x);
    var t :| InTrees(t, trees) && c in t.children;
    NodeShowsRow(rows, t);
    UnderMeans(rows, x, p);
    UnderMeans(rows, x, t.row.id);
  }
}

/** Building the tree from the listed rows. */
module FolderTreeBuilder {
  import opened Text
  import opened FolderOrder
  import opened FolderForest
  import opened FolderCoverage
  import opened FolderRows

  /** The children of a folder, as far as the grouping knows them. */
  function Under(groups: map<string, seq<string>>, parent: string): seq<string> {
    if parent in groups then groups[parent] else []
  }

  method IndexFolders(rows: seq<Row>) returns (nodes: map<string, Row>)
    ensures nodes == IndexRows(rows)
  {
    nodes := map[];
    ghost var cleaned := CleanedRows(rows);
    for n := 0 to |rows|
      invariant nodes == ById(cleaned[..n])
    {
      var row := Cleaned(rows[n]);
      assert row == cleaned[n];
      NextRow(cleaned, n);
      if row.id != "" {
        nodes := nodes[row.id := row];
      }
    }
    assert cleaned[..|rows|] == cleaned;
  }

  lemma NextRow(cleaned: seq<Row>, n: nat)
    requires n < |cleaned|
    ensures ById(cleaned[..n + 1]) ==
            if cleaned[n].id == "" then ById(cleaned[..n]) else ById(cleaned[..n])[cleaned[n].id := cleaned[n]]
  {
    assert cleaned[..n + 1][..n] == cleaned[..n];
  }

  lemma NoDupExtended(ids: seq<string>, x: string)
    requires NoDup(ids) && x !in ids
    ensures NoDup(ids + [x]) && SetOf(ids + [x]) == SetOf(ids) + {x}
  {
    forall i | 0 <= i < |ids| ensures ids[i] != x { assert ids[i] in ids; }
  }

  /** The roots among the visited folders, each listed once. */
  ghost predicate RootsListed(nodes: map<string, Row>, roots: seq<string>, todo: set<string>) {
    NoDup(roots) && SetOf(roots) == Roots(nodes) - todo
  }

  /** The visited folders that are not roots, grouped by parent, each listed once. */
  ghost predicate Grouped(nodes: map<string, Row>, groups: map<string, seq<string>>, todo: set<string>) {
    forall p :: NoDup(Under(groups, p)) && SetOf(Under(groups, p)) == ChildSet(nodes, p) - todo
  }

  lemma RootVisited(nodes: map<string, Row>, groups: map<string, seq<string>>, roots: seq<string>,
                    todo: set<string>, id: string)
    requires id in nodes && id in todo && IsRoot(nodes, id)
    requires RootsListed(nodes, roots, todo) && Grouped(nodes, groups, todo)
    ensures RootsListed(nodes, roots + [id], todo - {id}) && Grouped(nodes, groups, todo - {id})
  {
    assert id !in SetOf(roots);
    NoDupExtended(roots, id);
    assert Roots(nodes) - (todo - {id}) == Roots(nodes) - todo + {id};
    forall p ensures ChildSet(nodes, p) - (todo - {id}) == ChildSet(nodes, p) - todo {
      assert id !in ChildSet(nodes, p);
    }
  }

  lemma ChildVisited(nodes: map<string, Row>, groups: map<string, seq<string>>, roots: seq<string>,
                     todo: set<string>, id: string)
    requires id in nodes && id in todo && !IsRoot(nodes, id)
    requires RootsListed(nodes, roots, todo) && Grouped(nodes, groups, todo)
    ensures RootsListed(nodes, roots, todo - {id})
    ensures Grouped(nodes, groups[nodes[id].parentId := Under(groups, nodes[id].parentId) + [id]], todo - {id})
  {
    assert Roots(nodes) - (todo - {id}) == Roots(nodes) - todo;
    var parentId := nodes[id].parentId;
    var grown := groups[parentId := Under(groups, parentId) + [id]];
    forall p ensures NoDup(Under(grown, p)) && SetOf(Under(grown, p)) == ChildSet(nodes, p) - (todo - {id}) {
      if p == parentId {
        assert id !in SetOf(Under(groups, p));
        NoDupExtended(Under(groups, p), id);
        assert ChildSet(nodes, p) - (todo - {id}) == ChildSet(nodes, p) - todo + {id};
      } else {
        assert ChildSet(nodes, p) - (todo - {id}) == ChildSet(nodes, p) - todo;
      }
    }
  }

  /** Splits the folders into roots and children, visiting the map in any order. */
  method GroupByParent(nodes: map<string, Row>) returns (groups: map<string, seq<string>>, roots: seq<string>)
    requires "" !in nodes
    ensures RootsListed(nodes, roots, {}) && Grouped(nodes, groups, {})
  {
    groups, roots := map[], [];
    var todo := nodes.Keys;
    while todo != {}
      invariant todo <= nodes.Keys
      invariant RootsListed(nodes, roots, todo) && Grouped(nodes, groups, todo)
      decreases |todo|
    {
      var id :| id in todo;
      var parentId := nodes[id].parentId;
      if parentId == "" || parentId == id || parentId !in nodes {
        RootVisited(nodes, groups, roots, todo, id);
        roots := roots + [id];
      } else {
        ChildVisited(nodes, groups, roots, todo, id);
        groups := groups[parentId := Under(groups, parentId) + [id]];
      }
      todo := todo - {id};
    }
  }

  /** A sorted list without repetition is the listing of its members. */
  lemma SortedIsListing(ix: Index, ids: seq<string>, s: set<string>)
    requires IsIndex(ix) && s <= ix.nodes.Keys && IsSorted(ix.less, ids) && Lists(ids, s)
    ensures ids == Listing(ix, s)
  {
    SortedIsUnique(ix.less, ids, Listing(ix, s), s);
  }

  method SortGroups(ix: Index, groups: map<string, seq<string>>) returns (sorted: map<string, seq<string>>)
    requires IsIndex(ix)
    requires Grouped(ix.nodes, groups, {})
    ensures forall p :: Under(sorted, p) == Listing(ix, ChildSet(ix.nodes, p))
  {
    sorted := groups;
    var todo := groups.Keys;
    while todo != {}
      invariant sorted.Keys == groups.Keys && todo <= groups.Keys
      invariant forall p :: p in todo ==> sorted[p] == groups[p]
      invariant forall p :: p in groups.Keys - todo ==> sorted[p] == Listing(ix, ChildSet(ix.nodes, p))
      decreases |todo|
    {
      var p :| p in todo;
      todo := todo - {p};
      assert sorted[p] == Under(groups, p);
      var ids := SortFolderIDs(ix.less, sorted[p]);
      SortedIsListing(ix, ids, ChildSet(ix.nodes, p));
      sorted := sorted[p := ids];
    }
    forall p | p !in sorted ensures Under(sorted, p) == Listing(ix, ChildSet(ix.nodes, p)) {
      assert SetOf(Under(groups, p)) == ChildSet(ix.nodes, p) - {};
      assert forall id :: id in ChildSet(ix.nodes, p) ==> id in SetOf(Under(groups, p));
      SortedIsListing(ix, [], ChildSet(ix.nodes, p));
    }
  }

  lemma TakeChild(ix: Index, ids: seq<string>, n: nat, path: set<string>)
    requires IsIndex(ix) && n < |ids| && ids[n] in ix.nodes
    requires forall c :: c in Outside(ids[..n], path) ==> c in ix.nodes && c !in path
    ensures ids[n] in path ==> Outside(ids[..n + 1], path) == Outside(ids[..n], path)
    ensures forall c :: c in Outside(ids[..n + 1], path) ==> c in ix.nodes && c !in path
    ensures ids[n] !in path ==>
              TreesOf(ix, Outside(ids[..n + 1], path), path) ==
              TreesOf(ix, Outside(ids[..n], path), path) + [TreeOf(ix, ids[n], path)]
  {
    var listed := Outside(ids[..n], path);
    assert ids[..n + 1][..n] == ids[..n];
    assert (listed + [ids[n]])[..|listed|] == listed;
  }

  lemma AllIdsExtended(trees: seq<Tree>, t: Tree)
    ensures AllIds(trees + [t]) == AllIds(trees) + Ids(t)
    ensures SetOf(AllIds(trees + [t])) == SetOf(AllIds(trees)) + SetOf(Ids(t))
  {
    AllIdsGrow(trees, t);
  }

  /** The branches of the listed children are built and counted as emitted. */
  ghost predicate Built(ix: Index, ids: seq<string>, path: set<string>, children: seq<Tree>,
                        before: set<string>, emitted: set<string>)
    requires IsIndex(ix)
  {
    && (forall c :: c in Outside(ids, path) ==> c in ix.nodes && c !in path)
    && children == TreesOf(ix, Outside(ids, path), path)
    && emitted == before + SetOf(AllIds(children))
  }

  lemma NextChild(ix: Index, ids: seq<string>, n: nat, path: set<string>, children: seq<Tree>,
                  before: set<string>, emitted: set<string>)
    requires IsIndex(ix) && n < |ids| && ids[n] in ix.nodes && Built(ix, ids[..n], path, children, before, emitted)
    ensures ids[n] in path ==> Built(ix, ids[..n + 1], path, children, before, emitted)
    ensures ids[n] !in path ==>
              var t := TreeOf(ix, ids[n], path);
              Built(ix, ids[..n + 1], path, children + [t], before, emitted + SetOf(Ids(t)))
  {
    TakeChild(ix, ids, n, path);
    if ids[n] !in path { AllIdsExtended(children, TreeOf(ix, ids[n], path)); }
  }

  /** The node itself, once its children are built. */
  lemma NodeBuilt(ix: Index, id: string, path: set<string>, children: seq<Tree>,
                  before: set<string>, emitted: set<string>)
    requires IsIndex(ix) && id in ix.nodes && id !in path
    requires Built(ix, Listing(ix, ChildSet(ix.nodes, id)), path + {id}, children, before + {id}, emitted)
    ensures TreeOf(ix, id, path) == Node(ix.nodes[id], children)
    ensures emitted == before + SetOf(Ids(TreeOf(ix, id, path)))
  {
    var t := TreeOf(ix, id, path);
    assert t == Node(ix.nodes[id], children);
    assert SetOf(Ids(t)) == {id} + SetOf(AllIds(children));
  }

  /** One run of the recursion, with the two sets that it updates in place. */
  class TreeBuilder {
    const nodes: map<string, Row>
    const childrenByParent: map<string, seq<string>>
    ghost const ix: Index
    var path: set<string>
    var emitted: set<string>

    ghost predicate Valid() {
      && IsIndex(ix) && ix.nodes == nodes
      && forall p :: Under(childrenByParent, p) == Listing(ix, ChildSet(nodes, p))
    }

    constructor (nodes: map<string, Row>, childrenByParent: map<string, seq<string>>, ghost ix: Index)
      requires IsIndex(ix) && ix.nodes == nodes
      requires forall p :: Under(childrenByParent, p) == Listing(ix, ChildSet(nodes, p))
      ensures Valid() && this.ix == ix && path == {} && emitted == {}
    {
      this.nodes := nodes;
      this.childrenByParent := childrenByParent;
      this.ix := ix;
      path, emitted := {}, {};
    }

    method BuildFolderNode(id: string) returns (t: Tree)
      requires Valid() && id in nodes
      modifies this
      ensures path == old(path)
      ensures id !in path ==> t == TreeOf(ix, id, path) && emitted == old(emitted) + SetOf(Ids(t))
      ensures id in path ==> t == Node(nodes[id], []) && emitted == old(emitted)
      decreases nodes.Keys - path
    {
      if id in path {
        return Node(nodes[id], []);
      }
      path := path + {id};
      emitted := emitted + {id};

      var childIDs := Under(childrenByParent, id);
      var children: seq<Tree> := [];
      for n := 0 to |childIDs|
        invariant path == old(path) + {id}
        invariant Built(ix, childIDs[..n], path, children, old(emitted) + {id}, emitted)
      {
        var child := childIDs[n];
        assert child in Listing(ix, ChildSet(nodes, id));
        NextChild(ix, childIDs, n, path, children, old(emitted) + {id}, emitted);
        if child !in path {
          var branch := BuildFolderNode(child);
          children := children + [branch];
        }
      }
      assert childIDs[..|childIDs|] == childIDs;
      NodeBuilt(ix, id, old(path), children, old(emitted), emitted);
      path := path - {id};
      t := Node(nodes[id], children);
    }
  }

  /** The folder tree of the listed rows. */
  method BuildFolderTree(rows: seq<Row>) returns (tree: seq<Tree>)
    ensures IsTreeOf(rows, tree)
    ensures IsIndex(IndexOf(IndexRows(rows))) && tree == ForestOf(IndexOf(IndexRows(rows)))
  {
    TreeOfRows(rows);
    var nodes := IndexFolders(rows);
    IndexOfRows(rows);
    tree := BuildForest(IndexOf(nodes));
  }

  method BuildForest(ix: Index) returns (tree: seq<Tree>)
    requires IsIndex(ix)
    ensures tree == ForestOf(ix)
  {
    var nodes := ix.nodes;
    if |nodes| == 0 {
      assert nodes == map[];
      assert Tops(nodes) == {};
      SortedIsListing(ix, [], {});
      return [];
    }
    var groups, rootIDs := GroupByParent(nodes);
    if |rootIDs| == 0 {
      assert SetOf(rootIDs) == Roots(nodes) == {};
      rootIDs := AnyOrder(nodes.Keys);
    } else {
      assert rootIDs[0] in SetOf(rootIDs);
      assert rootIDs[0] in Roots(nodes);
    }
    rootIDs := SortFolderIDs(ix.less, rootIDs);
    SortedIsListing(ix, rootIDs, Tops(nodes));
    var childrenByParent := SortGroups(ix, groups);
    tree := EmitTrees(ix, nodes, childrenByParent, rootIDs);
  }

  method EmitTrees(ghost ix: Index, nodes: map<string, Row>, childrenByParent: map<string, seq<string>>,
                   rootIDs: seq<string>)
    returns (tree: seq<Tree>)
    requires IsIndex(ix) && ix.nodes == nodes && forall id :: id in rootIDs ==> id in nodes
    requires forall p :: Under(childrenByParent, p) == Listing(ix, ChildSet(nodes, p))
    ensures tree == Emit(ix, rootIDs)
  {
    tree := [];
    var builder := new TreeBuilder(nodes, childrenByParent, ix);
    assert SetOf(AllIds(tree)) == {};
    for n := 0 to |rootIDs|
      invariant fresh(builder) && builder.Valid() && builder.ix == ix && builder.path == {}
      invariant tree == Emit(ix, rootIDs[..n])
      invariant builder.emitted == SetOf(AllIds(tree))
    {
      assert rootIDs[..n + 1][..n] == rootIDs[..n];
      if rootIDs[n] !in builder.emitted {
        var t := builder.BuildFolderNode(rootIDs[n]);
        assert (tree + [t])[..|tree|] == tree;
        tree := tree + [t];
      }
    }
    assert rootIDs[..|rootIDs|] == rootIDs;
  }

  /** A map's keys in the order in which it happens to yield them. */
  method AnyOrder(s: set<string>) returns (ids: seq<string>)
    ensures NoDup(ids) && SetOf(ids) == s
  {
    ids := [];
    var todo := s;
    while todo != {}
      invariant todo <= s && NoDup(ids) && SetOf(ids) == s - todo
      decreases |todo|
    {
      var id :| id in todo;
      todo := todo - {id};
      assert id !in SetOf(ids);
      NoDupExtended(ids, id);
      ids := ids + [id];
    }
  }
}
