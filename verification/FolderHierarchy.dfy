/** Ancestor chains over stored parent links, which may be broken or cyclic. */
module FolderChains {
  /** Stored parent of every live folder; the empty string stands for no parent. */
  type Parents = m: map<string, string> | "" !in m witness map[]

  /** The folder reached from `x` by following `k` parent links. */
  function Up(parents: Parents, x: string, k: nat): string {
    if k == 0 then x
    else
      var y := Up(parents, x, k - 1);
      if y in parents then parents[y] else ""
  }

  lemma {:induction false} UpAdds(parents: Parents, x: string, i: nat, j: nat)
    ensures Up(parents, x, i + j) == Up(parents, Up(parents, x, i), j)
    decreases j
  {
    if j == 0 {
    } else {
      UpAdds(parents, x, i, j - 1);
    }
  }

  /** The first `k` links from `x` all start at live folders. */
  ghost predicate LinksExist(parents: Parents, x: string, k: nat) {
    forall i: nat :: i < k ==> Up(parents, x, i) in parents
  }

  /** Following parent links from `x` ends at a folder without a parent. */
  ghost predicate IsRooted(parents: Parents, x: string) {
    exists k: nat :: LinksExist(parents, x, k) && Up(parents, x, k) == ""
  }

  /** `x` is `top` or lies somewhere below it. */
  ghost predicate IsBelow(parents: Parents, x: string, top: string) {
    exists k: nat :: LinksExist(parents, x, k) && Up(parents, x, k) == top
  }

  /** No cycle and no dangling parent. */
  ghost predicate IsForest(parents: Parents) {
    forall x :: x in parents ==> IsRooted(parents, x)
  }

  lemma BelowTransitive(parents: Parents, x: string, y: string, z: string)
    requires IsBelow(parents, x, y) && IsBelow(parents, y, z)
    ensures IsBelow(parents, x, z)
  {
    var i: nat :| LinksExist(parents, x, i) && Up(parents, x, i) == y;
    var j: nat :| LinksExist(parents, y, j) && Up(parents, y, j) == z;
    UpAdds(parents, x, i, j);
    forall k: nat | k < i + j ensures Up(parents, x, k) in parents {
      if k >= i { UpAdds(parents, x, i, k - i); }
    }
  }

  /** A rooted folder is not its own ancestor. */
  lemma RootedHasNoCycle(parents: Parents, x: string, k: nat)
    requires IsRooted(parents, x) && LinksExist(parents, x, k) && k > 0
    ensures Up(parents, x, k) != x
  {
    if Up(parents, x, k) == x {
      var n: nat :| LinksExist(parents, x, n) && Up(parents, x, n) == "";
      Revolves(parents, x, k, n);
    }
  }

  lemma {:induction false} Revolves(parents: Parents, x: string, k: nat, n: nat)
    requires k > 0 && LinksExist(parents, x, k) && Up(parents, x, k) == x
    ensures Up(parents, x, n) in parents
    decreases n
  {
    if n >= k {
      UpAdds(parents, x, k, n - k);
      Revolves(parents, x, k, n - k);
    }
  }
}

/** Validation of a folder's new parent, as the service does it before every write. */
module FolderParents {
  import opened FolderChains

  datatype Verdict = Accepted | Invalid | NotFound | Unavailable

  /** The walk goes on from `y`: it is live, can be loaded and is not the folder itself. */
  ghost predicate GoesOn(parents: Parents, fails: string -> bool, folder: string, y: string) {
    y in parents && y != folder && !fails(y)
  }

  ghost predicate Clean(parents: Parents, fails: string -> bool, folder: string, parent: string, k: nat) {
    forall i: nat :: i < k ==> GoesOn(parents, fails, folder, Up(parents, parent, i))
  }

  /** The walk from the parent upwards ends at step `k`, at `y`. */
  ghost predicate EndsAt(parents: Parents, fails: string -> bool, folder: string, parent: string, k: nat, y: string) {
    && Clean(parents, fails, folder, parent, k)
    && Up(parents, parent, k) == y
    && !GoesOn(parents, fails, folder, y)
  }

  /** What each verdict means: where the walk ends, or that it never does. */
  ghost predicate Means(parents: Parents, fails: string -> bool, folder: string, parent: string, v: Verdict) {
    match v
    case Accepted => exists k: nat :: EndsAt(parents, fails, folder, parent, k, "")
    case Invalid =>
      || (folder != "" && exists k: nat :: EndsAt(parents, fails, folder, parent, k, folder))
      || (forall k: nat :: Clean(parents, fails, folder, parent, k))
    case NotFound =>
      exists k: nat, y :: EndsAt(parents, fails, folder, parent, k, y) && y != "" && y != folder && !fails(y)
    case Unavailable =>
      exists k: nat, y :: EndsAt(parents, fails, folder, parent, k, y) && y != "" && y != folder && fails(y)
  }

  lemma EndIsUnique(parents: Parents, fails: string -> bool, folder: string, parent: string,
                    j: nat, k: nat, y: string, z: string)
    requires EndsAt(parents, fails, folder, parent, j, y) && EndsAt(parents, fails, folder, parent, k, z)
    ensures j == k && y == z
  {
    assert !GoesOn(parents, fails, folder, Up(parents, parent, j));
    assert !GoesOn(parents, fails, folder, Up(parents, parent, k));
  }

  lemma EndOrForever(parents: Parents, fails: string -> bool, folder: string, parent: string, k: nat, y: string)
    requires EndsAt(parents, fails, folder, parent, k, y)
    ensures !Clean(parents, fails, folder, parent, k + 1)
  {
    assert !GoesOn(parents, fails, folder, Up(parents, parent, k));
  }

  /** The verdicts exclude each other. */
  lemma MeaningIsUnique(parents: Parents, fails: string -> bool, folder: string, parent: string, v: Verdict, w: Verdict)
    requires Means(parents, fails, folder, parent, v) && Means(parents, fails, folder, parent, w)
    ensures v == w
  {
    if (forall k: nat :: Clean(parents, fails, folder, parent, k)) {
      forall k: nat, y ensures !EndsAt(parents, fails, folder, parent, k, y) {
        if EndsAt(parents, fails, folder, parent, k, y) { EndOrForever(parents, fails, folder, parent, k, y); }
      }
    } else {
      var j: nat, y :| EndsAt(parents, fails, folder, parent, j, y);
      forall k: nat, z | EndsAt(parents, fails, folder, parent, k, z) ensures z == y {
        EndIsUnique(parents, fails, folder, parent, j, k, y, z);
      }
    }
  }

  /** A walk that comes back to a folder it has seen never ends. */
  lemma {:induction false} ComesBack(parents: Parents, fails: string -> bool, folder: string, parent: string,
                                     i: nat, n: nat, k: nat)
    requires i < n && Clean(parents, fails, folder, parent, n) && Up(parents, parent, n) == Up(parents, parent, i)
    ensures Clean(parents, fails, folder, parent, k)
    decreases k
  {
    if k > n {
      ComesBack(parents, fails, folder, parent, i, n, k - 1);
      UpAdds(parents, parent, n, k - 1 - n);
      UpAdds(parents, parent, i, k - 1 - n);
      assert i + (k - 1 - n) < k - 1;
    }
  }

  /**
   Walks from the parent to the root. `fails` tells which loads end in an error other than "not found".
   */
  method ValidateFolderParent(parents: Parents, fails: string -> bool, folder: string, parent: string)
    returns (v: Verdict)
    ensures forall w :: Means(parents, fails, folder, parent, w) <==> w == v
  {
    v := Walk(parents, fails, folder, parent);
    forall w | Means(parents, fails, folder, parent, w) ensures w == v {
      MeaningIsUnique(parents, fails, folder, parent, v, w);
    }
  }

  method Walk(parents: Parents, fails: string -> bool, folder: string, parent: string) returns (v: Verdict)
    ensures Means(parents, fails, folder, parent, v)
  {
    if parent == "" {
      assert EndsAt(parents, fails, folder, parent, 0, "");
      return Accepted;
    }
    if folder != "" && parent == folder {
      assert EndsAt(parents, fails, folder, parent, 0, folder);
      return Invalid;
    }
    if fails(parent) {
      assert EndsAt(parents, fails, folder, parent, 0, parent);
      return Unavailable;
    }
    if parent !in parents {
      assert EndsAt(parents, fails, folder, parent, 0, parent);
      return NotFound;
    }

    var visited: set<string> := {};
    var current := parents[parent];
    ghost var n: nat := 1;
    while current != ""
      invariant n >= 1 && current == Up(parents, parent, n)
      invariant Clean(parents, fails, folder, parent, n)
      invariant visited <= parents.Keys
      invariant forall y :: y in visited ==> exists i: nat :: 1 <= i < n && Up(parents, parent, i) == y
      decreases parents.Keys - visited
    {
      if current in visited {
        ghost var i: nat :| 1 <= i < n && Up(parents, parent, i) == current;
        forall k: nat ensures Clean(parents, fails, folder, parent, k) {
          ComesBack(parents, fails, folder, parent, i, n, k);
        }
        return Invalid;
      }
      if folder != "" && current == folder {
        assert EndsAt(parents, fails, folder, parent, n, folder);
        return Invalid;
      }
      visited := visited + {current};
      if fails(current) {
        assert EndsAt(parents, fails, folder, parent, n, current);
        return Unavailable;
      }
      if current !in parents {
        assert EndsAt(parents, fails, folder, parent, n, current);
        return NotFound;
      }
      assert Up(parents, parent, n + 1) == parents[current];
      current := parents[current];
      n := n + 1;
    }
    assert EndsAt(parents, fails, folder, parent, n, "");
    return Accepted;
  }

  /** In a hierarchy without cycles and dangling links, exactly the moves below the folder itself are rejected. */
  lemma AcceptsExactlyNonDescendants(parents: Parents, folder: string, parent: string)
    requires IsForest(parents) && folder != ""
    ensures Means(parents, _ => false, folder, parent, Accepted) <==>
            parent == "" || (parent in parents && !IsBelow(parents, parent, folder))
  {
    var none := (_: string) => false;
    if parent == "" {
      assert EndsAt(parents, none, folder, parent, 0, "");
    } else if Means(parents, none, folder, parent, Accepted) {
      var k: nat :| EndsAt(parents, none, folder, parent, k, "");
      assert GoesOn(parents, none, folder, Up(parents, parent, 0));
      forall j: nat | LinksExist(parents, parent, j)
        ensures Up(parents, parent, j) != folder
      {
        if j < k { assert GoesOn(parents, none, folder, Up(parents, parent, j)); }
        assert j <= k;
      }
    } else if parent in parents && !IsBelow(parents, parent, folder) {
      assert IsRooted(parents, parent);
      var k: nat :| LinksExist(parents, parent, k) && Up(parents, parent, k) == "";
      forall i: nat | i < k ensures GoesOn(parents, none, folder, Up(parents, parent, i)) {
        assert LinksExist(parents, parent, i);
      }
      assert EndsAt(parents, none, folder, parent, k, "");
    }
  }
}

/** Creating, moving and deleting folders, one at a time. */
module FolderSteps {
  import opened Basics
  import opened FolderChains
  import opened FolderParents

  lemma {:induction false} UpAfterLink(parents: Parents, id: string, parent: string, x: string, k: nat)
    requires id != ""
    requires forall i: nat :: i < k ==> Up(parents, x, i) != id
    ensures Up(parents[id := parent], x, k) == Up(parents, x, k)
    decreases k
  {
    if k == 0 {
    } else {
      UpAfterLink(parents, id, parent, x, k - 1);
    }
  }

  /** A chain that never meets the changed folder is not changed. */
  lemma ChainAfterLink(parents: Parents, id: string, parent: string, x: string, k: nat)
    requires id != "" && LinksExist(parents, x, k)
    requires forall i: nat :: i < k ==> Up(parents, x, i) != id
    ensures LinksExist(parents[id := parent], x, k)
    ensures Up(parents[id := parent], x, k) == Up(parents, x, k)
  {
    var after: Parents := parents[id := parent];
    UpAfterLink(parents, id, parent, x, k);
    forall i: nat | i < k ensures Up(after, x, i) in after {
      UpAfterLink(parents, id, parent, x, i);
    }
  }

  lemma AcceptedStaysRooted(parents: Parents, fails: string -> bool, id: string, parent: string)
    requires id != "" && Means(parents, fails, id, parent, Accepted)
    ensures IsRooted(parents[id := parent], parent) && IsRooted(parents[id := parent], id)
  {
    var after: Parents := parents[id := parent];
    var k: nat :| EndsAt(parents, fails, id, parent, k, "");
    forall i: nat | i < k ensures Up(parents, parent, i) in parents && Up(parents, parent, i) != id {
      assert GoesOn(parents, fails, id, Up(parents, parent, i));
    }
    ChainAfterLink(parents, id, parent, parent, k);
    assert Up(after, id, 1) == parent by { assert Up(after, id, 0) == id; }
    assert IsRooted(after, id) by {
      UpAdds(after, id, 1, k);
      forall i: nat | i < 1 + k ensures Up(after, id, i) in after {
        if i > 0 { UpAdds(after, id, 1, i - 1); }
      }
      assert LinksExist(after, id, 1 + k) && Up(after, id, 1 + k) == "";
    }
  }

  /** Hanging a folder under an accepted parent keeps every chain finite and complete. */
  lemma LinkKeepsForest(parents: Parents, fails: string -> bool, id: string, parent: string)
    requires IsForest(parents) && id != "" && Means(parents, fails, id, parent, Accepted)
    ensures IsForest(parents[id := parent])
  {
    var after: Parents := parents[id := parent];
    AcceptedStaysRooted(parents, fails, id, parent);
    forall x | x in after ensures IsRooted(after, x) {
      if x != id {
        assert IsRooted(parents, x);
        var k: nat :| LinksExist(parents, x, k) && Up(parents, x, k) == "";
        var i := FirstMeeting(parents, x, k, id);
        ChainAfterLink(parents, id, parent, x, i);
        if i < k {
          assert IsBelow(after, x, id) && IsBelow(after, id, "");
          BelowTransitive(after, x, id, "");
        }
      }
    }
  }

  /** Where a chain of `k` links meets a folder first, or `k` if it never does. */
  lemma {:induction false} FirstMeeting(parents: Parents, x: string, k: nat, id: string) returns (i: nat)
    ensures i <= k && (i < k ==> Up(parents, x, i) == id)
    ensures forall j: nat :: j < i ==> Up(parents, x, j) != id
    decreases k
  {
    if k == 0 {
      i := 0;
    } else {
      i := FirstMeeting(parents, x, k - 1, id);
      if i == k - 1 && Up(parents, x, i) != id { i := k; }
    }
  }

  /** Everything that goes when `id` is deleted: the folder and all folders below it. */
  ghost predicate Deleted(parents: Parents, id: string, x: string) {
    x in parents && IsBelow(parents, x, id)
  }

  lemma {:induction false} UpAfterDelete(parents: Parents, gone: set<string>, x: string, k: nat)
    requires LinksExist(parents, x, k)
    requires forall i: nat :: i < k ==> Up(parents, x, i) !in gone
    ensures Up(parents - gone, x, k) == Up(parents, x, k) && LinksExist(parents - gone, x, k)
    decreases k
  {
    if k == 0 {
    } else {
      UpAfterDelete(parents, gone, x, k - 1);
    }
  }

  /** Deleting a folder together with everything below it leaves a forest. */
  lemma DeleteKeepsForest(parents: Parents, id: string, gone: set<string>)
    requires IsForest(parents)
    requires forall x :: x in gone <==> Deleted(parents, id, x)
    ensures IsForest(parents - gone)
  {
    var after: Parents := parents - gone;
    forall x | x in after ensures IsRooted(after, x) {
      assert IsRooted(parents, x);
      var k: nat :| LinksExist(parents, x, k) && Up(parents, x, k) == "";
      forall i: nat | i < k ensures Up(parents, x, i) !in gone {
        if Up(parents, x, i) in gone {
          assert LinksExist(parents, x, i);
          assert IsBelow(parents, x, Up(parents, x, i));
          BelowTransitive(parents, x, Up(parents, x, i), id);
        }
      }
      UpAfterDelete(parents, gone, x, k);
    }
  }

  /**
   Collects a folder and all folders below it level by level, for any parent links, cyclic ones included.
   */
  method CollectTree(parents: Parents, id: string) returns (ids: seq<string>)
    ensures forall x :: x in ids <==> id in parents && Deleted(parents, id, x)
    ensures forall i, j :: 0 <= i < j < |ids| ==> ids[i] != ids[j]
  {
    if id !in parents {
      forall x ensures !(id in parents && Deleted(parents, id, x)) {
      }
      return [];
    }
    ids := [id];
    var seen, frontier := {id}, {id};
    assert LinksExist(parents, id, 0) && Up(parents, id, 0) == id;
    while frontier != {}
      invariant forall x :: x in ids <==> x in seen
      invariant forall i, j :: 0 <= i < j < |ids| ==> ids[i] != ids[j]
      invariant id in seen && frontier <= seen <= parents.Keys
      invariant forall x :: x in seen ==> IsBelow(parents, x, id)
      invariant forall x :: x in parents && parents[x] in seen - frontier ==> x in seen
      decreases parents.Keys - seen, |frontier|
    {
      var next := set x | x in parents && parents[x] in frontier && x !in seen;
      var rest := next;
      ghost var before := seen;
      while rest != {}
        invariant rest <= next && seen == before + (next - rest)
        invariant forall x :: x in ids <==> x in seen
        invariant forall i, j :: 0 <= i < j < |ids| ==> ids[i] != ids[j]
      {
        var child :| child in rest;
        ids := ids + [child];
        seen := seen + {child};
        rest := rest - {child};
      }
      forall x | x in next ensures IsBelow(parents, x, id) {
        assert LinksExist(parents, x, 1) && Up(parents, x, 1) == parents[x] by {
          assert Up(parents, x, 0) == x;
        }
        assert IsBelow(parents, x, parents[x]);
        BelowTransitive(parents, x, parents[x], id);
      }
      frontier := next;
    }
    forall x | Deleted(parents, id, x) ensures x in seen {
      var k: nat :| LinksExist(parents, x, k) && Up(parents, x, k) == id;
      ClosedDownwards(parents, seen, x, k);
    }
  }

  lemma {:induction false} ClosedDownwards(parents: Parents, seen: set<string>, x: string, k: nat)
    requires LinksExist(parents, x, k) && Up(parents, x, k) in seen
    requires forall y :: y in parents && parents[y] in seen ==> y in seen
    ensures x in seen
    decreases k
  {
    if k == 0 {
    } else {
      assert Up(parents, x, k) == parents[Up(parents, x, k - 1)];
      ClosedDownwards(parents, seen, x, k - 1);
    }
  }

  /** Done, turned down by the validation, or turned down by the repository. */
  datatype Answer = Applied | Rejected(reason: Verdict) | Refused

  /** The stored folders. Every method keeps the hierarchy free of cycles and dangling parents. */
  class FolderStore {
    var parents: map<string, string>

    ghost predicate Valid()
      reads this
    {
      "" !in parents && IsForest(parents)
    }

    constructor ()
      ensures Valid() && parents == map[]
    {
      parents := map[];
    }

    /** `refused` stands for a write that the repository turns down, for a name in use or any other reason. */
    method CreateFolder(id: string, parent: string, fails: string -> bool, refused: bool) returns (a: Answer)
      requires Valid() && id != "" && id !in parents
      modifies this
      ensures Valid()
      ensures a.Applied? <==> Means(old(parents), fails, id, parent, Accepted) && !refused
      ensures a.Rejected? ==> Means(old(parents), fails, id, parent, a.reason)
      ensures parents == if a.Applied? then old(parents)[id := parent] else old(parents)
    {
      var v := ValidateFolderParent(parents, fails, id, parent);
      if v != Accepted { return Rejected(v); }
      if refused { return Refused; }
      LinkKeepsForest(parents, fails, id, parent);
      parents := parents[id := parent];
      a := Applied;
    }

    /** Moves a folder, or leaves its parent alone when `parent` is `None`. */
    method UpdateFolder(id: string, parent: Option<string>, fails: string -> bool, refused: bool) returns (a: Answer)
      requires Valid() && id != ""
      modifies this
      ensures Valid()
      ensures a.Applied? <==>
        (id in old(parents) && !refused && (parent.Some? ==> Means(old(parents), fails, id, parent.value, Accepted)))
      ensures a.Rejected? ==> parent.Some? && Means(old(parents), fails, id, parent.value, a.reason)
      ensures parents == if a.Applied? && parent.Some? then old(parents)[id := parent.value] else old(parents)
    {
      if parent.Some? {
        var v := ValidateFolderParent(parents, fails, id, parent.value);
        if v != Accepted { return Rejected(v); }
      }
      if refused || id !in parents { return Refused; }
      if parent.Some? {
        LinkKeepsForest(parents, fails, id, parent.value);
        parents := parents[id := parent.value];
      }
      a := Applied;
    }

    /** Deletes a folder and everything below it. */
    method DeleteFolder(id: string, refused: bool) returns (a: Answer)
      requires Valid()
      modifies this
      ensures Valid()
      ensures a == if id in old(parents) && !refused then Applied else Refused
      ensures forall x :: x in parents <==> x in old(parents) && (a == Refused || !IsBelow(old(parents), x, id))
      ensures forall x :: x in parents ==> parents[x] == old(parents)[x]
    {
      if id !in parents || refused { return Refused; }
      var ids := CollectTree(parents, id);
      ghost var gone := set x | x in ids;
      DeleteKeepsForest(parents, id, gone);
      parents := map x | x in parents && x !in ids :: parents[x];
      assert parents == old(parents) - gone;
      a := Applied;
    }
  }
}
