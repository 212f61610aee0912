/** Permission scopes and the check whether they satisfy a required permission. */
module Permissions {
  import opened Basics
  import opened Text

  const PRODUCT := "product"
  const SHIPPING := "shipping"
  const PRODUCT_EDIT := PRODUCT + ":edit"
  const PRODUCT_VIEW := PRODUCT + ":view"
  const SHIPPING_GENERATE := SHIPPING + ":generate"
  const SHIPPING_QUOTATIONS := SHIPPING + ":quotations"

  /** Permissions that a permission implies besides those that its resource's manage permission implies. */
  function PermissionCovers(): map<string, seq<string>> {
    map[PRODUCT_EDIT := [PRODUCT_VIEW], SHIPPING_GENERATE := [SHIPPING_QUOTATIONS]]
  }

  /** The position of the first colon, or the length if there is none. */
  function ColonAt(s: string): (n: nat)
    ensures n <= |s| && ':' !in s[..n] && (n < |s| ==> s[n] == ':')
  {
    if s == "" || s[0] == ':' then 0
    else
      var n := 1 + ColonAt(s[1..]);
      assert s[..n] == [s[0]] + s[1..][..n - 1];
      n
  }

  const MANAGE := ":manage"

  /** The manage permission of the resource, or nothing if there is no resource name. */
  function ManagePermission(required: string): string {
    var n := ColonAt(required);
    if n == 0 || n == |required| then "" else required[..n] + MANAGE
  }

  predicate HasPermission(scopes: seq<string>, required: string) {
    || required in scopes
    || (ManagePermission(required) != "" && ManagePermission(required) in scopes)
    || (exists scope :: scope in scopes && scope in PermissionCovers() && required in PermissionCovers()[scope])
  }

  datatype AuthError = Forbidden | ForbiddenFor(permission: string)

  function Trimmed(required: seq<string>): seq<string> {
    seq(|required|, i requires 0 <= i < |required| => TrimSpace(required[i]))
  }

  /** `claims` are the scopes of the principal, if there is one. */
  function Authorize(claims: Option<seq<string>>, required: seq<string>): Result<(), AuthError> {
    if required == [] then Ok(())
    else if claims.None? || claims.value == [] then Err(Forbidden)
    else FirstMissing(p => HasPermission(claims.value, p), Trimmed(required))
  }

  /** The first permission, of those that are not blank, that is not held. */
  function FirstMissing(held: string -> bool, required: seq<string>): (r: Result<(), AuthError>)
    ensures r.Ok? <==> forall i :: 0 <= i < |required| ==> required[i] == "" || held(required[i])
    ensures r.Err? ==> IsFirstMissing(held, required, r.error)
  {
    if required == [] then Ok(())
    else if required[0] != "" && !held(required[0]) then
      assert MissingAt(held, required, 0);
      Err(ForbiddenFor(required[0]))
    else
      var r := FirstMissing(held, required[1..]);
      assert forall i :: 0 < i < |required| ==> required[i] == required[1..][i - 1];
      assert forall i :: 0 <= i < |required| - 1 && MissingAt(held, required[1..], i) ==>
        MissingAt(held, required, i + 1);
      r
  }

  predicate MissingAt(held: string -> bool, required: seq<string>, i: int) {
    && 0 <= i < |required| && required[i] != "" && !held(required[i])
    && forall j :: 0 <= j < i ==> required[j] == "" || held(required[j])
  }

  predicate IsFirstMissing(held: string -> bool, required: seq<string>, e: AuthError) {
    exists i :: 0 <= i < |required| && MissingAt(held, required, i) && e == ForbiddenFor(required[i])
  }

  // ----- the checks compose -----

  lemma {:induction false} FirstColon(s: string, k: nat)
    requires k < |s| && s[k] == ':' && forall i :: 0 <= i < k ==> s[i] != ':'
    ensures ColonAt(s) == k
    decreases k
  {
    if k == 0 {
    } else {
      FirstColon(s[1..], k - 1);
    }
  }

  lemma ManageOfResource(resource: string, action: string)
    requires resource != "" && ':' !in resource && action != "" && action[0] == ':'
    ensures ManagePermission(resource + action) == resource + MANAGE
  {
    assert forall i :: 0 <= i < |resource| ==> resource[i] in resource;
    FirstColon(resource + action, |resource|);
    assert (resource + action)[..|resource|] == resource;
  }

  /** A manage permission is its own manage permission. */
  lemma ManageOfManage(q: string)
    requires ManagePermission(q) != ""
    ensures ManagePermission(ManagePermission(q)) == ManagePermission(q)
  {
    var n := ColonAt(q);
    ManageOfResource(q[..n], MANAGE);
  }

  lemma NotAManagePermission(p: string, q: string)
    requires ManagePermission(q) == p && p != ""
    ensures |p| > 7 && p[|p| - 1] == 'e' && p[|p| - 6] == 'm' && p !in PermissionCovers()
    ensures forall scope :: scope in PermissionCovers() ==> p !in PermissionCovers()[scope]
  {
    var n := ColonAt(q);
    assert p == q[..n] + MANAGE;
    assert p[|p| - 6] == MANAGE[1] && p[|p| - 1] == MANAGE[6];
  }

  lemma CoverEntries(p: string, q: string)
    requires p in PermissionCovers() && q in PermissionCovers()[p]
    ensures (p == PRODUCT_EDIT && q == PRODUCT_VIEW) || (p == SHIPPING_GENERATE && q == SHIPPING_QUOTATIONS)
  {
    if p == PRODUCT_EDIT {
      assert p != SHIPPING_GENERATE;
    }
  }

  lemma ProductEntry()
    ensures ManagePermission(PRODUCT_EDIT) == ManagePermission(PRODUCT_VIEW) != ""
  {
    ManageOfResource(PRODUCT, ":edit");
    ManageOfResource(PRODUCT, ":view");
  }

  lemma ShippingEntry()
    ensures ManagePermission(SHIPPING_GENERATE) == ManagePermission(SHIPPING_QUOTATIONS) != ""
  {
    ManageOfResource(SHIPPING, ":generate");
    ManageOfResource(SHIPPING, ":quotations");
  }

  /** A covering permission and the covered one belong to one resource; covering ones are not covered themselves. */
  lemma CoverTable(p: string, q: string)
    requires p in PermissionCovers() && q in PermissionCovers()[p]
    ensures ManagePermission(p) == ManagePermission(q) != ""
    ensures forall scope :: scope in PermissionCovers() ==> p !in PermissionCovers()[scope]
  {
    CoverEntries(p, q);
    if p == PRODUCT_EDIT { ProductEntry(); } else { ShippingEntry(); }
    forall scope | scope in PermissionCovers() ensures p !in PermissionCovers()[scope] {
      if p in PermissionCovers()[scope] { CoverEntries(scope, p); }
    }
  }

  /** Some single scope is the reason. */
  lemma OneScopeSuffices(scopes: seq<string>, q: string) returns (p: string)
    requires HasPermission(scopes, q)
    ensures p in scopes && HasPermission([p], q)
  {
    if q in scopes {
      p := q;
    } else if ManagePermission(q) != "" && ManagePermission(q) in scopes {
      p := ManagePermission(q);
    } else {
      p :| p in scopes && p in PermissionCovers() && q in PermissionCovers()[p];
      assert p in [p];
    }
  }

  /** What a satisfied permission satisfies is satisfied already. */
  lemma CheckIsTransitive(scopes: seq<string>, p: string, q: string)
    requires HasPermission(scopes, p) && HasPermission([p], q)
    ensures HasPermission(scopes, q)
  {
    if q != p {
      if ManagePermission(q) == p && p != "" {
        ManageOfManage(q);
        NotAManagePermission(p, q);
      } else {
        assert p in PermissionCovers() && q in PermissionCovers()[p];
        CoverTable(p, q);
      }
    }
  }

  /** Granting whatever is satisfied already changes nothing. */
  lemma ClosureAddsNothing(scopes: seq<string>, more: seq<string>, q: string)
    requires forall p :: p in more ==> HasPermission(scopes, p)
    ensures HasPermission(scopes + more, q) <==> HasPermission(scopes, q)
  {
    if HasPermission(scopes + more, q) {
      var p := OneScopeSuffices(scopes + more, q);
      if p in scopes { assert HasPermission(scopes, p); }
      CheckIsTransitive(scopes, p, q);
    }
    if HasPermission(scopes, q) { MoreScopesSatisfyMore(scopes, scopes + more, q); }
  }

  lemma MoreScopesSatisfyMore(a: seq<string>, b: seq<string>, q: string)
    requires HasPermission(a, q) && forall p :: p in a ==> p in b
    ensures HasPermission(b, q)
  {
    var p := OneScopeSuffices(a, q);
    if p in PermissionCovers() && q in PermissionCovers()[p] { assert p in b; }
  }

  // ----- what the check means -----

  /** `scope` is the manage permission of the resource of `q`: what comes before the first colon. */
  ghost predicate Manages(scope: string, q: string) {
    exists resource: string, action: string ::
      resource != "" && ':' !in resource && q == resource + ":" + action && scope == resource + ":manage"
  }

  /** The scope itself is asked for, or its resource is managed, or it is one of the two pairs. */
  ghost predicate Grants(scope: string, q: string) {
    || scope == q
    || Manages(scope, q)
    || (scope == "product:edit" && q == "product:view")
    || (scope == "shipping:generate" && q == "shipping:quotations")
  }

  lemma ManageMeans(scope: string, q: string)
    ensures ManagePermission(q) != "" && scope == ManagePermission(q) <==> Manages(scope, q)
  {
    var n := ColonAt(q);
    if ManagePermission(q) != "" && scope == ManagePermission(q) {
      assert q == q[..n] + ":" + q[n + 1..];
    }
    if resource: string, action: string :|
      resource != "" && ':' !in resource && q == resource + ":" + action && scope == resource + ":manage"
    {
      assert q == resource + (":" + action);
      ManageOfResource(resource, ":" + action);
    }
  }

  lemma CoverMeans(scope: string, q: string)
    ensures scope in PermissionCovers() && q in PermissionCovers()[scope] <==>
            (scope == "product:edit" && q == "product:view")
            || (scope == "shipping:generate" && q == "shipping:quotations")
  {
    assert PRODUCT_EDIT == "product:edit" && PRODUCT_VIEW == "product:view";
    assert SHIPPING_GENERATE == "shipping:generate" && SHIPPING_QUOTATIONS == "shipping:quotations";
    if scope in PermissionCovers() && q in PermissionCovers()[scope] { CoverEntries(scope, q); }
    assert PRODUCT_EDIT[0] != SHIPPING_GENERATE[0];
  }

  ghost predicate SomeGrants(scopes: seq<string>, q: string) {
    exists scope :: scope in scopes && Grants(scope, q)
  }

  lemma CheckMeans(scopes: seq<string>, q: string)
    ensures HasPermission(scopes, q) <==> SomeGrants(scopes, q)
  {
    forall scope
      ensures Grants(scope, q) <==>
              scope == q || (ManagePermission(q) != "" && scope == ManagePermission(q))
              || (scope in PermissionCovers() && q in PermissionCovers()[scope])
    {
      ManageMeans(scope, q);
      CoverMeans(scope, q);
    }
  }

  /** The trimmed permission at `i` is not blank and nothing grants it. */
  ghost predicate Lacks(scopes: seq<string>, required: seq<string>, i: int) {
    0 <= i < |required| && TrimSpace(required[i]) != "" && !SomeGrants(scopes, TrimSpace(required[i]))
  }

  ghost predicate FirstLack(scopes: seq<string>, required: seq<string>, i: int) {
    Lacks(scopes, required, i) && forall j :: j < i ==> !Lacks(scopes, required, j)
  }

  /** With scopes, access is granted exactly if none is lacking; without, if nothing is asked for. */
  lemma AuthorizeExactly(claims: Option<seq<string>>, required: seq<string>)
    ensures Authorize(claims, required).Ok? <==>
            || required == []
            || (claims.Some? && claims.value != [] && forall i :: !Lacks(claims.value, required, i))
    ensures forall p :: Authorize(claims, required) == Err(ForbiddenFor(p)) ==>
              claims.Some? && exists i :: FirstLack(claims.value, required, i) && p == TrimSpace(required[i])
  {
    if required != [] && claims.Some? && claims.value != [] {
      var held := p => HasPermission(claims.value, p);
      var all := Trimmed(required);
      forall i ensures Lacks(claims.value, required, i) <==> 0 <= i < |all| && all[i] != "" && !held(all[i]) {
        if 0 <= i < |required| { CheckMeans(claims.value, TrimSpace(required[i])); }
      }
      FirstIsLacking(claims.value, required);
    }
  }

  lemma FirstIsLacking(scopes: seq<string>, required: seq<string>)
    requires forall i :: Lacks(scopes, required, i) <==>
               0 <= i < |required| && Trimmed(required)[i] != "" && !HasPermission(scopes, Trimmed(required)[i])
    ensures var r := FirstMissing(p => HasPermission(scopes, p), Trimmed(required));
            && (r.Ok? <==> forall i :: !Lacks(scopes, required, i))
            && (r.Err? ==>
                  exists i :: FirstLack(scopes, required, i) && r.error == ForbiddenFor(TrimSpace(required[i])))
  {
    var held, all := p => HasPermission(scopes, p), Trimmed(required);
    var r := FirstMissing(held, all);
    if r.Err? {
      var i :| 0 <= i < |all| && MissingAt(held, all, i) && r.error == ForbiddenFor(all[i]);
      assert FirstLack(scopes, required, i) && all[i] == TrimSpace(required[i]);
    }
  }

  lemma AuthorizeIsMonotone(a: seq<string>, b: seq<string>, required: seq<string>)
    requires Authorize(Some(a), required).Ok? && forall p :: p in a ==> p in b
    ensures Authorize(Some(b), required).Ok?
  {
    AuthorizeExactly(Some(a), required);
    AuthorizeExactly(Some(b), required);
    if required != [] {
      assert a[0] in b;
      forall i ensures Lacks(b, required, i) ==> Lacks(a, required, i) {
      }
    }
  }
}
