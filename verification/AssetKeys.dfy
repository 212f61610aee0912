/** Object keys of assets: how they are built, and what replacing a file extension does to them. */
module AssetKeys {
  import opened Text

  const KEY_PREFIX := "assets"

  /** `path.Ext`: from the last dot after the last slash, or nothing. */
  function Ext(s: string): (r: string)
    ensures |r| <= |s| && r == s[|s| - |r|..]
    ensures r != "" ==> r[0] == '.' && '.' !in r[1..] && '/' !in r
  {
    if s == "" || s[|s| - 1] == '/' then ""
    else if s[|s| - 1] == '.' then "."
    else
      var e := Ext(s[..|s| - 1]);
      if e == "" then "" else e + [s[|s| - 1]]
  }

  /** Without an extension, a slash follows every dot. */
  lemma {:induction false} NoExtension(s: string, i: nat)
    requires Ext(s) == "" && i < |s| && s[i] == '.'
    ensures exists j :: i < j < |s| && s[j] == '/'
  {
    if s[|s| - 1] == '/' {
      assert i < |s| - 1;
    } else {
      NoExtension(s[..|s| - 1], i);
      var j :| i < j < |s| - 1 && s[..|s| - 1][j] == '/';
      assert s[j] == '/';
    }
  }

  function StripSlashes(s: string): (r: string)
    ensures r <= s
    ensures r == "" || r[|r| - 1] != '/'
  {
    if s != "" && s[|s| - 1] == '/' then StripSlashes(s[..|s| - 1]) else s
  }

  function AfterLastSlash(s: string): (r: string)
    ensures '/' !in r
    ensures |r| <= |s| && r == s[|s| - |r|..]
  {
    if s == "" || s[|s| - 1] == '/' then "" else AfterLastSlash(s[..|s| - 1]) + [s[|s| - 1]]
  }

  /** `filepath.Base`. */
  function Base(s: string): (r: string)
    ensures r == "/" || '/' !in r
    ensures r != ""
  {
    if s == "" then "."
    else
      var t := StripSlashes(s);
      if t == "" then "/" else AfterLastSlash(t)
  }

  function DashSpaces(s: string): (r: string)
    ensures |r| == |s|
    ensures forall i :: 0 <= i < |s| ==> r[i] == if s[i] == ' ' then '-' else s[i]
  {
    seq(|s|, i requires 0 <= i < |s| => if s[i] == ' ' then '-' else s[i])
  }

  function OwnerPrefix(id: string): string {
    KEY_PREFIX + "/" + id + "-"
  }

  const DEFAULT_NAME := "file"

  function NameOrDefault(base: string): string {
    if base == "" || (|base| == 1 && (base[0] == '.' || base[0] == '/')) then DEFAULT_NAME else base
  }

  function BuildStorageKey(id: string, originalName: string): string {
    OwnerPrefix(TrimSpace(id)) + NameOrDefault(DashSpaces(Base(TrimSpace(originalName))))
  }

  function ReplaceWithJPGExtension(value: string): string {
    var trimmed := TrimSpace(value);
    if trimmed == "" then ""
    else trimmed[..|trimmed| - |Ext(trimmed)|] + ".jpg"
  }

  /** `strings.EqualFold` against a constant that has no character with a non-ASCII case variant. */
  predicate EqualFold(s: string, constant: string) {
    && |s| == |constant|
    && forall i :: 0 <= i < |s| ==>
         s[i] == constant[i] || ('A' <= s[i] <= 'Z' && s[i] + 32 as char == constant[i])
  }

  /** The identifiers that `uuid.NewString` returns. */
  predicate ValidId(id: string) {
    |id| == 36 && forall i :: 0 <= i < |id| ==> '0' <= id[i] <= '9' || 'a' <= id[i] <= 'f' || id[i] == '-'
  }

  /** The key lies in the part of the store that belongs to this asset. */
  predicate OwnedBy(key: string, id: string) {
    OwnerPrefix(id) <= key
  }

  /** A key belongs to at most one asset. */
  lemma OneOwner(key: string, a: string, b: string)
    requires ValidId(a) && ValidId(b) && OwnedBy(key, a) && OwnedBy(key, b)
    ensures a == b
  {
    assert key[7..43] == OwnerPrefix(a)[7..43] == a;
    assert key[7..43] == OwnerPrefix(b)[7..43] == b;
  }

  lemma PrefixIsDense(id: string)
    requires ValidId(id)
    ensures |OwnerPrefix(id)| == 44
    ensures forall i :: 0 <= i < 44 ==> !IsSpace(OwnerPrefix(id)[i]) && OwnerPrefix(id)[i] != '.'
    ensures forall i :: 7 <= i < 44 ==> OwnerPrefix(id)[i] != '/'
  {
    var p := OwnerPrefix(id);
    assert p == "assets/" + id + "-";
    forall i | 0 <= i < 44 ensures !IsSpace(p[i]) && p[i] != '.' && (7 <= i ==> p[i] != '/') {
      if 7 <= i < 43 { assert p[i] == id[i - 7]; }
    }
  }

  lemma {:induction false} TrimKeepsOwner(key: string, id: string)
    requires ValidId(id) && OwnedBy(key, id)
    ensures OwnedBy(TrimSpace(key), id)
    decreases |key|
  {
    PrefixIsDense(id);
    assert !IsSpace(key[0]) && !IsSpace(key[43]) by {
      assert key[0] == OwnerPrefix(id)[0] && key[43] == OwnerPrefix(id)[43];
    }
    if IsSpace(key[|key| - 1]) { TrimKeepsOwner(key[..|key| - 1], id); }
  }

  lemma BuiltKeyIsOwned(id: string, originalName: string)
    requires ValidId(id)
    ensures OwnedBy(BuildStorageKey(id, originalName), id)
    ensures OwnedBy(TrimSpace(BuildStorageKey(id, originalName)), id)
  {
    ValidIdIsTrimmed(id);
    OwnedWithName(id, NameOrDefault(DashSpaces(Base(TrimSpace(originalName)))));
  }

  lemma ValidIdIsTrimmed(id: string)
    requires ValidId(id)
    ensures TrimSpace(id) == id
  {
    assert Untrimmable(id);
  }

  lemma OwnedWithName(id: string, name: string)
    requires ValidId(id)
    ensures OwnedBy(OwnerPrefix(id) + name, id) && OwnedBy(TrimSpace(OwnerPrefix(id) + name), id)
  {
    TrimKeepsOwner(OwnerPrefix(id) + name, id);
  }

  lemma DotBeyondPrefix(t: string, p: string, d: nat)
    requires p <= t && d <= |t| && (d == |t| || t[d] == '.')
    requires forall i :: 0 <= i < |p| ==> p[i] != '.'
    ensures d >= |p|
  {
    assert forall i :: 0 <= i < |p| ==> t[i] == p[i];
  }

  /** Renaming to .jpg never leaves the asset's own part of the store. */
  lemma ReplaceKeepsOwner(key: string, id: string)
    requires ValidId(id) && OwnedBy(key, id)
    ensures OwnedBy(ReplaceWithJPGExtension(key), id)
  {
    TrimKeepsOwner(key, id);
    PrefixIsDense(id);
    var t := TrimSpace(key);
    var e := Ext(t);
    var d := |t| - |e|;
    DotBeyondPrefix(t, OwnerPrefix(id), d);
    assert (t[..d] + ".jpg")[..44] == t[..44] == OwnerPrefix(id);
  }

  lemma ExtStep(t: string, k: nat)
    requires k < |t| && Ext(t[..k]) != "" && t[k] != '.' && t[k] != '/'
    ensures Ext(t[..k + 1]) == Ext(t[..k]) + [t[k]]
  {
    assert t[..k + 1][..k] == t[..k];
  }

  /** A dot and three characters that are neither a dot nor a slash. */
  lemma ExtAtEnd(t: string)
    requires |t| >= 4 && t[|t| - 4] == '.'
    requires forall i :: |t| - 4 < i < |t| ==> t[i] != '.' && t[i] != '/'
    ensures Ext(t) == t[|t| - 4..]
  {
    var n := |t| - 4;
    assert t[..n + 1][n] == '.';
    assert Ext(t[..n + 1]) == ".";
    ExtStep(t, n + 1);
    ExtStep(t, n + 2);
    ExtStep(t, n + 3);
    assert t[..n + 4] == t;
    assert t[n..] == "." + [t[n + 1]] + [t[n + 2]] + [t[n + 3]];
  }

  lemma ExtOfStem(stem: string)
    ensures Ext(stem + ".jpg") == ".jpg"
  {
    var t := stem + ".jpg";
    assert t[|t| - 4..] == ".jpg";
    assert t[|stem|] == '.' && t[|stem| + 1] == 'j' && t[|stem| + 2] == 'p' && t[|stem| + 3] == 'g';
    ExtAtEnd(t);
  }

  /** A last element with nothing but one dot at its start, or nothing. */
  predicate IsExtension(e: string) {
    e == "" || (e[0] == '.' && '.' !in e[1..] && '/' !in e)
  }

  /** A slash follows every dot. */
  ghost predicate HasNoExtension(s: string) {
    forall i :: 0 <= i < |s| && s[i] == '.' ==> exists j :: i < j < |s| && s[j] == '/'
  }

  /** The same name with .jpg for its extension, or at its end if it has none. */
  ghost predicate Renamed(from: string, to: string) {
    exists stem: string, e :: TrimSpace(from) == stem + e && IsExtension(e) && (e == "" ==> HasNoExtension(stem))
                              && to == stem + ".jpg"
  }

  lemma ReplaceRenames(value: string)
    ensures TrimSpace(value) != "" ==> Renamed(value, ReplaceWithJPGExtension(value))
    ensures TrimSpace(value) == "" ==> ReplaceWithJPGExtension(value) == ""
  {
    var t := TrimSpace(value);
    if t != "" { StemAndExtension(t); }
  }

  lemma StemAndExtension(t: string)
    ensures var stem := t[..|t| - |Ext(t)|];
            t == stem + Ext(t) && IsExtension(Ext(t)) && (Ext(t) == "" ==> HasNoExtension(stem))
  {
    if Ext(t) == "" {
      assert t[..|t|] == t;
      forall i | 0 <= i < |t| && t[i] == '.' ensures exists j :: i < j < |t| && t[j] == '/' { NoExtension(t, i); }
    }
  }

  /** The extension is .jpg, in any case, exactly if the name ends so. */
  lemma ExtIsJPG(t: string)
    ensures EqualFold(Ext(t), ".jpg") <==> |t| >= 4 && EqualFold(t[|t| - 4..], ".jpg")
  {
    if |t| >= 4 { JPGAtEnd(t, t[|t| - 4..]); }
  }

  lemma JPGAtEnd(t: string, e: string)
    requires |t| >= 4 && e == t[|t| - 4..]
    ensures EqualFold(e, ".jpg") ==> Ext(t) == e
  {
    if EqualFold(e, ".jpg") {
      JPGLetters(e);
      AtEnd(t, e);
      ExtAtEnd(t);
    }
  }

  lemma AtEnd(t: string, e: string)
    requires |t| >= 4 && e == t[|t| - 4..]
    requires e[0] == '.' && forall i :: 0 < i < 4 ==> e[i] != '.' && e[i] != '/'
    ensures t[|t| - 4] == '.' && forall i :: |t| - 4 < i < |t| ==> t[i] != '.' && t[i] != '/'
  {
    forall i | |t| - 4 < i < |t| ensures t[i] != '.' && t[i] != '/' {
      assert t[i] == e[i - (|t| - 4)];
    }
  }

  lemma JPGLetters(e: string)
    requires EqualFold(e, ".jpg")
    ensures |e| == 4 && e[0] == '.' && forall i :: 0 < i < 4 ==> e[i] != '.' && e[i] != '/'
  {
    assert ".jpg"[0] == '.' && ".jpg"[1] == 'j' && ".jpg"[2] == 'p' && ".jpg"[3] == 'g';
  }

  /** What replacing does to a name that needs no trimming. */
  function ReplacedStem(t: string): string {
    t[..|t| - |Ext(t)|] + ".jpg"
  }

  lemma StemIsTrimmed(t: string)
    requires Untrimmable(t) && t != ""
    ensures ReplacedStem(t) != "" && Untrimmable(ReplacedStem(t)) && Ext(ReplacedStem(t)) == ".jpg"
  {
    var stem := t[..|t| - |Ext(t)|];
    ExtOfStem(stem);
    var r := stem + ".jpg";
    assert r[|r| - 1] == 'g';
    assert r[0] == if stem == "" then '.' else t[0];
  }

  lemma StemStays(t: string)
    requires Untrimmable(t) && t != ""
    ensures ReplacedStem(ReplacedStem(t)) == ReplacedStem(t)
  {
    StemIsTrimmed(t);
    var stem := t[..|t| - |Ext(t)|];
    assert (stem + ".jpg")[..|stem|] == stem;
  }

  /** A non-blank name ends in .jpg afterwards, needs no trimming, and is a fixed point. */
  lemma ReplacedIsJPG(value: string)
    requires TrimSpace(value) != ""
    ensures var r := ReplaceWithJPGExtension(value);
      r != "" && TrimSpace(r) == r && Ext(r) == ".jpg" && ReplaceWithJPGExtension(r) == r
  {
    var t := TrimSpace(value);
    StemIsTrimmed(t);
    StemStays(t);
  }

  /** A file name of letters. */
  predicate IsPlainName(name: string) {
    name != "" && forall i :: 0 <= i < |name| ==> 'a' <= name[i] <= 'z'
  }

  lemma {:induction false} NoSlashNothingStripped(s: string)
    requires s != "" && '/' !in s
    ensures AfterLastSlash(s) == s && StripSlashes(s) == s
    decreases |s|
  {
    assert s[|s| - 1] in s;
    if |s| == 1 {
      assert s[..0] == "" && s == [s[0]];
    } else {
      NoSlashNothingStripped(s[..|s| - 1]);
      assert s == s[..|s| - 1] + [s[|s| - 1]];
    }
  }

  /** The path with `n` slashes at its end. */
  function WithSlashes(s: string, n: nat): string {
    if n == 0 then s else WithSlashes(s, n - 1) + "/"
  }

  /** The base of a path is what follows its last slash; slashes at the end do not count. */
  lemma BaseIsLast(dir: string, name: string, n: nat)
    requires name != "" && '/' !in name
    ensures Base(WithSlashes(dir + "/" + name, n)) == name && Base(WithSlashes(name, n)) == name
  {
    NoSlashNothingStripped(name);
    SlashesStripped(name, n);
    SlashesStripped(dir + "/" + name, n);
    AfterSlash(dir, name);
    LastOfName(dir, name);
  }

  lemma LastOfName(dir: string, name: string)
    requires name != "" && '/' !in name
    ensures StripSlashes(dir + "/" + name) == dir + "/" + name
  {
    var s := dir + "/" + name;
    assert s[|s| - 1] == name[|name| - 1] && name[|name| - 1] in name;
  }

  lemma {:induction false} SlashesStripped(s: string, n: nat)
    requires s != ""
    ensures WithSlashes(s, n) != "" && StripSlashes(WithSlashes(s, n)) == StripSlashes(s)
    decreases n
  {
    if n == 0 {
    } else {
      var fewer := WithSlashes(s, n - 1);
      SlashesStripped(s, n - 1);
      assert (fewer + "/")[..|fewer|] == fewer;
    }
  }

  lemma {:induction false} AfterSlash(dir: string, name: string)
    requires '/' !in name
    ensures AfterLastSlash(dir + "/" + name) == name
    decreases |name|
  {
    var s := dir + "/" + name;
    if name == "" {
    } else {
      var front := name[..|name| - 1];
      assert name[|name| - 1] in name;
      AfterSlash(dir, front);
      assert s[..|s| - 1] == dir + "/" + front;
    }
  }

  lemma NothingDashed(base: string)
    requires ' ' !in base
    ensures DashSpaces(base) == base
  {
    forall i | 0 <= i < |base| ensures base[i] != ' ' { assert base[i] in base; }
  }

  lemma WithExtension(name: string)
    requires IsPlainName(name)
    ensures var s := name + ".jpg"; |s| > 1 && '/' !in s && ' ' !in s && Untrimmable(s)
  {
    var s := name + ".jpg";
    assert s[|s| - 1] == 'g' && s[0] == name[0];
    forall c | c in s ensures c != '/' && c != ' ' {
      assert c in name || c in ".jpg";
    }
  }

  /** A key is made of the identifier and of what follows the last slash of the name, with dashes for spaces. */
  lemma KeyOfBase(id: string, path: string, base: string)
    requires ValidId(id) && Base(TrimSpace(path)) == base
    ensures BuildStorageKey(id, path) ==
            "assets/" + id + "-" + if base == "." || base == "/" then "file" else DashSpaces(base)
  {
    ValidIdIsTrimmed(id);
    KeyParts(id, base);
  }

  lemma KeyParts(id: string, base: string)
    requires base != ""
    ensures OwnerPrefix(id) + NameOrDefault(DashSpaces(base)) ==
            "assets/" + id + "-" + if base == "." || base == "/" then "file" else DashSpaces(base)
  {
    assert OwnerPrefix(id) == "assets/" + id + "-";
    DefaultMeans(base);
  }

  lemma DefaultMeans(base: string)
    requires base != ""
    ensures NameOrDefault(DashSpaces(base)) == if base == "." || base == "/" then "file" else DashSpaces(base)
  {
    if |base| == 1 { assert base == [base[0]]; }
  }

  /** The key of a plain file name ends in that name. */
  lemma PlainKey(id: string, name: string)
    requires ValidId(id) && IsPlainName(name)
    ensures BuildStorageKey(id, name + ".jpg") == (OwnerPrefix(id) + name) + ".jpg"
  {
    WithExtension(name);
    NoSlashNothingStripped(name + ".jpg");
    NothingDashed(name + ".jpg");
    var base := name + ".jpg";
    assert |base| > 1 && base != "." && base != "/";
    KeyOfBase(id, base, base);
    assert OwnerPrefix(id) + (name + ".jpg") == OwnerPrefix(id) + name + ".jpg";
  }

  lemma OwnerPrefixIsDense(id: string, name: string)
    requires ValidId(id)
    ensures OwnerPrefix(id) + name != "" && !IsSpace((OwnerPrefix(id) + name)[0])
  {
    PrefixIsDense(id);
    assert (OwnerPrefix(id) + name)[0] == OwnerPrefix(id)[0];
  }
}
