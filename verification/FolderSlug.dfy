/** Slugs made from folder names. */
module FolderSlug {
  import opened Text

  predicate IsAlnum(c: char) {
    'a' <= c <= 'z' || '0' <= c <= '9'
  }

  /** Replaces spaces, then every character that is not allowed, by a dash. */
  function Sanitize(s: string): (r: string)
    ensures |r| == |s|
    ensures forall i :: 0 <= i < |s| ==> r[i] == if IsAlnum(s[i]) then s[i] else '-'
  {
    seq(|s|, i requires 0 <= i < |s| =>
      var c := if s[i] == ' ' then '-' else s[i];
      if IsAlnum(c) || c == '-' then c else '-')
  }

  /** Replaces every run of dashes by one dash. */
  function Collapse(s: string): string {
    if |s| > 1 && s[0] == '-' && s[1] == '-' then Collapse(s[1..])
    else if s == "" then ""
    else [s[0]] + Collapse(s[1..])
  }

  function TrimDashesLeft(s: string): string {
    if s != "" && s[0] == '-' then TrimDashesLeft(s[1..]) else s
  }

  function TrimDashesRight(s: string): string {
    if s != "" && s[|s| - 1] == '-' then TrimDashesRight(s[..|s| - 1]) else s
  }

  function SlugOf(lowered: string): string {
    TrimDashesRight(TrimDashesLeft(Collapse(Sanitize(lowered))))
  }

  function BuildFolderSlug(name: string): string {
    SlugOf(ToLower(TrimSpace(name)))
  }

  // ----- what a slug is -----

  /** The maximal runs of letters and digits, in order. */
  function Words(s: string): (r: seq<string>)
    ensures forall w :: w in r ==> IsWord(w)
    ensures s != "" && IsAlnum(s[0]) ==> r != []
  {
    if s == "" then []
    else if !IsAlnum(s[0]) then Words(s[1..])
    else if |s| > 1 && IsAlnum(s[1]) then
      var rest := Words(s[1..]);
      var first := [s[0]] + rest[0];
      assert rest[0] in rest && IsWord(first);
      [first] + rest[1..]
    else [[s[0]]] + Words(s[1..])
  }

  predicate IsWord(w: string) {
    w != "" && forall i :: 0 <= i < |w| ==> IsAlnum(w[i])
  }

  function JoinWords(words: seq<string>): string {
    if words == [] then ""
    else if |words| == 1 then words[0]
    else words[0] + "-" + JoinWords(words[1..])
  }

  /** Lower-case letters, digits and dashes; no two dashes in a row, none at either end. */
  predicate IsSlug(s: string) {
    && (forall i :: 0 <= i < |s| ==> IsAlnum(s[i]) || s[i] == '-')
    && (forall i :: 0 < i < |s| ==> s[i - 1] != '-' || s[i] != '-')
    && (s != "" ==> s[0] != '-' && s[|s| - 1] != '-')
  }

  lemma {:induction false} WordsOfSanitized(s: string)
    ensures Words(Sanitize(s)) == Words(s)
    decreases |s|
  {
    if s == "" {
    } else {
      WordsOfSanitized(s[1..]);
      assert Sanitize(s)[1..] == Sanitize(s[1..]);
    }
  }

  predicate IsSanitized(s: string) {
    forall i :: 0 <= i < |s| ==> IsAlnum(s[i]) || s[i] == '-'
  }

  function Dash(b: bool): string {
    if b then "-" else ""
  }

  lemma JoinTail(first: string, rest: seq<string>)
    requires rest != []
    ensures JoinWords([first] + rest) == first + "-" + JoinWords(rest)
  {
    assert ([first] + rest)[1..] == rest;
  }

  lemma JoinHead(first: string, rest: seq<string>, c: char)
    ensures JoinWords([[c] + first] + rest) == [c] + JoinWords([first] + rest)
  {
    assert ([[c] + first] + rest)[1..] == rest == ([first] + rest)[1..];
    if rest != [] { assert [c] + (first + "-" + JoinWords(rest)) == [c] + first + "-" + JoinWords(rest); }
  }

  /** Between a leading and a trailing dash, the collapsed name is its words, joined by dashes. */
  ghost predicate IsCollapsed(s: string) {
    && (Words(s) == [] ==> Collapse(s) == Dash(s != ""))
    && (Words(s) != [] ==> Collapse(s) == Dash(s[0] == '-') + JoinWords(Words(s)) + Dash(s[|s| - 1] == '-'))
  }

  lemma {:induction false} CollapsedIsJoined(s: string)
    requires IsSanitized(s)
    ensures IsCollapsed(s)
    decreases |s|
  {
    if |s| == 1 {
      assert s == [s[0]] && s[1..] == "";
    } else if s != "" {
      CollapsedIsJoined(s[1..]);
      if s[0] != '-' { StartsWithLetter(s); } else { StartsWithDash(s); }
    }
  }

  lemma StartsWithDash(s: string)
    requires IsSanitized(s) && |s| > 1 && s[0] == '-' && IsCollapsed(s[1..])
    ensures IsCollapsed(s)
  {
    var t := s[1..];
    assert t[|t| - 1] == s[|s| - 1] && Words(s) == Words(t);
    if t[0] != '-' {
      assert Words(t) != [];
      assert Collapse(s) == "-" + Collapse(t);
      assert Dash(false) + JoinWords(Words(t)) == JoinWords(Words(t));
    } else {
      assert Collapse(s) == Collapse(t);
    }
  }

  lemma StartsWithLetter(s: string)
    requires IsSanitized(s) && |s| > 1 && s[0] != '-' && IsCollapsed(s[1..])
    ensures Words(s) != [] && Collapse(s) == JoinWords(Words(s)) + Dash(s[|s| - 1] == '-')
  {
    var t := s[1..];
    assert Collapse(s) == [s[0]] + Collapse(t);
    if IsAlnum(t[0]) {
      LongerWord(s[0], Words(t), Dash(t[|t| - 1] == '-'));
      assert Dash(false) + JoinWords(Words(t)) == JoinWords(Words(t));
    } else if Words(t) == [] {
      NoWordsNoLetters(t, |t| - 1);
    } else {
      NewWord(s[0], Words(t), Dash(t[|t| - 1] == '-'));
    }
  }

  lemma LongerWord(c: char, words: seq<string>, last: string)
    requires words != []
    ensures [c] + (JoinWords(words) + last) == JoinWords([[c] + words[0]] + words[1..]) + last
  {
    assert words == [words[0]] + words[1..];
    JoinHead(words[0], words[1..], c);
  }

  lemma NewWord(c: char, words: seq<string>, last: string)
    requires words != []
    ensures [c] + ("-" + JoinWords(words) + last) == JoinWords([[c]] + words) + last
  {
    JoinTail([c], words);
  }

  lemma {:induction false} NoWordsNoLetters(s: string, i: nat)
    requires Words(s) == [] && i < |s|
    ensures !IsAlnum(s[i])
    decreases |s|
  {
    if i == 0 {
    } else {
      NoWordsNoLetters(s[1..], i - 1);
    }
  }

  lemma {:induction false} JoinedShape(words: seq<string>)
    requires forall w :: w in words ==> IsWord(w)
    ensures IsSlug(JoinWords(words)) && (JoinWords(words) == "" <==> words == [])
    decreases |words|
  {
    if words == [] {
    } else {
      assert words[0] in words;
    }
    if |words| > 1 {
      JoinedShape(words[1..]);
      DashBetween(words[0], JoinWords(words[1..]));
    }
  }

  lemma DashBetween(w: string, s: string)
    requires IsWord(w) && IsSlug(s) && s != ""
    ensures IsSlug(w + "-" + s)
  {
    var r := w + "-" + s;
    forall i | 0 <= i < |r| ensures IsAlnum(r[i]) || r[i] == '-' {
      if i > |w| { assert r[i] == s[i - |w| - 1]; }
    }
    forall i | 0 < i < |r| ensures r[i - 1] != '-' || r[i] != '-' {
      if i < |w| {
        assert r[i] == w[i];
      } else if i > |w| + 1 {
        assert r[i] == s[i - |w| - 1] && r[i - 1] == s[i - |w| - 2];
      }
    }
  }

  lemma LeftDashTrimmed(a: bool, s: string)
    requires s != "" && s[0] != '-'
    ensures TrimDashesLeft(Dash(a) + s) == s
  {
    if a { assert ("-" + s)[1..] == s; } else { assert "" + s == s; }
  }

  lemma RightDashTrimmed(s: string, b: bool)
    requires s != "" && s[|s| - 1] != '-'
    ensures TrimDashesRight(s + Dash(b)) == s
  {
    if b { assert (s + "-")[..|s|] == s; } else { assert s + "" == s; }
  }

  lemma DashesTrimmed(a: bool, s: string, b: bool)
    requires s != "" && s[0] != '-' && s[|s| - 1] != '-'
    ensures TrimDashesRight(TrimDashesLeft(Dash(a) + s + Dash(b))) == s
  {
    var t := s + Dash(b);
    assert Dash(a) + s + Dash(b) == Dash(a) + t;
    LeftDashTrimmed(a, t);
    RightDashTrimmed(s, b);
  }

  /** The slug of a name: its words of letters and digits, in lower case, joined by dashes. */
  lemma SlugIsJoinedWords(lowered: string)
    ensures SlugOf(lowered) == JoinWords(Words(lowered)) && IsSlug(SlugOf(lowered))
  {
    var s := Sanitize(lowered);
    WordsOfSanitized(lowered);
    CollapsedIsJoined(s);
    JoinedShape(Words(s));
    if Words(s) != [] {
      DashesTrimmed(s[0] == '-', JoinWords(Words(s)), s[|s| - 1] == '-');
    } else {
      assert Dash(true)[1..] == "";
    }
  }

  lemma {:induction false} LastIsNoLetter(s: string)
    requires s != "" && !IsAlnum(s[|s| - 1])
    ensures Words(s[..|s| - 1]) == Words(s)
    decreases |s|
  {
    var front := s[..|s| - 1];
    if |s| == 1 {
    } else {
      LastIsNoLetter(s[1..]);
      assert s[1..][..|s| - 2] == front[1..];
      if |s| == 2 { assert front[1..] == ""; }
    }
  }

  lemma LoweredSpace(c: char)
    requires IsSpace(c)
    ensures !IsAlnum(LowerChar(c))
  {
  }

  /** White space around a name does not change its words. */
  lemma {:induction false} WordsOfTrimmed(name: string)
    ensures Words(ToLower(TrimSpace(name))) == Words(ToLower(name))
    decreases |name|
  {
    if name != "" && IsSpace(name[0]) {
      LoweredSpace(name[0]);
      WordsOfTrimmed(name[1..]);
      assert ToLower(name)[1..] == ToLower(name[1..]);
    } else if name != "" && IsSpace(name[|name| - 1]) {
      LoweredSpace(name[|name| - 1]);
      WordsOfTrimmed(name[..|name| - 1]);
      LastIsNoLetter(ToLower(name));
      assert ToLower(name)[..|name| - 1] == ToLower(name[..|name| - 1]);
    }
  }

  /** The slug of a name consists of the words of the name in lower case. */
  lemma SlugOfName(name: string)
    ensures BuildFolderSlug(name) == JoinWords(Words(ToLower(name)))
  {
    SlugIsJoinedWords(ToLower(TrimSpace(name)));
    WordsOfTrimmed(name);
  }

  lemma WordsOfSlug(s: string)
    requires IsSlug(s)
    ensures JoinWords(Words(s)) == s
  {
    CollapsedIsJoined(s);
    NothingToCollapse(s);
    if s == "" {
      assert JoinWords(Words(s)) == "";
    } else {
      assert Words(s) != [];
      assert Dash(false) + JoinWords(Words(s)) + Dash(false) == JoinWords(Words(s));
    }
  }

  lemma {:induction false} NothingToCollapse(s: string)
    requires forall i :: 0 < i < |s| ==> s[i - 1] != '-' || s[i] != '-'
    ensures Collapse(s) == s
    decreases |s|
  {
    if s == "" {
    } else {
      NothingToCollapse(s[1..]);
    }
  }

  /** A slug is unchanged by trimming white space and by lower-casing. */
  lemma SlugIsClean(s: string)
    requires IsSlug(s)
    ensures Untrimmable(s) && ToLower(s) == s
  {
    if s != "" {
      assert IsAlnum(s[0]) && IsAlnum(s[|s| - 1]);
    }
  }

  /** Exactly the slugs are their own slugs. */
  lemma FixpointsAreSlugs(name: string)
    ensures BuildFolderSlug(name) == name <==> IsSlug(name)
  {
    SlugIsJoinedWords(ToLower(TrimSpace(name)));
    if IsSlug(name) {
      SlugIsClean(name);
      WordsOfSlug(name);
      SameWhenClean(name);
    }
  }

  lemma SameWhenClean(name: string)
    requires Untrimmable(name) && ToLower(name) == name
    ensures ToLower(TrimSpace(name)) == name
  {
  }

  lemma SlugIsIdempotent(name: string)
    ensures BuildFolderSlug(BuildFolderSlug(name)) == BuildFolderSlug(name)
  {
    SlugIsJoinedWords(ToLower(TrimSpace(name)));
    FixpointsAreSlugs(BuildFolderSlug(name));
  }

  /** A name has no slug exactly if it has no letter or digit. */
  lemma EmptyExactly(lowered: string)
    ensures SlugOf(lowered) == "" <==> forall i :: 0 <= i < |lowered| ==> !IsAlnum(lowered[i])
  {
    SlugIsJoinedWords(lowered);
    JoinedShape(Words(lowered));
    if Words(lowered) == [] {
      forall i | 0 <= i < |lowered| ensures !IsAlnum(lowered[i]) { NoWordsNoLetters(lowered, i); }
    } else if forall i :: 0 <= i < |lowered| ==> !IsAlnum(lowered[i]) {
      NoLettersNoWords(lowered);
    }
  }

  lemma {:induction false} NoLettersNoWords(s: string)
    requires forall i :: 0 <= i < |s| ==> !IsAlnum(s[i])
    ensures Words(s) == []
    decreases |s|
  {
    if s == "" {
    } else {
      NoLettersNoWords(s[1..]);
    }
  }
}
