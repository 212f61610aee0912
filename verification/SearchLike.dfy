/** The LIKE predicate of ISO/IEC 9075-2, section 8.5, with backslash as the escape character. */
module LikePatterns {
  /** An escape character is followed by a wildcard or by itself. */
  predicate WellFormed(p: string) {
    if p == "" then true
    else if p[0] != '\\' then WellFormed(p[1..])
    else |p| > 1 && p[1] in "%_\\" && WellFormed(p[2..])
  }

  /** How a collation compares characters; the special characters stand for themselves. */
  ghost predicate IsCollation(fold: char -> char) {
    forall c :: c in "%_\\" ==> fold(c) == c && forall d :: fold(d) == c ==> d == c
  }

  predicate Matches(fold: char -> char, v: string, p: string)
    decreases |p|, |v|
  {
    if p == "" then v == ""
    else if p[0] == '%' then Matches(fold, v, p[1..]) || (v != "" && Matches(fold, v[1..], p))
    else if v == "" then false
    else if p[0] == '_' then Matches(fold, v[1..], p[1..])
    else if p[0] == '\\' then |p| > 1 && fold(v[0]) == fold(p[1]) && Matches(fold, v[1..], p[2..])
    else fold(v[0]) == fold(p[0]) && Matches(fold, v[1..], p[1..])
  }

  /** A pattern with a malformed escape selects nothing. */
  predicate Like(fold: char -> char, v: string, p: string) {
    WellFormed(p) && Matches(fold, v, p)
  }

  ghost predicate SameText(fold: char -> char, a: string, b: string) {
    |a| == |b| && forall i :: 0 <= i < |a| ==> fold(a[i]) == fold(b[i])
  }

  ghost predicate StartsWith(fold: char -> char, v: string, t: string) {
    |t| <= |v| && SameText(fold, v[..|t|], t)
  }

  /** The collation finds `t` somewhere in `v`. */
  ghost predicate Contains(fold: char -> char, v: string, t: string) {
    exists i: nat :: i <= |v| && StartsWith(fold, v[i..], t)
  }

  lemma {:induction false} AnythingBefore(fold: char -> char, v: string, p: string)
    ensures Matches(fold, v, "%" + p) <==> exists i: nat :: i <= |v| && Matches(fold, v[i..], p)
    decreases |v|
  {
    assert ("%" + p)[1..] == p;
    assert v[0..] == v;
    if v == "" {
    } else {
      AnythingBefore(fold, v[1..], p);
      forall i: nat | 1 <= i <= |v| ensures v[i..] == v[1..][i - 1..] {
      }
    }
  }

  lemma {:induction false} AnythingAfter(fold: char -> char, v: string)
    ensures Matches(fold, v, "%")
    decreases |v|
  {
    assert "%"[1..] == "";
    if v == "" {
    } else {
      AnythingAfter(fold, v[1..]);
    }
  }
}

/** The free-text search of the query builder. */
module SearchLike {
  import opened Text
  import opened LikePatterns

  /** Puts a backslash before each wildcard; a backslash of the term itself stays as it is. */
  function EscapeLike(s: string): string {
    if s == "" then ""
    else (if s[0] == '%' || s[0] == '_' then ['\\', s[0]] else [s[0]]) + EscapeLike(s[1..])
  }

  function PatternFor(trimmed: string): string {
    "%" + EscapeLike(trimmed) + "%"
  }

  /** The escaped rest of a term, closed by the trailing wildcard. */
  function Tail(t: string): string {
    EscapeLike(t) + "%"
  }

  lemma TailSteps(t: string)
    requires t != ""
    ensures t[0] == '%' || t[0] == '_' ==> Tail(t) == ['\\', t[0]] + Tail(t[1..])
    ensures t[0] != '%' && t[0] != '_' ==> Tail(t) == [t[0]] + Tail(t[1..])
  {
  }

  lemma {:induction false} PlainTermMatchesPrefix(fold: char -> char, v: string, t: string)
    requires IsCollation(fold) && '\\' !in t
    ensures WellFormed(Tail(t))
    ensures Matches(fold, v, Tail(t)) <==> StartsWith(fold, v, t)
    decreases |t|
  {
    if t == "" {
      assert Tail(t) == "%";
      AnythingAfter(fold, v);
    } else {
      TailSteps(t);
      var rest := Tail(t[1..]);
      PlainTermMatchesPrefix(fold, "", t[1..]);
      if t[0] == '%' || t[0] == '_' {
        assert Tail(t)[2..] == rest;
      } else {
        assert Tail(t)[1..] == rest;
      }
      if v != "" {
        PlainTermMatchesPrefix(fold, v[1..], t[1..]);
        StartsWithSteps(fold, v, t);
      }
    }
  }

  lemma StartsWithSteps(fold: char -> char, v: string, t: string)
    requires v != "" && t != ""
    ensures StartsWith(fold, v, t) <==> fold(v[0]) == fold(t[0]) && StartsWith(fold, v[1..], t[1..])
  {
    if |t| <= |v| {
      assert v[..|t|][0] == v[0];
      assert forall i :: 0 <= i < |t| - 1 ==> v[1..][..|t| - 1][i] == v[..|t|][i + 1] && t[1..][i] == t[i + 1];
      if StartsWith(fold, v[1..], t[1..]) && fold(v[0]) == fold(t[0]) {
        forall i | 0 <= i < |t| ensures fold(v[..|t|][i]) == fold(t[i]) {
          if i > 0 { assert fold(v[1..][..|t| - 1][i - 1]) == fold(t[1..][i - 1]); }
        }
      }
    }
  }

  /** Without a backslash in the term, the pattern selects exactly the values that contain the term. */
  lemma PlainTermMeansContains(fold: char -> char, v: string, t: string)
    requires IsCollation(fold) && '\\' !in t
    ensures Like(fold, v, PatternFor(t)) <==> Contains(fold, v, t)
  {
    assert PatternFor(t) == "%" + Tail(t);
    AnythingBefore(fold, v, Tail(t));
    PlainTermMatchesPrefix(fold, "", t);
    assert ("%" + Tail(t))[1..] == Tail(t);
    forall i: nat | i <= |v| ensures Matches(fold, v[i..], Tail(t)) <==> StartsWith(fold, v[i..], t) {
      PlainTermMatchesPrefix(fold, v[i..], t);
    }
  }

  // ----- terms with a backslash -----

  /** A shortest value that the escaped term and the trailing wildcard select; `other` stands for the free character. */
  function Shortest(t: string, other: char): string {
    if t == "" then ""
    else if t[0] != '\\' then [t[0]] + Shortest(t[1..], other)
    else if |t| == 1 then "%"
    else if t[1] == '_' then ['\\', other] + Shortest(t[2..], other)
    else "\\" + Shortest(t[2..], other)
  }

  lemma {:induction false} ShortestIsSelected(fold: char -> char, t: string, other: char)
    requires WellFormed(Tail(t))
    ensures Matches(fold, Shortest(t, other), Tail(t))
    decreases |t|
  {
    if t == "" {
      assert Tail(t) == "%";
      AnythingAfter(fold, "");
    } else {
      TailSteps(t);
      var v := Shortest(t, other);
      if t[0] == '%' || t[0] == '_' {
        assert Tail(t)[2..] == Tail(t[1..]) && v[1..] == Shortest(t[1..], other);
        ShortestIsSelected(fold, t[1..], other);
      } else if t[0] != '\\' {
        assert Tail(t)[1..] == Tail(t[1..]) && v[1..] == Shortest(t[1..], other);
        ShortestIsSelected(fold, t[1..], other);
      } else if |t| == 1 {
        assert Tail(t) == "\\%";
      } else {
        EscapedTwice(fold, t, other);
      }
    }
  }

  lemma EscapedTwice(fold: char -> char, t: string, other: char)
    requires |t| > 1 && t[0] == '\\' && WellFormed(Tail(t))
    ensures Matches(fold, Shortest(t, other), Tail(t))
    decreases |t|, 0
  {
    TailSteps(t);
    TailSteps(t[1..]);
    assert t[1..][1..] == t[2..];
    var rest, v := Tail(t[2..]), Shortest(t[2..], other);
    assert Tail(t)[1] in "%_\\";
    if t[1] == '%' || t[1] == '_' {
      assert Tail(t) == ['\\', '\\', t[1]] + rest;
      assert Tail(t)[2..] == [t[1]] + rest && ([t[1]] + rest)[1..] == rest;
      ShortestIsSelected(fold, t[2..], other);
      if t[1] == '%' {
        assert Shortest(t, other)[1..] == v;
      } else {
        assert Shortest(t, other)[1..] == [other] + v && ([other] + v)[1..] == v;
      }
    } else {
      assert Tail(t) == ['\\', t[1]] + rest;
      assert t[1] == '\\' && Tail(t)[2..] == rest && Shortest(t, other)[1..] == v;
      ShortestIsSelected(fold, t[2..], other);
    }
  }

  lemma TailsAreSame(fold: char -> char, v: string, t: string)
    requires SameText(fold, v, t) && t != ""
    ensures SameText(fold, v[1..], t[1..])
  {
    forall i | 0 <= i < |t| - 1 ensures fold(v[1..][i]) == fold(t[1..][i]) {
      assert fold(v[i + 1]) == fold(t[i + 1]);
    }
  }

  lemma {:induction false} ShortestIsDifferent(fold: char -> char, t: string, other: char)
    requires IsCollation(fold) && fold(other) != '_' && '\\' in t
    ensures |Shortest(t, other)| <= |t| && !SameText(fold, Shortest(t, other), t)
    decreases |t|
  {
    var v := Shortest(t, other);
    if t[0] != '\\' {
      ShortestIsDifferent(fold, t[1..], other);
      if SameText(fold, v, t) { TailsAreSame(fold, v, t); }
    } else if |t| == 1 {
      assert v == "%" && fold(v[0]) != fold(t[0]);
    } else {
      ShortestIsShort(t[2..], other);
      if t[1] == '_' { assert fold(v[1]) != fold(t[1]); }
    }
  }

  lemma {:induction false} ShortestIsShort(t: string, other: char)
    ensures |Shortest(t, other)| <= |t|
    decreases |t|
  {
    if t == "" {
    } else {
      ShortestIsShort(t[1..], other);
      if |t| > 1 { ShortestIsShort(t[2..], other); }
    }
  }

  lemma ShortContainsOnlyItself(fold: char -> char, v: string, t: string)
    requires |v| <= |t| && Contains(fold, v, t)
    ensures SameText(fold, v, t)
  {
    var i: nat :| i <= |v| && StartsWith(fold, v[i..], t);
    assert i == 0 && |v| == |t|;
    assert v[0..] == v && v[..|t|] == v;
  }

  /** A term with a backslash always selects wrongly for some value. */
  lemma BackslashMisleads(fold: char -> char, t: string, other: char) returns (v: string)
    requires IsCollation(fold) && fold(other) != '_' && '\\' in t
    ensures Like(fold, v, PatternFor(t)) != Contains(fold, v, t)
  {
    assert PatternFor(t) == "%" + Tail(t);
    assert ("%" + Tail(t))[1..] == Tail(t);
    if WellFormed(Tail(t)) {
      v := Shortest(t, other);
      ShortestIsSelected(fold, t, other);
      AnythingBefore(fold, v, Tail(t));
      assert v[0..] == v;
      ShortestIsDifferent(fold, t, other);
      if Contains(fold, v, t) { ShortContainsOnlyItself(fold, v, t); }
    } else {
      v := t;
      assert t[0..] == t && t[..|t|] == t;
      assert StartsWith(fold, t[0..], t);
    }
  }

  /** The search means "contains" for exactly the terms without a backslash. */
  lemma MeansContainsExactly(fold: char -> char, t: string, other: char)
    requires IsCollation(fold) && fold(other) != '_'
    ensures (forall v :: Like(fold, v, PatternFor(t)) <==> Contains(fold, v, t)) <==> '\\' !in t
  {
    if '\\' in t {
      var v := BackslashMisleads(fold, t, other);
    } else {
      forall v ensures Like(fold, v, PatternFor(t)) <==> Contains(fold, v, t) {
        PlainTermMeansContains(fold, v, t);
      }
    }
  }

  // ----- the where clause -----

  /** The text columns of a row; a column without a text value is missing. */
  type TextRow = map<string, string>

  datatype Clause = Clause(field: string, pattern: string)

  /** The clauses are joined by OR. */
  predicate AnyHolds(fold: char -> char, row: TextRow, clauses: seq<Clause>) {
    exists i :: 0 <= i < |clauses| && clauses[i].field in row
                && Like(fold, row[clauses[i].field], clauses[i].pattern)
  }

  ghost predicate Found(fold: char -> char, row: TextRow, trimmed: string, fields: seq<string>) {
    trimmed == "" || fields == [] || exists f :: f in fields && f in row && Contains(fold, row[f], trimmed)
  }

  /** The condition for a search term, or none when there is nothing to search for. */
  method ApplyTextSearch(term: string, fields: seq<string>) returns (clauses: seq<Clause>)
    ensures clauses == TextClauses(TrimSpace(term), fields)
  {
    var trimmed := TrimSpace(term);
    if trimmed == "" || |fields| == 0 {
      return [];
    }
    clauses := OneClausePerField(PatternFor(trimmed), fields);
  }

  method OneClausePerField(pattern: string, fields: seq<string>) returns (clauses: seq<Clause>)
    ensures clauses == ClausesFor(pattern, fields)
  {
    clauses := [];
    for n := 0 to |fields|
      invariant |clauses| == n && forall i :: 0 <= i < n ==> clauses[i] == Clause(fields[i], pattern)
    {
      clauses := clauses + [Clause(fields[n], pattern)];
    }
  }

  function ClausesFor(pattern: string, fields: seq<string>): seq<Clause> {
    seq(|fields|, i requires 0 <= i < |fields| => Clause(fields[i], pattern))
  }

  function TextClauses(trimmed: string, fields: seq<string>): seq<Clause> {
    if trimmed == "" then [] else ClausesFor(PatternFor(trimmed), fields)
  }

  /** No clause means no restriction. */
  predicate Selected(fold: char -> char, row: TextRow, clauses: seq<Clause>) {
    clauses == [] || AnyHolds(fold, row, clauses)
  }

  /** The rows selected are those with the term in one of the text fields, if the term has no backslash. */
  lemma TextSearchMeaning(fold: char -> char, row: TextRow, trimmed: string, fields: seq<string>)
    requires IsCollation(fold) && '\\' !in trimmed
    ensures Selected(fold, row, TextClauses(trimmed, fields)) <==> Found(fold, row, trimmed, fields)
  {
    var clauses := TextClauses(trimmed, fields);
    if trimmed != "" && fields != [] {
      forall f | f in row ensures Like(fold, row[f], PatternFor(trimmed)) <==> Contains(fold, row[f], trimmed) {
        PlainTermMeansContains(fold, row[f], trimmed);
      }
      if f :| f in fields && f in row && Contains(fold, row[f], trimmed) {
        var i :| 0 <= i < |fields| && fields[i] == f;
        assert clauses[i].field == f;
      }
    }
  }

  // ----- letter case -----

  lemma {:induction false} EscapeKeepsCase(s: string)
    ensures ToLower(EscapeLike(s)) == EscapeLike(ToLower(s))
    decreases |s|
  {
    if s == "" {
    } else {
      EscapeKeepsCase(s[1..]);
      assert ToLower(s)[1..] == ToLower(s[1..]);
    }
  }

  /** The collation does not tell a character from its lower-case form. */
  ghost predicate IgnoresCase(fold: char -> char) {
    forall c {:trigger LowerChar(c)} :: fold(LowerChar(c)) == fold(c)
  }

  /** With a collation that ignores case, the case of the pattern does not matter. */
  lemma {:induction false} CaseOfPattern(fold: char -> char, v: string, p: string)
    requires IgnoresCase(fold)
    ensures Matches(fold, v, p) <==> Matches(fold, v, ToLower(p))
    ensures WellFormed(p) <==> WellFormed(ToLower(p))
    decreases |p|, |v|
  {
    if p == "" {
    } else {
      var q := ToLower(p);
      assert q[1..] == ToLower(p[1..]);
      CaseOfPattern(fold, v, p[1..]);
      if v != "" {
        CaseOfPattern(fold, v[1..], p);
        CaseOfPattern(fold, v[1..], p[1..]);
      }
      if |p| > 1 {
        assert q[2..] == ToLower(p[2..]);
        CaseOfPattern(fold, v, p[2..]);
        if v != "" { CaseOfPattern(fold, v[1..], p[2..]); }
      }
    }
  }

  lemma CaseOfTerm(fold: char -> char, v: string, s: string, t: string)
    requires IgnoresCase(fold) && ToLower(s) == ToLower(t)
    ensures Like(fold, v, PatternFor(s)) <==> Like(fold, v, PatternFor(t))
  {
    LoweredPattern(s);
    LoweredPattern(t);
    CaseOfPattern(fold, v, PatternFor(s));
    CaseOfPattern(fold, v, PatternFor(t));
  }

  lemma LoweredPattern(s: string)
    ensures ToLower(PatternFor(s)) == PatternFor(ToLower(s))
  {
    EscapeKeepsCase(s);
  }
}
