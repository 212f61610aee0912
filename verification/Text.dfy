/** The string operations of Go's standard library that the modelled code calls, on Unicode scalar values. */
module Text {
  /** The characters that `unicode.IsSpace` accepts. */
  predicate IsSpace(c: char) {
    || '\t' <= c <= '\r' || c == ' ' || c == '\U{85}' || c == '\U{A0}' || c == '\U{1680}'
    || '\U{2000}' <= c <= '\U{200A}' || c == '\U{2028}' || c == '\U{2029}' || c == '\U{202F}'
    || c == '\U{205F}' || c == '\U{3000}'
  }

  predicate Untrimmable(s: string) {
    s == "" || (!IsSpace(s[0]) && !IsSpace(s[|s| - 1]))
  }

  /** Nothing but white space. */
  predicate IsBlank(s: string) {
    forall i :: 0 <= i < |s| ==> IsSpace(s[i])
  }

  /** `strings.TrimSpace`. */
  function TrimSpace(s: string): (r: string)
    ensures Untrimmable(r)
    ensures Untrimmable(s) ==> r == s
    ensures r == "" <==> IsBlank(s)
  {
    if s != "" && IsSpace(s[0]) then TrimSpace(s[1..])
    else if s != "" && IsSpace(s[|s| - 1]) then TrimSpace(s[..|s| - 1])
    else s
  }

  /** `r` starts at position `i` of `s`, with nothing but white space around it. */
  ghost predicate LiesAt(r: string, s: string, i: nat) {
    && i + |r| <= |s|
    && (forall k :: 0 <= k < |r| ==> r[k] == s[i + k])
    && (forall k :: 0 <= k < i ==> IsSpace(s[k]))
    && (forall k :: i + |r| <= k < |s| ==> IsSpace(s[k]))
  }

  /** Trimming takes white space away at both ends, and nothing else. */
  lemma {:induction false} TrimIsSlice(s: string)
    ensures exists i: nat :: LiesAt(TrimSpace(s), s, i)
    decreases |s|
  {
    if s != "" && IsSpace(s[0]) {
      TrimIsSlice(s[1..]);
      var i: nat :| LiesAt(TrimSpace(s[1..]), s[1..], i);
      MoreOnTheLeft(TrimSpace(s[1..]), s, i);
      assert TrimSpace(s) == TrimSpace(s[1..]);
    } else if s != "" && IsSpace(s[|s| - 1]) {
      TrimIsSlice(s[..|s| - 1]);
      var i: nat :| LiesAt(TrimSpace(s[..|s| - 1]), s[..|s| - 1], i);
      MoreOnTheRight(TrimSpace(s[..|s| - 1]), s, i);
      assert TrimSpace(s) == TrimSpace(s[..|s| - 1]);
    } else {
      assert TrimSpace(s) == s && LiesAt(s, s, 0);
    }
  }

  lemma MoreOnTheLeft(r: string, s: string, i: nat)
    requires s != "" && IsSpace(s[0]) && LiesAt(r, s[1..], i)
    ensures LiesAt(r, s, i + 1)
  {
    forall k | 0 < k < |s| ensures s[k] == s[1..][k - 1] {
    }
  }

  lemma MoreOnTheRight(r: string, s: string, i: nat)
    requires s != "" && IsSpace(s[|s| - 1]) && LiesAt(r, s[..|s| - 1], i)
    ensures LiesAt(r, s, i)
  {
    forall k | 0 <= k < |s| - 1 ensures s[k] == s[..|s| - 1][k] {
    }
  }

  /** The case mapping of `strings.ToLower`, exact on every character whose image is ASCII. */
  function LowerChar(c: char): char {
    if 'A' <= c <= 'Z' then c + 32 as char
    else if c == '\U{212A}' then 'k'
    else if c == '\U{130}' then 'i'
    else c
  }

  function ToLower(s: string): (r: string)
    ensures |r| == |s|
    ensures forall i :: 0 <= i < |s| ==> r[i] == LowerChar(s[i])
  {
    seq(|s|, i requires 0 <= i < |s| => LowerChar(s[i]))
  }

  /** The order in which Go compares strings. */
  predicate LexLess(a: string, b: string) {
    b != "" && (a == "" || a[0] < b[0] || (a[0] == b[0] && LexLess(a[1..], b[1..])))
  }

  /** The first difference decides, and a proper prefix comes first. */
  ghost predicate Precedes(a: string, b: string) {
    exists k: nat :: k <= |a| && k < |b| && a[..k] == b[..k] && (k == |a| || a[k] < b[k])
  }

  lemma {:induction false} LexLessMeans(a: string, b: string)
    ensures LexLess(a, b) <==> Precedes(a, b)
    decreases |a|
  {
    if b != "" && a != "" && a[0] == b[0] {
      LexLessMeans(a[1..], b[1..]);
      if k: nat :| k <= |a| && k < |b| && a[..k] == b[..k] && (k == |a| || a[k] < b[k]) {
        assert k > 0 && a[1..][..k - 1] == a[..k][1..] && b[1..][..k - 1] == b[..k][1..];
        assert Precedes(a[1..], b[1..]);
      }
      if k: nat :| k <= |a| - 1 && k < |b| - 1 && a[1..][..k] == b[1..][..k]
                   && (k == |a| - 1 || a[1..][k] < b[1..][k])
      {
        assert a[..k + 1] == [a[0]] + a[1..][..k] && b[..k + 1] == [b[0]] + b[1..][..k];
      }
    } else if LexLess(a, b) {
      assert a[..0] == b[..0];
    }
  }

  lemma LexIrreflexive(a: string)
    ensures !LexLess(a, a)
  {
  }

  lemma LexTotal(a: string, b: string)
    ensures a == b || LexLess(a, b) || LexLess(b, a)
  {
    if a != "" && b != "" && a[0] == b[0] {
      LexTotal(a[1..], b[1..]);
      assert a == [a[0]] + a[1..] && b == [b[0]] + b[1..];
    }
  }

  lemma LexTransitive(a: string, b: string, c: string)
    requires LexLess(a, b) && LexLess(b, c)
    ensures LexLess(a, c)
  {
    if a != "" && a[0] == b[0] && b[0] == c[0] {
      LexTransitive(a[1..], b[1..], c[1..]);
    }
  }
}
