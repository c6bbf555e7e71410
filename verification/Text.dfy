/** The few string operations the modelled code relies on. */
module Text {

  /** White space as the Go library's TrimSpace sees it. */
  predicate IsSpace(c: char) {
    || c == ' ' || ('\t' <= c <= '\r')
    || c == '\U{0085}' || c == '\U{00A0}' || c == '\U{1680}' || ('\U{2000}' <= c <= '\U{200A}')
    || c == '\U{2028}' || c == '\U{2029}' || c == '\U{202F}' || c == '\U{205F}' || c == '\U{3000}'
  }

  function TrimLeft(s: string): string {
    if s != "" && IsSpace(s[0]) then TrimLeft(s[1..]) else s
  }

  function TrimRight(s: string): string {
    if s != "" && IsSpace(s[|s| - 1]) then TrimRight(s[..|s| - 1]) else s
  }

  function Trim(s: string): string { TrimRight(TrimLeft(s)) }

  predicate AllSpace(s: string) { forall i | 0 <= i < |s| :: IsSpace(s[i]) }

  lemma {:induction false} TrimRightEnds(s: string)
    ensures TrimRight(s) != "" ==> !IsSpace(TrimRight(s)[|TrimRight(s)| - 1])
    ensures TrimRight(s) <= s
  {
    if s != "" && IsSpace(s[|s| - 1]) { TrimRightEnds(s[..|s| - 1]); }
  }

  lemma {:induction false} TrimLeftStarts(s: string)
    ensures TrimLeft(s) != "" ==> !IsSpace(TrimLeft(s)[0])
  {
    if s != "" && IsSpace(s[0]) { TrimLeftStarts(s[1..]); }
  }

  /** Trimming leaves nothing to trim. */
  lemma TrimTwice(s: string)
    ensures Trim(Trim(s)) == Trim(s)
  {
    TrimLeftStarts(s);
    TrimRightEnds(TrimLeft(s));
    var t := Trim(s);
    assert t != "" ==> t[0] == TrimLeft(s)[0];
    assert TrimLeft(t) == t;
    assert TrimRight(t) == t;
  }

  /** Text that neither begins nor ends with white space stays as it is, and that is what trimming yields. */
  predicate IsTrim(s: string) { s != "" ==> !IsSpace(s[0]) && !IsSpace(s[|s| - 1]) }

  lemma TrimIsTrim(s: string)
    ensures IsTrim(Trim(s))
    ensures IsTrim(s) ==> Trim(s) == s
  {
    TrimLeftStarts(s);
    TrimRightEnds(TrimLeft(s));
    assert Trim(s) != "" ==> Trim(s)[0] == TrimLeft(s)[0];
  }

  lemma {:induction false} TrimLeftOf(pre: string, x: string)
    requires AllSpace(pre)
    ensures TrimLeft(pre + x) == TrimLeft(x)
  {
    if pre == "" {
      assert pre + x == x;
    } else {
      assert (pre + x)[1..] == pre[1..] + x;
      TrimLeftOf(pre[1..], x);
    }
  }

  lemma {:induction false} TrimRightOf(x: string, post: string)
    requires AllSpace(post)
    ensures TrimRight(x + post) == TrimRight(x)
  {
    if post == "" {
      assert x + post == x;
    } else {
      assert (x + post)[..|x + post| - 1] == x + post[..|post| - 1];
      TrimRightOf(x, post[..|post| - 1]);
    }
  }

  /** Trimming takes away white space at both ends, and all of it. */
  lemma TrimOf(pre: string, x: string, post: string)
    requires AllSpace(pre) && AllSpace(post) && IsTrim(x)
    ensures Trim(pre + x + post) == x
  {
    assert pre + x + post == pre + (x + post);
    TrimLeftOf(pre, x + post);
    if x == "" {
      assert x + post == post && post + "" == post;
      TrimLeftOf(post, "");
    } else {
      assert (x + post)[0] == x[0];
      assert TrimLeft(x + post) == x + post;
      TrimRightOf(x, post);
    }
  }

  lemma {:induction false} TrimLeftAround(a: string, c: char, b: string)
    requires !IsSpace(c)
    ensures TrimLeft(a + [c] + b) == TrimLeft(a) + [c] + b
    ensures forall d: char | d !in a :: d !in TrimLeft(a)
  {
    if a != "" && IsSpace(a[0]) {
      assert (a + [c] + b)[1..] == a[1..] + [c] + b;
      TrimLeftAround(a[1..], c, b);
    } else if a == "" {
      assert (a + [c] + b)[0] == c;
    }
  }

  lemma {:induction false} TrimRightAround(a: string, c: char, b: string)
    requires !IsSpace(c)
    ensures TrimRight(a + [c] + b) == a + [c] + TrimRight(b)
  {
    var s := a + [c] + b;
    if b != "" && IsSpace(b[|b| - 1]) {
      assert s[..|s| - 1] == a + [c] + b[..|b| - 1];
      TrimRightAround(a, c, b[..|b| - 1]);
    } else if b == "" {
      assert s[|s| - 1] == c;
    }
  }

  lemma {:induction false} TrimAfterTrimRight(s: string)
    ensures Trim(TrimRight(s)) == Trim(s)
  {
    if s != "" && IsSpace(s[|s| - 1]) {
      TrimAfterTrimRight(s[..|s| - 1]);
      TrimDropsLast(s);
    }
  }

  lemma {:induction false} TrimDropsLast(s: string)
    requires s != "" && IsSpace(s[|s| - 1])
    ensures Trim(s[..|s| - 1]) == Trim(s)
  {
    if IsSpace(s[0]) {
      if |s| > 1 {
        TrimDropsLast(s[1..]);
        assert s[1..][..|s[1..]| - 1] == s[..|s| - 1][1..];
      }
    } else {
      assert s[..|s| - 1] != "" && s[..|s| - 1][0] == s[0];
    }
  }

  lemma {:induction false} TrimLeftKeeps(s: string, c: char)
    requires c !in s
    ensures c !in TrimLeft(s) && c !in Trim(s)
  {
    if s != "" && IsSpace(s[0]) {
      TrimLeftKeeps(s[1..], c);
    } else {
      TrimRightEnds(s);
    }
  }

  /** Trimming around a separator trims the outer ends of both parts. */
  lemma TrimAround(a: string, c: char, b: string)
    requires !IsSpace(c)
    ensures Trim(a + [c] + b) == TrimLeft(a) + [c] + TrimRight(b)
    ensures Trim(TrimLeft(a)) == Trim(a) && Trim(TrimRight(b)) == Trim(b)
  {
    TrimLeftAround(a, c, b);
    TrimRightAround(TrimLeft(a), c, b);
    TrimLeftStarts(a);
    TrimAfterTrimRight(b);
  }

  /** Lower-casing of the ASCII letters; other characters are left alone. */
  function Lower(c: char): char {
    if 'A' <= c <= 'Z' then c + 32 as char else c
  }

  function ToLower(s: string): (r: string) {
    seq(|s|, i requires 0 <= i < |s| => Lower(s[i]))
  }

  predicate EqualFold(s: string, t: string) { ToLower(s) == ToLower(t) }

  lemma ToLowerChars(s: string, i: nat)
    requires i < |s|
    ensures |ToLower(s)| == |s|
    ensures 'a' <= s[i] <= 'z' ==> ToLower(s)[i] == s[i]
    ensures 'A' <= s[i] <= 'Z' ==> ToLower(s)[i] == 'a' + (s[i] - 'A')
    ensures !('A' <= s[i] <= 'Z') ==> ToLower(s)[i] == s[i]
  {}

  /** The text before and after the first c, and whether there is one. */
  function Cut(s: string, c: char): (string, string, bool) {
    if s == "" then ("", "", false)
    else if s[0] == c then ("", s[1..], true)
    else
      var (before, after, found) := Cut(s[1..], c);
      ([s[0]] + before, after, found)
  }

  /** The position of the last c, or -1. */
  function LastIndex(s: string, c: char): (i: int)
    ensures -1 <= i < |s| && (i >= 0 ==> s[i] == c)
  {
    if s == "" then -1
    else if s[|s| - 1] == c then |s| - 1
    else LastIndex(s[..|s| - 1], c)
  }

  /** Text without c, then c, then anything: the first c is where it was put. */
  lemma {:induction false} CutAtFirst(before: string, c: char, after: string)
    requires c !in before
    ensures Cut(before + [c] + after, c) == (before, after, true)
  {
    if before == "" {
      assert (before + [c] + after)[1..] == after;
    } else {
      assert (before + [c] + after)[1..] == before[1..] + [c] + after;
      CutAtFirst(before[1..], c, after);
      assert (before + [c] + after)[0] == before[0] && before[0] in before && [before[0]] + before[1..] == before;
    }
  }

  lemma {:induction false} LastIndexIsLast(s: string, c: char)
    ensures forall k | LastIndex(s, c) < k < |s| :: s[k] != c
  {
    if s != "" && s[|s| - 1] != c {
      LastIndexIsLast(s[..|s| - 1], c);
      forall k | LastIndex(s, c) < k < |s| ensures s[k] != c {
        if k < |s| - 1 { assert s[k] == s[..|s| - 1][k]; }
      }
    }
  }

  lemma {:induction false} CutWithout(s: string, c: char)
    requires c !in s
    ensures Cut(s, c) == (s, "", false)
  {
    if s != "" {
      CutWithout(s[1..], c);
      assert [s[0]] + s[1..] == s;
    }
  }
}
