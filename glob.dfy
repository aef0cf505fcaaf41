/** `fnmatch.fnmatchcase` for patterns made of `*` and literal characters:
    the whole name must match, case matters, and `*` matches any run of
    characters, `/` and newlines included. */
module Glob {
  import opened Text

  function GlobMatch(s: string, pat: string): bool
    decreases |pat|, |s|
  {
    if pat == [] then s == []
    else if pat[0] == '*' then GlobMatch(s, pat[1..]) || (s != [] && GlobMatch(s[1..], pat))
    else s != [] && s[0] == pat[0] && GlobMatch(s[1..], pat[1..])
  }

  /** A pattern without `*` matches only itself. */
  lemma {:induction false} GlobLiteral(s: string, lit: string)
    requires '*' !in lit
    ensures GlobMatch(s, lit) <==> s == lit
  {
    if lit != [] && s != [] {
      assert '*' !in lit[1..] by {
        assert forall k :: 0 <= k < |lit[1..]| ==> lit[1..][k] == lit[k + 1];
      }
      GlobLiteral(s[1..], lit[1..]);
      assert s == [s[0]] + s[1..] && lit == [lit[0]] + lit[1..];
    }
  }

  /** A lone `*` matches every name. */
  lemma {:induction false} GlobStarAll(s: string)
    ensures GlobMatch(s, "*")
  {
    if s != [] {
      GlobStarAll(s[1..]);
    }
  }

  /** A leading `*` matches when some suffix matches the rest. */
  lemma {:induction false} GlobLeadingStar(s: string, q: string)
    ensures GlobMatch(s, "*" + q) <==> exists k :: 0 <= k <= |s| && GlobMatch(s[k..], q)
  {
    var p := "*" + q;
    assert p[1..] == q;
    if s == [] {
      assert s[0..] == s;
    } else {
      GlobLeadingStar(s[1..], q);
      assert s[0..] == s;
      assert forall k :: 1 <= k <= |s| ==> s[k..] == s[1..][k - 1..];
      if GlobMatch(s[1..], p) {
        var k :| 0 <= k <= |s[1..]| && GlobMatch(s[1..][k..], q);
        assert s[k + 1..] == s[1..][k..];
      }
    }
  }

  /** A literal followed by `*` matches exactly the names it starts. */
  lemma GlobLiteralThenStar(s: string, lit: string)
    requires '*' !in lit
    ensures GlobMatch(s, lit + "*") <==> StartsWith(s, lit)
  {
    GlobLiteralPrefix(s, lit, "*");
    if StartsWith(s, lit) {
      GlobStarAll(s[|lit|..]);
    }
  }

  /** `*` followed by a literal matches exactly the names it ends. */
  lemma GlobStarThenLiteral(s: string, lit: string)
    requires '*' !in lit
    ensures GlobMatch(s, "*" + lit) <==> EndsWith(s, lit)
  {
    GlobLeadingStar(s, lit);
    if EndsWith(s, lit) {
      GlobLiteral(s[|s| - |lit|..], lit);
    }
    forall k | 0 <= k <= |s| && GlobMatch(s[k..], lit)
      ensures EndsWith(s, lit)
    {
      GlobLiteral(s[k..], lit);
    }
  }

  /** `*lit*` matches exactly the names containing the literal. */
  lemma GlobContains(s: string, lit: string)
    requires '*' !in lit
    ensures GlobMatch(s, "*" + lit + "*") <==> Contains(s, lit)
  {
    assert "*" + lit + "*" == "*" + (lit + "*");
    GlobLeadingStar(s, lit + "*");
    forall k | 0 <= k <= |s|
      ensures GlobMatch(s[k..], lit + "*") <==> OccursAt(s, lit, k)
    {
      GlobLiteralThenStar(s[k..], lit);
      if OccursAt(s, lit, k) {
        assert s[k..][..|lit|] == s[k..k + |lit|];
      }
      if StartsWith(s[k..], lit) {
        assert s[k..][..|lit|] == s[k..k + |lit|];
      }
    }
    if Contains(s, lit) {
      var k: nat :| k <= |s| && OccursAt(s, lit, k);
      assert GlobMatch(s[k..], lit + "*");
    }
  }

  /** `a*b` matches exactly the names that start with `a` and end with `b`
      without the two overlapping. */
  lemma GlobAround(s: string, a: string, b: string)
    requires '*' !in a && '*' !in b
    ensures GlobMatch(s, a + "*" + b) <==> |a| + |b| <= |s| && StartsWith(s, a) && EndsWith(s, b)
  {
    assert a + "*" + b == a + ("*" + b);
    GlobLiteralPrefix(s, a, "*" + b);
    if StartsWith(s, a) {
      GlobStarThenLiteral(s[|a|..], b);
      EndsWithFrom(s, |a|, b);
    }
  }

  /** A suffix of `s` from index `k` ends with `b` exactly when `s` does and
      `b` fits after `k`. */
  lemma EndsWithFrom(s: string, k: nat, b: string)
    requires k <= |s|
    ensures EndsWith(s[k..], b) <==> k + |b| <= |s| && EndsWith(s, b)
  {
    if k + |b| <= |s| {
      assert s[k..][|s| - k - |b|..] == s[|s| - |b|..];
    }
  }

  /** A literal prefix is consumed character by character. */
  lemma {:induction false} GlobLiteralPrefix(s: string, lit: string, rest: string)
    requires '*' !in lit
    ensures GlobMatch(s, lit + rest) <==> StartsWith(s, lit) && GlobMatch(s[|lit|..], rest)
  {
    if lit == [] {
      assert lit + rest == rest && s[0..] == s;
    } else {
      assert (lit + rest)[0] == lit[0];
      assert (lit + rest)[1..] == lit[1..] + rest;
      assert '*' !in lit[1..] by {
        assert forall k :: 0 <= k < |lit[1..]| ==> lit[1..][k] == lit[k + 1];
      }
      if s != [] {
        GlobLiteralPrefix(s[1..], lit[1..], rest);
        if |lit| <= |s| {
          assert s[1..][|lit| - 1..] == s[|lit|..];
        }
        if StartsWith(s, lit) {
          assert s[1..][..|lit| - 1] == s[..|lit|][1..];
        }
        if StartsWith(s[1..], lit[1..]) && s[0] == lit[0] {
          assert s[..|lit|] == [s[0]] + s[1..][..|lit| - 1];
        }
      }
    }
  }
}
