/** The three regular-expression rewrites the API client applies to URL
    paths: `replace(/\/+/g, "/")`, `replace(/\/+$/, "")` and
    `replaceAll("..", ".")`. */
module Paths {
  import opened JsString

  /** `s` with every occurrence of `c` deleted. */
  function Without(s: string, c: char): string
  {
    if s == [] then [] else (if s[0] == c then [] else [s[0]]) + Without(s[1..], c)
  }

  // ---------------------------------------------------------------------
  // Collapsing runs of slashes: `s.replace(/\/+/g, "/")`
  // ---------------------------------------------------------------------

  /** No two adjacent slashes. */
  predicate NoDoubleSlash(s: string) {
    forall i :: 0 <= i < |s| - 1 ==> !(s[i] == '/' && s[i + 1] == '/')
  }

  /** Reference definition of the rewrite: `s` is `r` with every `/` of `r`
      standing for a run of one or more `/`. */
  predicate Expands(r: string, s: string)
    decreases |r| + |s|
  {
    if r == [] then s == []
    else if s == [] || r[0] != s[0] then false
    else if r[0] == '/' && |s| > 1 && s[1] == '/' then Expands(r, s[1..]) || Expands(r[1..], s[1..])
    else Expands(r[1..], s[1..])
  }

  /** `s.replace(/\/+/g, "/")`: every maximal run of `/` becomes one `/`. */
  function CollapseSlashes(s: string): (r: string)
    ensures |r| <= |s|
    ensures |s| > 0 ==> |r| > 0 && r[0] == s[0]
    ensures NoDoubleSlash(r)
    ensures Without(r, '/') == Without(s, '/')
  {
    if |s| <= 1 then s
    else if s[0] == '/' && s[1] == '/' then CollapseSlashes(s[1..])
    else
      var r := [s[0]] + CollapseSlashes(s[1..]);
      assert r[1..] == CollapseSlashes(s[1..]);
      r
  }

  /** The collapsed string expands back to the original. */
  lemma {:induction false} CollapseExpands(s: string)
    ensures Expands(CollapseSlashes(s), s)
  {
    if |s| == 1 {
      assert s[1..] == [];
    } else if |s| > 1 {
      CollapseExpands(s[1..]);
      var r := CollapseSlashes(s);
      if !(s[0] == '/' && s[1] == '/') {
        assert r[1..] == CollapseSlashes(s[1..]);
      }
    }
  }

  /** A string without adjacent slashes that expands to `s` is the collapse
      of `s`: the rewrite is exactly "one slash per run". */
  lemma {:induction false} CollapseUnique(r: string, s: string)
    requires NoDoubleSlash(r)
    requires Expands(r, s)
    ensures r == CollapseSlashes(s)
    decreases |r| + |s|
  {
    if r == [] {
    } else if r[0] == '/' && |s| > 1 && s[1] == '/' {
      if Expands(r, s[1..]) {
        CollapseUnique(r, s[1..]);
      } else {
        // then r[1..] expands to s[1..], which starts with `/`: r would start with "//"
        assert false;
      }
    } else {
      assert Expands(r[1..], s[1..]);
      assert NoDoubleSlash(r[1..]) by {
        forall i | 0 <= i < |r[1..]| - 1 ensures !(r[1..][i] == '/' && r[1..][i + 1] == '/') {
          assert r[1..][i] == r[i + 1] && r[1..][i + 1] == r[i + 2];
        }
      }
      CollapseUnique(r[1..], s[1..]);
      if |s| == 1 {
        assert r == [r[0]] + r[1..];
      } else {
        assert r == [s[0]] + r[1..];
      }
    }
  }

  lemma {:induction false} ExpandsReflexive(s: string)
    ensures Expands(s, s)
  {
    if s != [] {
      ExpandsReflexive(s[1..]);
      if s[0] == '/' && |s| > 1 && s[1] == '/' {
        assert Expands(s[1..], s[1..]);
      }
    }
  }

  /** A string with no adjacent slashes is left as it is, and hence the
      rewrite is idempotent. */
  lemma CollapseFixpoint(s: string)
    ensures CollapseSlashes(s) == s <==> NoDoubleSlash(s)
    ensures CollapseSlashes(CollapseSlashes(s)) == CollapseSlashes(s)
  {
    if NoDoubleSlash(s) {
      ExpandsReflexive(s);
      CollapseUnique(s, s);
    }
    var r := CollapseSlashes(s);
    ExpandsReflexive(r);
    CollapseUnique(r, r);
  }

  /** One unfolding of the rewrite: a slash followed by a slash is dropped. */
  lemma CollapseCons(c: char, u: string)
    ensures CollapseSlashes([c] + u) ==
      if c == '/' && u != [] && u[0] == '/' then CollapseSlashes(u) else [c] + CollapseSlashes(u)
  {
    assert ([c] + u)[1..] == u;
  }

  /** Doubling a slash anywhere does not change the result. */
  lemma {:induction false} CollapseDoubleSlash(x: string, y: string)
    ensures CollapseSlashes(x + "//" + y) == CollapseSlashes(x + "/" + y)
  {
    if x == [] {
      assert x + "//" + y == ['/'] + ("/" + y);
      assert x + "/" + y == "/" + y;
      CollapseCons('/', "/" + y);
    } else {
      var x' := x[1..];
      assert x + "//" + y == [x[0]] + (x' + "//" + y);
      assert x + "/" + y == [x[0]] + (x' + "/" + y);
      CollapseDoubleSlash(x', y);
      CollapseCons(x[0], x' + "//" + y);
      CollapseCons(x[0], x' + "/" + y);
      if x' == [] {
        assert (x' + "//" + y)[0] == (x' + "/" + y)[0] == '/';
      } else {
        assert (x' + "//" + y)[0] == (x' + "/" + y)[0] == x'[0];
      }
    }
  }

  /** A slash added on either side of a segment that already sits between
      two slashes is collapsed away. */
  lemma CollapseAroundSegment(x: string, s: string, t: string)
    requires t != [] && t[0] == '/'
    ensures CollapseSlashes(x + "/" + ("/" + s) + t) == CollapseSlashes(x + "/" + s + t)
    ensures CollapseSlashes(x + "/" + (s + "/") + t) == CollapseSlashes(x + "/" + s + t)
  {
    RegroupLeading(x, s, t);
    CollapseDoubleSlash(x, s + t);
    RegroupTrailing(x, s, t);
    CollapseDoubleSlash(x + "/" + s, t[1..]);
  }

  lemma RegroupLeading(x: string, s: string, t: string)
    ensures x + "/" + ("/" + s) + t == x + "//" + (s + t)
    ensures x + "/" + s + t == x + "/" + (s + t)
  {
  }

  lemma RegroupTrailing(x: string, s: string, t: string)
    requires t != [] && t[0] == '/'
    ensures x + "/" + (s + "/") + t == (x + "/" + s) + "//" + t[1..]
    ensures x + "/" + s + t == (x + "/" + s) + "/" + t[1..]
  {
    assert t == "/" + t[1..];
  }

  // ---------------------------------------------------------------------
  // Stripping trailing slashes: `s.replace(/\/+$/, "")`
  // ---------------------------------------------------------------------

  /** `s.replace(/\/+$/, "")`: `s` without its final run of `/`. */
  function StripTrailingSlashes(s: string): (r: string)
    ensures |r| <= |s| && r == s[..|r|]
    ensures forall k :: |r| <= k < |s| ==> s[k] == '/'
    ensures r == [] || r[|r| - 1] != '/'
  {
    if s != [] && s[|s| - 1] == '/' then StripTrailingSlashes(s[..|s| - 1]) else s
  }

  /** Those three facts determine the result: it is the one prefix of `s`
      that does not end in `/` and is followed only by `/`. */
  lemma {:induction false} StripTrailingUnique(s: string, t: string)
    requires |t| <= |s| && t == s[..|t|]
    requires forall k :: |t| <= k < |s| ==> s[k] == '/'
    requires t == [] || t[|t| - 1] != '/'
    ensures t == StripTrailingSlashes(s)
  {
    if |t| < |s| {
      var s' := s[..|s| - 1];
      assert t == s'[..|t|];
      StripTrailingUnique(s', t);
    } else {
      assert t == s;
    }
  }

  /** Adding a trailing slash does not change the stripped string. */
  lemma StripTrailingSlash(s: string)
    ensures StripTrailingSlashes(s + "/") == StripTrailingSlashes(s)
  {
    assert (s + "/")[..|s|] == s;
  }

  // ---------------------------------------------------------------------
  // `s.replaceAll("..", ".")`: left to right, non-overlapping
  // ---------------------------------------------------------------------

  function ReplaceDotDot(s: string): (r: string)
    ensures |r| <= |s|
    ensures Without(r, '.') == Without(s, '.')
  {
    if |s| >= 2 && s[0] == '.' && s[1] == '.' then
      var r := "." + ReplaceDotDot(s[2..]);
      assert Without(s, '.') == Without(s[1..], '.') == Without(s[2..], '.');
      r
    else if s == [] then []
    else
      var r := [s[0]] + ReplaceDotDot(s[1..]);
      assert r[1..] == ReplaceDotDot(s[1..]);
      r
  }

  /** `s` holds no ".." */
  predicate NoDotDot(s: string) {
    forall i :: 0 <= i < |s| - 1 ==> !(s[i] == '.' && s[i + 1] == '.')
  }

  /** Without ".." the rewrite changes nothing. */
  lemma {:induction false} ReplaceDotDotNoop(s: string)
    requires NoDotDot(s)
    ensures ReplaceDotDot(s) == s
  {
    if s != [] {
      assert NoDotDot(s[1..]) by {
        forall i | 0 <= i < |s[1..]| - 1 ensures !(s[1..][i] == '.' && s[1..][i + 1] == '.') {
          assert s[1..][i] == s[i + 1];
        }
      }
      ReplaceDotDotNoop(s[1..]);
      assert s == [s[0]] + s[1..];
    }
  }

  /** A single dot between two dot-free strings makes no "..". */
  lemma NoDotDotAroundDot(h: string, e: string)
    requires '.' !in h && '.' !in e
    ensures NoDotDot(h + "." + e)
  {
    var s := h + "." + e;
    forall i | 0 <= i < |s| - 1 ensures !(s[i] == '.' && s[i + 1] == '.') {
      if i < |h| {
        assert s[i] == h[i];
      } else {
        assert s[i + 1] == e[i - |h|];
      }
    }
  }

  /** The rewrite works piecewise across a boundary not preceded by a dot. */
  lemma {:induction false} ReplaceDotDotConcat(a: string, b: string)
    requires a == [] || a[|a| - 1] != '.'
    ensures ReplaceDotDot(a + b) == ReplaceDotDot(a) + ReplaceDotDot(b)
  {
    if a == [] {
      assert a + b == b;
    } else if |a| >= 2 && a[0] == '.' && a[1] == '.' {
      var a' := a[2..];
      assert a == ".." + a';
      assert a + b == ".." + (a' + b);
      ReplaceDotPair(a' + b);
      ReplaceDotPair(a');
      ReplaceDotDotConcat(a', b);
      AppendAssoc(".", ReplaceDotDot(a'), ReplaceDotDot(b));
    } else {
      var a' := a[1..];
      assert a == [a[0]] + a';
      assert a + b == [a[0]] + (a' + b);
      ReplaceDotOther(a[0], a' + b);
      ReplaceDotOther(a[0], a');
      ReplaceDotDotConcat(a', b);
      AppendAssoc([a[0]], ReplaceDotDot(a'), ReplaceDotDot(b));
    }
  }

  lemma ReplaceDotPair(u: string)
    ensures ReplaceDotDot(".." + u) == "." + ReplaceDotDot(u)
  {
    assert (".." + u)[2..] == u;
  }

  lemma ReplaceDotOther(c: char, u: string)
    requires c != '.' || u == [] || u[0] != '.'
    ensures ReplaceDotDot([c] + u) == [c] + ReplaceDotDot(u)
  {
    assert ([c] + u)[1..] == u;
  }

  /** `n` dots. */
  function Dots(n: nat): (r: string)
    ensures |r| == n
  {
    if n == 0 then "" else "." + Dots(n - 1)
  }

  /** Half of `n`, rounded up. */
  function HalfUp(n: nat): nat
  {
    if n <= 1 then n else HalfUp(n - 2) + 1
  }

  /** `HalfUp(n)` is `n / 2` rounded up. */
  lemma {:induction false} HalfUpRoundsUp(n: nat)
    ensures 2 * HalfUp(n) == n || 2 * HalfUp(n) == n + 1
  {
    if n > 1 {
      HalfUpRoundsUp(n - 2);
    }
  }

  lemma DotsCons(k: nat)
    ensures Dots(k + 1) == "." + Dots(k)
  {
  }

  /** A leading pair of dots becomes one dot. */
  lemma DotsPair(n: nat, t: string)
    requires n >= 2
    ensures ReplaceDotDot(Dots(n) + t) == "." + ReplaceDotDot(Dots(n - 2) + t)
  {
    assert Dots(n) + t == ".." + (Dots(n - 2) + t) by {
      assert Dots(n) == "." + ("." + Dots(n - 2));
    }
    ReplaceDotPair(Dots(n - 2) + t);
  }

  /** A maximal run of `n` dots becomes a run of `HalfUp(n)` dots (see HalfUpRoundsUp): pairs
      are merged left to right and an odd dot survives. */
  lemma {:induction false} ReplaceDotRun(n: nat, t: string)
    requires t == [] || t[0] != '.'
    ensures ReplaceDotDot(Dots(n) + t) == Dots(HalfUp(n)) + ReplaceDotDot(t)
  {
    if n == 0 {
      assert Dots(0) + t == t;
    } else if n == 1 {
      assert (Dots(1) + t)[1..] == t;
    } else {
      DotsPair(n, t);
      ReplaceDotRun(n - 2, t);
      AppendAssoc(".", Dots(HalfUp(n - 2)), ReplaceDotDot(t));
      DotsCons(HalfUp(n - 2));
      assert HalfUp(n) == HalfUp(n - 2) + 1;
    }
  }
}
