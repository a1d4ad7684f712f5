/** What the forms of a glob pattern stand for, said in terms of strings (internal/config/mapping.go:84-110, and the
    pattern documentation of doublestar). */
module GlobLaws {
  import opened Wrappers
  import opened Glob

  /** An ordinary character of the pattern takes the same character of the name. */
  lemma OrdinaryCharacter(syn: Syntax, p: string, s: string, start: bool)
    requires p != "" && !IsMeta(p[0]) && p[0] != '\\' && s != ""
    ensures Matches(syn, p, s, start) <==> p[0] == s[0] && Matches(syn, p[1..], s[1..], p[0] == '/')
  {
  }

  lemma EmptyNeedsStar(syn: Syntax, p: string)
    requires p != "" && p[0] != '{' && MatchesEmpty(syn, p)
    ensures '*' in p && (p[0] == '*' || (|p| >= 2 && p[0] == '/' && p[1] == '*'))
  {
    assert "*"[0] == '*' && "**"[0] == '*' && "/**"[1] == '*' && "**/"[0] == '*' && "/**/"[1] == '*';
  }

  /** A pattern without special characters matches itself only. */
  lemma {:induction false} LiteralMatchesItself(syn: Syntax, d: string, s: string, start: bool)
    requires IsLiteral(d)
    ensures Matches(syn, d, s, start) <==> s == d
    decreases |d|
  {
    if d == "" {
    } else if s == "" {
      assert d[0] in d;
      if MatchesEmpty(syn, d) {
        EmptyNeedsStar(syn, d);
      }
    } else {
      assert d[0] in d && forall c | c in d[1..] :: c in d;
      OrdinaryCharacter(syn, d, s, start);
      LiteralMatchesItself(syn, d[1..], s[1..], d[0] == '/');
      assert s == [s[0]] + s[1..] && d == [d[0]] + d[1..];
    }
  }

  /** Each character behind a backslash stands for itself. */
  function Escaped(d: string): string {
    if d == "" then "" else ['\\', d[0]] + Escaped(d[1..])
  }

  lemma {:induction false} EscapedMatchesItself(syn: Syntax, d: string, s: string, start: bool)
    ensures Matches(syn, Escaped(d), s, start) <==> s == d
    decreases |d|
  {
    var e := Escaped(d);
    if d != "" {
      assert e[0] == '\\' && e[1] == d[0] && e[2..] == Escaped(d[1..]);
      if s != "" && s[0] == d[0] {
        EscapedMatchesItself(syn, d[1..], s[1..], d[0] == '/');
        assert s == [s[0]] + s[1..] && d == [d[0]] + d[1..];
      }
    }
  }

  /** Behind a literal directory, a pattern that starts with a separator matches what follows the directory. */
  lemma {:induction false} BehindDirectory(syn: Syntax, d: string, p: string, s: string, start: bool)
    requires IsLiteral(d) && (d != "" ==> d[|d| - 1] != '/') && p != "" && p[0] == '/'
    ensures Matches(syn, d + p, s, start) <==> d <= s && Matches(syn, p, s[|d|..], false)
    decreases |d|
  {
    if d == "" {
      assert d + p == p && s[0..] == s;
    } else {
      assert (d + p)[1..] == d[1..] + p && (d + p)[0] == d[0] && d[0] in d && forall c | c in d[1..] :: c in d;
      if s == "" {
        NothingIsNoDirectory(syn, d, p);
      } else {
        OrdinaryCharacter(syn, d + p, s, start);
        BehindDirectory(syn, d[1..], p, s[1..], d[0] == '/');
        hide Matches;
        assert d <= s <==> d[0] == s[0] && d[1..] <= s[1..];
        if d <= s {
          assert s[1..][|d[1..]|..] == s[|d|..];
        }
      }
    }
  }

  lemma NothingIsNoDirectory(syn: Syntax, d: string, p: string)
    requires IsLiteral(d) && d != "" && d[|d| - 1] != '/' && p != "" && p[0] == '/'
    ensures !MatchesEmpty(syn, d + p)
  {
    assert (d + p)[0] == d[0] && d[0] in d;
    if |d| >= 2 {
      assert (d + p)[1] == d[1] && d[1] in d;
    }
    if MatchesEmpty(syn, d + p) {
      EmptyNeedsStar(syn, d + p);
    }
  }

  lemma {:induction false} RunToEnd(syn: Syntax, t: string)
    ensures AnyRun(syn, "", t) <==> '/' !in t
    decreases |t|
  {
    if t != "" {
      RunToEnd(syn, t[1..]);
      assert t == [t[0]] + t[1..];
    }
  }

  /** A directory and a star: its direct children, that is d, a separator and text without one. */
  lemma StarStaysInDirectory(syn: Syntax, d: string, s: string)
    requires IsLiteral(d) && (d != "" ==> d[|d| - 1] != '/')
    ensures Matches(syn, d + "/*", s, true) <==> exists t :: s == d + "/" + t && '/' !in t
  {
    BehindDirectory(syn, d, "/*", s, true);
    if d <= s {
      var r := s[|d|..];
      assert s == d + r;
      SlashStar(syn, r);
      if Matches(syn, "/*", r, false) {
        assert s == d + "/" + r[1..];
      }
      if t :| s == d + "/" + t && '/' !in t {
        assert r == "/" + t && r[1..] == t;
      }
    } else {
      assert forall t :: d <= d + "/" + t;
    }
  }

  lemma SlashStar(syn: Syntax, r: string)
    ensures Matches(syn, "/*", r, false) <==> r != "" && r[0] == '/' && '/' !in r[1..]
  {
    assert "/*"[1..] == "*" && "*"[1..] == "";
    if r != "" && r[0] == '/' {
      RunToEnd(syn, r[1..]);
    }
  }

  /** A directory and a question mark: one more character, which is no separator. */
  lemma QuestionIsOneCharacter(syn: Syntax, d: string, s: string)
    requires IsLiteral(d) && (d != "" ==> d[|d| - 1] != '/')
    ensures Matches(syn, d + "/?", s, true) <==> exists c: char :: s == d + "/" + [c] && c != '/'
  {
    BehindDirectory(syn, d, "/?", s, true);
    if d <= s {
      var r := s[|d|..];
      assert s == d + r;
      SlashQuestion(syn, r);
      if Matches(syn, "/?", r, false) {
        assert s == d + "/" + [r[1]];
      }
      if c: char :| s == d + "/" + [c] && c != '/' {
        assert r == "/" + [c];
      }
    } else {
      assert forall c: char :: d <= d + "/" + [c];
    }
  }

  lemma SlashQuestion(syn: Syntax, r: string)
    ensures Matches(syn, "/?", r, false) <==> |r| == 2 && r[0] == '/' && r[1] != '/'
  {
    assert "/?"[1..] == "?" && "?"[1..] == "" && "/?"[0] == '/' && "?"[0] == '?';
    assert MatchesEmpty(syn, "") && !MatchesEmpty(syn, "?") && !MatchesEmpty(syn, "/?");
    if r != "" && r[0] == '/' {
      var u := r[1..];
      assert Matches(syn, "/?", r, false) <==> Matches(syn, "?", u, true);
      if u != "" {
        assert Matches(syn, "?", u, true) <==> u[0] != '/' && Matches(syn, "", u[1..], false);
        assert u[1..] == "" <==> |r| == 2;
      }
    }
  }

  /** A directory and a double star: the directory itself and everything below it. */
  lemma DoubleStarIsSubtree(syn: Syntax, d: string, s: string)
    requires IsLiteral(d) && (d != "" ==> d[|d| - 1] != '/')
    ensures Matches(syn, d + "/**", s, true) <==> s == d || d + "/" <= s
  {
    BehindDirectory(syn, d, "/**", s, true);
    assert "/**"[1..] == "**";
    if d <= s {
      var r := s[|d|..];
      assert s == d + r;
      RootMatches(syn, false);
      assert Matches(syn, "/**", r, false) <==> r == "" || r[0] == '/';
      assert r != "" && r[0] == '/' ==> d + "/" <= s;
      assert d + "/" <= s ==> r != "" && r[0] == '/';
    }
  }

  /** t is f, at the start or behind a separator. */
  ghost predicate AtAnyDepth(t: string, f: string) {
    exists g :: t == g + f && (g == "" || g[|g| - 1] == '/')
  }

  /** A double star between separators skips any number of directories, or none. */
  lemma DoubleStarSkipsDirectories(syn: Syntax, d: string, f: string, s: string)
    requires IsLiteral(d) && (d != "" ==> d[|d| - 1] != '/') && IsLiteral(f) && f != ""
    ensures Matches(syn, d + ("/**/" + f), s, true) <==>
            d + "/" <= s && exists g :: s[|d| + 1..] == g + f && (g == "" || g[|g| - 1] == '/')
  {
    BehindDirectory(syn, d, "/**/" + f, s, true);
    hide Matches, AtAnyDepth;
    if d <= s {
      var r := s[|d|..];
      SlashDoubleStar(syn, f, r);
      assert d + "/" <= s <==> r != "" && r[0] == '/';
      if d + "/" <= s {
        assert r[1..] == s[|d| + 1..];
        DepthIs(r[1..], f);
      }
    }
  }

  lemma DepthIs(t: string, f: string)
    ensures AtAnyDepth(t, f) <==> exists g :: t == g + f && (g == "" || g[|g| - 1] == '/')
  {
  }

  lemma SlashDoubleStar(syn: Syntax, f: string, r: string)
    requires IsLiteral(f) && f != ""
    ensures Matches(syn, "/**/" + f, r, false) <==> r != "" && r[0] == '/' && AtAnyDepth(r[1..], f)
  {
    var p := "/**/" + f;
    assert p[1..] == "**/" + f && p[0] == '/';
    hide AtAnyDepth;
    assert |p| > 4;
    if r != "" {
      OrdinaryCharacter(syn, p, r, false);
      DeepLiteral(syn, f, r[1..]);
    }
  }

  lemma DeepLiteral(syn: Syntax, f: string, t: string)
    requires IsLiteral(f) && f != ""
    ensures Matches(syn, "**/" + f, t, true) <==> AtAnyDepth(t, f)
  {
    DoubleStarUnfolds(syn, f, t);
    if t != "" {
      AnyDepthOfLiteral(syn, f, t);
    }
  }

  /** Somewhere behind a separator t goes on as f. */
  predicate EndsSegment(t: string, f: string, k: nat)
    requires k < |t|
  {
    t[k] == '/' && t[k + 1..] == f
  }

  lemma AnyDepthOfLiteral(syn: Syntax, f: string, t: string)
    requires IsLiteral(f) && t != ""
    ensures AnyDepth(syn, f, t) <==> AtAnyDepth(t, f)
  {
    LiteralMatchesItself(syn, f, t, true);
    if AnyDepth(syn, f, t) && t != f {
      var k :| 0 <= k < |t| && t[k] == '/' && Matches(syn, f, t[k + 1..], true);
      LiteralMatchesItself(syn, f, t[k + 1..], true);
      assert EndsSegment(t, f, k);
    }
    if k :| 0 <= k < |t| && EndsSegment(t, f, k) {
      LiteralMatchesItself(syn, f, t[k + 1..], true);
      assert t[k] == '/' && Matches(syn, f, t[k + 1..], true);
    }
    hide Matches, IsLiteral, AtAnyDepth;
    DepthBySegment(t, f);
  }

  lemma DepthBySegment(t: string, f: string)
    ensures AtAnyDepth(t, f) <==> t == f || exists k | 0 <= k < |t| :: EndsSegment(t, f, k)
  {
    if t == f {
      assert t == "" + f;
    }
    if k :| 0 <= k < |t| && EndsSegment(t, f, k) {
      assert t == t[..k + 1] + f && t[..k + 1][k] == '/';
    }
    if g :| t == g + f && (g == "" || g[|g| - 1] == '/') {
      if g == "" {
        assert t == f;
      } else {
        assert EndsSegment(t, f, |g| - 1);
      }
    }
  }

  lemma DoubleStarUnfolds(syn: Syntax, f: string, t: string)
    requires f != ""
    ensures t == "" ==> !Matches(syn, "**/" + f, t, true)
    ensures t != "" ==> (Matches(syn, "**/" + f, t, true) <==> AnyDepth(syn, f, t))
  {
    var p := "**/" + f;
    assert p[3..] == f && |p| >= 4 && p[0] == '*';
  }

  /** A class takes one character of its own, and never a separator. */
  lemma ClassIsOneCharacter(syn: Syntax, p: string, s: string, start: bool)
    requires p != "" && p[0] == '[' && Matches(syn, p, s, start)
    ensures s != "" && s[0] != '/' && syn.cls(p, s[0]).Some?
    ensures exists n | 0 < n <= |p| :: syn.cls(p, s[0]) == Some(n) && Matches(syn, p[n..], s[1..], false)
  {
    assert s == "" ==> !MatchesEmpty(syn, p);
  }

  // ----- the literal prefix ---------------------------------------------------------------------------------------

  /** The literal prefix is the text before the first special character, or all of the pattern when it has none. */
  lemma {:induction false} LiteralPrefixIs(d: string, c: char, rest: string)
    requires IsLiteral(d)
    ensures LiteralPrefix(d) == d
    ensures c == '*' || c == '?' || c == '[' || c == '{' ==> LiteralPrefix(d + [c] + rest) == d
  {
    if d == "" {
      assert (d + [c] + rest)[0] == c;
    } else {
      assert d[0] in d && forall x | x in d[1..] :: x in d;
      LiteralPrefixIs(d[1..], c, rest);
      assert (d + [c] + rest)[0] == d[0] && (d + [c] + rest)[1..] == d[1..] + [c] + rest;
    }
  }

  /** Escaped characters belong to it. */
  lemma {:induction false} EscapedPrefixIs(d: string)
    ensures LiteralPrefix(Escaped(d)) == d
  {
    if d != "" {
      EscapedPrefixIs(d[1..]);
      assert Escaped(d)[0] == '\\' && Escaped(d)[1] == d[0] && Escaped(d)[2..] == Escaped(d[1..]);
    }
  }
}
