/** Glob matching and the literal prefix of a pattern (internal/config/mapping.go:221-275). */
module Glob {
  import opened Wrappers

  /** The parts of doublestar syntax the prefix does not depend on: how many characters of a pattern that starts with
      '[' make up a class accepting the given character, and the patterns a leading '{...}' group stands for. */
  datatype Syntax = Syntax(cls: (string, char) -> Option<nat>, alts: string -> seq<string>)

  /** A pattern that can match what is left when the name is used up: a directory followed by a separator and a double
      star also matches the directory itself. */
  predicate MatchesEmpty(syn: Syntax, p: string)
    decreases |p|
  {
    || p in ["", "*", "**", "/**", "**/", "/**/"]
    || (p != "" && p[0] == '{' && exists q | q in syn.alts(p) :: |q| < |p| && MatchesEmpty(syn, q))
  }

  /** p matches s; `start` says whether a path segment starts here, since only there a double star spans separators. */
  predicate Matches(syn: Syntax, p: string, s: string, start: bool)
    decreases |p|, |s|, 1
  {
    if s == "" then MatchesEmpty(syn, p)
    else if p == "" then false
    else if p[0] == '*' then
      if |p| >= 2 && p[1] == '*' then
        if start && |p| == 2 then true
        else if start && p[2] == '/' then AnyDepth(syn, p[3..], s)
        else AnyRun(syn, p[2..], s)
      else AnyRun(syn, p[1..], s)
    else if p[0] == '?' then s[0] != '/' && Matches(syn, p[1..], s[1..], false)
    else if p[0] == '[' then
      match syn.cls(p, s[0])
      case None => false
      case Some(n) => 0 < n <= |p| && s[0] != '/' && Matches(syn, p[n..], s[1..], false)
    else if p[0] == '{' then exists q | q in syn.alts(p) :: |q| < |p| && Matches(syn, q, s, false)
    else if p[0] == '\\' then
      |p| >= 2 && p[1] == s[0] && Matches(syn, p[2..], s[1..], p[1] == '/')
    else p[0] == s[0] && Matches(syn, p[1..], s[1..], p[0] == '/')
  }

  /** `*`: any run of characters without a separator, then p. */
  predicate AnyRun(syn: Syntax, p: string, s: string)
    decreases |p|, |s|, 2
  {
    Matches(syn, p, s, false) || (s != "" && s[0] != '/' && AnyRun(syn, p, s[1..]))
  }

  /** A double star and a separator: any number of whole segments, then p. */
  predicate AnyDepth(syn: Syntax, p: string, s: string)
    decreases |p|, |s|, 2
  {
    Matches(syn, p, s, true) || exists k | 0 <= k < |s| :: s[k] == '/' && Matches(syn, p, s[k + 1..], true)
  }

  predicate IsMeta(c: char) {
    c in "*?[{"
  }

  /** The run of characters before the first unescaped metacharacter; a lone trailing backslash stands for itself. */
  function LiteralPrefix(p: string): string {
    if p == "" then ""
    else if p[0] == '\\' && |p| >= 2 then [p[1]] + LiteralPrefix(p[2..])
    else if IsMeta(p[0]) then ""
    else [p[0]] + LiteralPrefix(p[1..])
  }

  /** How the prefix of a suffix of the pattern unfolds at index i. */
  lemma PrefixStep(p: string, i: nat)
    requires i < |p|
    ensures p[i] == '\\' && i + 1 < |p| ==> LiteralPrefix(p[i..]) == [p[i + 1]] + LiteralPrefix(p[i + 2..])
    ensures !(p[i] == '\\' && i + 1 < |p|) && IsMeta(p[i]) ==> LiteralPrefix(p[i..]) == ""
    ensures !(p[i] == '\\' && i + 1 < |p|) && !IsMeta(p[i]) ==>
      LiteralPrefix(p[i..]) == [p[i]] + LiteralPrefix(p[i + 1..])
  {
    assert p[i..][1..] == p[i + 1..];
    if i + 1 < |p| {
      assert p[i..][2..] == p[i + 2..];
    }
  }

  /** literalPrefix, the loop. */
  method ComputeLiteralPrefix(pattern: string) returns (b: string)
    ensures b == LiteralPrefix(pattern)
  {
    hide IsMeta, LiteralPrefix;
    b := "";
    var i := 0;
    assert pattern[0..] == pattern;
    while i < |pattern|
      invariant 0 <= i <= |pattern|
      invariant b + LiteralPrefix(pattern[i..]) == LiteralPrefix(pattern)
    {
      var c := pattern[i];
      PrefixStep(pattern, i);
      if c == '\\' && i + 1 < |pattern| {
        OneMoreChar(b, pattern[i + 1], LiteralPrefix(pattern[i + 2..]));
        b := b + [pattern[i + 1]];
        i := i + 2;
        continue;
      }
      if IsMeta(c) {
        return;
      }
      OneMoreChar(b, c, LiteralPrefix(pattern[i + 1..]));
      b := b + [c];
      i := i + 1;
    }
    NoPrefixOfNothing(pattern[i..]);
  }

  lemma OneMoreChar(b: string, c: char, rest: string)
    ensures b + [c] + rest == b + ([c] + rest)
  {
  }

  lemma NoPrefixOfNothing(p: string)
    requires |p| == 0
    ensures LiteralPrefix(p) == ""
  {
  }

  /** A match implies that the literal prefix is a prefix of the path with a separator added, escapes included, whatever
      the syntax of classes and alternatives. */
  lemma {:induction false} MatchHasPrefix(syn: Syntax, p: string, s: string, start: bool)
    requires Matches(syn, p, s, start)
    ensures LiteralPrefix(p) <= s + "/"
    decreases |p|
  {
    if s == "" {
      EmptyMatchHasPrefix(syn, p);
    } else if p[0] == '\\' {
      MatchHasPrefix(syn, p[2..], s[1..], p[1] == '/');
      assert s + "/" == [s[0]] + (s[1..] + "/");
    } else if !IsMeta(p[0]) {
      MatchHasPrefix(syn, p[1..], s[1..], p[0] == '/');
      assert s + "/" == [s[0]] + (s[1..] + "/");
    }
  }

  lemma EmptyMatchHasPrefix(syn: Syntax, p: string)
    requires MatchesEmpty(syn, p)
    ensures LiteralPrefix(p) <= "/"
  {
    if p == "/**" {
      assert p[1..] == "**";
    } else if p == "/**/" {
      assert p[1..] == "**/";
    }
  }

  /** Hence the prefix misses a matching path in one case only: P under a pattern whose literal prefix is "P/". */
  lemma PrefixMissesOnlyTheRoot(syn: Syntax, p: string, s: string)
    requires Matches(syn, p, s, true)
    ensures LiteralPrefix(p) <= s <==> LiteralPrefix(p) != s + "/"
  {
    MatchHasPrefix(syn, p, s, true);
    var l := LiteralPrefix(p);
    assert |l| <= |s| ==> l == (s + "/")[..|l|] == s[..|l|];
    assert |l| == |s| + 1 ==> l == s + "/";
  }

  /** A directory name without metacharacters or backslashes. */
  predicate IsLiteral(d: string) {
    forall c | c in d :: !IsMeta(c) && c != '\\'
  }

  lemma LiteralStep(syn: Syntax, p: string, s: string, start: bool)
    requires p != "" && s != "" && p[0] == s[0] && !IsMeta(p[0]) && p[0] != '\\'
    requires Matches(syn, p[1..], s[1..], p[0] == '/')
    ensures Matches(syn, p, s, start) && LiteralPrefix(p) == [p[0]] + LiteralPrefix(p[1..])
  {
  }

  lemma RootMatches(syn: Syntax, start: bool)
    ensures Matches(syn, "/**", "", start) && LiteralPrefix("/**") == "/"
  {
    assert MatchesEmpty(syn, "/**");
    assert "/**"[1..] == "**";
    assert LiteralPrefix("**") == "";
  }

  /** And that case does occur, against the documentation of Anchors: every literal directory d is matched by the
      pattern for everything below it, whose literal prefix is d with a separator. */
  lemma {:induction false} PrefixMissesTheRoot(syn: Syntax, d: string, start: bool)
    requires IsLiteral(d)
    ensures Matches(syn, d + "/**", d, start) && LiteralPrefix(d + "/**") == d + "/"
  {
    hide Matches, LiteralPrefix, IsMeta;
    if d == "" {
      assert d + "/**" == "/**" && d + "/" == "/";
      RootMatches(syn, start);
    } else {
      PrefixMissesTheRoot(syn, d[1..], d[0] == '/');
      assert (d + "/**")[1..] == d[1..] + "/**";
      LiteralStep(syn, d + "/**", d, start);
    }
  }
}
