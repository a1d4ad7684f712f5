/** What a lookup returns, said by positions in the list of mappings and in terms of strings
    (internal/config/mapping.go:45-192). */
module LookupLaws {
  import opened Wrappers
  import opened Envelope
  import opened ConfigModel
  import opened MappingIndex
  import opened Resolver
  import opened References
  import Environment
  import Glob
  import GlobLaws

  // ----- order ----------------------------------------------------------------------------------------------------

  /** Positions in a list of n mappings, in order. */
  ghost predicate Positions(at: seq<nat>, n: nat) {
    && (forall k | 0 <= k < |at| :: at[k] < n)
    && forall k, l | 0 <= k < l < |at| :: at[k] < at[l]
  }

  /** The vars of the mappings at the given positions. */
  ghost function VarsAt(ms: seq<Mapping>, at: seq<nat>): seq<Var>
    requires Positions(at, |ms|)
  {
    if at == [] then [] else VarsAt(ms, at[..|at| - 1]) + ms[at[|at| - 1]].vars
  }

  lemma {:induction false} VarsAtInit(ms: seq<Mapping>, m: Mapping, at: seq<nat>)
    requires Positions(at, |ms|)
    ensures Positions(at, |ms + [m]|) && VarsAt(ms + [m], at) == VarsAt(ms, at)
  {
    if at != [] {
      VarsAtInit(ms, m, at[..|at| - 1]);
    }
  }

  lemma OneMorePosition(ms: seq<Mapping>, m: Mapping, at: seq<nat>)
    requires Positions(at, |ms|)
    ensures Positions(at + [|ms|], |ms + [m]|)
    ensures VarsAt(ms + [m], at + [|ms|]) == VarsAt(ms, at) + m.vars
  {
    VarsAtInit(ms, m, at);
    assert (at + [|ms|])[..|at|] == at;
  }

  /** at are exactly the positions of the mappings picked. */
  ghost predicate PickedAt(ms: seq<Mapping>, pick: Mapping -> bool, at: seq<nat>) {
    && Positions(at, |ms|)
    && forall i: nat | i < |ms| :: i in at <==> pick(ms[i])
  }

  ghost function Picked(ms: seq<Mapping>, pick: Mapping -> bool): seq<Var> {
    if ms == [] then []
    else
      var m := ms[|ms| - 1];
      Picked(ms[..|ms| - 1], pick) + (if pick(m) then m.vars else [])
  }

  lemma OneMorePick(init: seq<Mapping>, m: Mapping, pick: Mapping -> bool, at: seq<nat>)
    requires PickedAt(init, pick, at)
    ensures PickedAt(init + [m], pick, if pick(m) then at + [|init|] else at)
  {
    var ms, n := init + [m], |init|;
    var after := if pick(m) then at + [n] else at;
    assert forall k | 0 <= k < |at| :: at[k] < n;
    forall i: nat | i < |ms| ensures i in after <==> pick(ms[i]) {
      if i < n {
        assert ms[i] == init[i] && (i in after <==> i in at);
      } else {
        assert ms[i] == m && n !in at;
      }
    }
  }

  lemma {:induction false} PickedByPosition(ms: seq<Mapping>, pick: Mapping -> bool) returns (at: seq<nat>)
    ensures PickedAt(ms, pick, at) && Picked(ms, pick) == VarsAt(ms, at)
  {
    if ms == [] {
      at := [];
    } else {
      var init, m := ms[..|ms| - 1], ms[|ms| - 1];
      at := PickedByPosition(init, pick);
      assert ms == init + [m];
      VarsAtInit(init, m, at);
      OneMorePosition(init, m, at);
      OneMorePick(init, m, pick, at);
      hide VarsAt, PickedAt;
      if pick(m) {
        at := at + [|init|];
      }
    }
  }

  ghost function ByPath(h: Host, p: string): Mapping -> bool {
    (m: Mapping) => m.path != "" && Resolve(h, m.path) == p
  }

  ghost function ByGlob(h: Host, p: string): Mapping -> bool {
    (m: Mapping) => m.path == "" && m.glob != "" && GlobMatches(h, NormalisePattern(h, m.glob), p)
  }

  ghost function ByDirectory(h: Host, p: string, command: string): Mapping -> bool
    requires IsCleanAbs(p)
  {
    (m: Mapping) => m.path == "" && m.glob == "" && m.cwdGlob != "" && command in m.commands
         && AncestorMatches(h, NormalisePattern(h, m.cwdGlob), p)
  }

  lemma {:induction false} PathsArePicked(h: Host, ms: seq<Mapping>, p: string)
    ensures PathVars(h, ms, p) == Picked(ms, ByPath(h, p))
  {
    hide Resolve;
    if ms != [] {
      PathsArePicked(h, ms[..|ms| - 1], p);
    }
  }

  lemma {:induction false} GlobsArePicked(h: Host, ms: seq<Mapping>, p: string)
    ensures GlobVars(h, ms, p) == Picked(ms, ByGlob(h, p))
  {
    hide NormalisePattern, GlobMatches;
    if ms != [] {
      GlobsArePicked(h, ms[..|ms| - 1], p);
    }
  }

  lemma {:induction false} CwdsArePicked(h: Host, ms: seq<Mapping>, p: string, command: string)
    requires IsCleanAbs(p)
    ensures CwdVars(h, ms, p, command) == Picked(ms, ByDirectory(h, p, command))
  {
    hide NormalisePattern, AncestorMatches;
    if ms != [] {
      CwdsArePicked(h, ms[..|ms| - 1], p, command);
    }
  }

  /** A lookup gives the vars of every matching path mapping and then those of every matching glob, within each kind in
      the order of declaration, each as often as it is declared. */
  lemma LookupByPosition(h: Host, ms: seq<Mapping>, p: string) returns (paths: seq<nat>, globs: seq<nat>)
    ensures Positions(paths, |ms|) && Positions(globs, |ms|)
    ensures forall i: nat | i < |ms| :: i in paths <==> ms[i].path != "" && Resolve(h, ms[i].path) == p
    ensures forall i: nat | i < |ms| ::
      i in globs <==> ms[i].path == "" && ms[i].glob != "" && GlobMatches(h, NormalisePattern(h, ms[i].glob), p)
    ensures LookupScan(h, ms, p) == VarsAt(ms, paths) + VarsAt(ms, globs)
  {
    hide Resolve, NormalisePattern, GlobMatches, PathVars, GlobVars, VarsAt, Picked;
    PathsArePicked(h, ms, p);
    GlobsArePicked(h, ms, p);
    paths := PickedByPosition(ms, ByPath(h, p));
    globs := PickedByPosition(ms, ByGlob(h, p));
  }

  /** A command in a directory gets the vars of every mapping that lists it and matches the directory or an ancestor, in
      the order of declaration. */
  lemma CwdByPosition(h: Host, ms: seq<Mapping>, p: string, command: string) returns (at: seq<nat>)
    requires IsCleanAbs(p)
    ensures Positions(at, |ms|)
    ensures forall i: nat | i < |ms| ::
      i in at <==> ms[i].path == "" && ms[i].glob == "" && ms[i].cwdGlob != "" && command in ms[i].commands
                   && AncestorMatches(h, NormalisePattern(h, ms[i].cwdGlob), p)
    ensures CwdVars(h, ms, p, command) == VarsAt(ms, at)
  {
    hide NormalisePattern, AncestorMatches, CwdVars, VarsAt, Picked;
    CwdsArePicked(h, ms, p, command);
    at := PickedByPosition(ms, ByDirectory(h, p, command));
  }

  /** The wrapped commands come in the order in which they are first listed. */
  lemma {:induction false} FirstOccurrencesInOrder(s: seq<string>, i: nat, j: nat) returns (a: nat, b: nat)
    requires i < j < |FirstOccurrences(s)|
    ensures a < b < |s| && s[a] == FirstOccurrences(s)[i] && s[b] == FirstOccurrences(s)[j]
    ensures s[a] !in s[..a] && s[b] !in s[..b]
  {
    var init, x := s[..|s| - 1], s[|s| - 1];
    assert s == init + [x];
    if j < |FirstOccurrences(init)| {
      a, b := FirstOccurrencesInOrder(init, i, j);
      assert s[..a] == init[..a] && s[..b] == init[..b];
    } else {
      b := |s| - 1;
      assert s[..b] == init;
      a := FirstAt(init, FirstOccurrences(init)[i]);
      assert s[..a] == init[..a];
    }
  }

  lemma {:induction false} FirstAt(s: seq<string>, x: string) returns (a: nat)
    requires x in s
    ensures a < |s| && s[a] == x && x !in s[..a]
  {
    if x in s[..|s| - 1] {
      a := FirstAt(s[..|s| - 1], x);
      assert s[..|s| - 1][..a] == s[..a];
    } else {
      a := |s| - 1;
    }
  }

  // ----- which value an environment keeps -------------------------------------------------------------------------

  lemma LastPosition(at: seq<nat>, n: nat, j: nat)
    requires Positions(at, n) && j in at && forall i | i in at :: i <= j
    ensures at != [] && at[|at| - 1] == j
  {
    var k :| 0 <= k < |at| && at[k] == j;
    assert at[|at| - 1] in at;
  }

  lemma SomePosition(at: seq<nat>, n: nat)
    requires Positions(at, n) && at != []
    ensures exists i: nat | i < n :: i in at
  {
    assert at[0] in at;
  }

  /** What the vars at some positions end with. */
  lemma VarsEnd(ms: seq<Mapping>, at: seq<nat>, j: nat)
    requires Positions(at, |ms|) && j in at && (forall i | i in at :: i <= j) && j < |ms| && ms[j].vars != []
    ensures VarsAt(ms, at) != [] && VarsAt(ms, at)[|VarsAt(ms, at)| - 1] == ms[j].vars[|ms[j].vars| - 1]
  {
    LastPosition(at, |ms|, j);
  }

  lemma AtMost(at: seq<nat>, n: nat, j: nat)
    requires Positions(at, n) && forall i: nat | j < i < n :: i !in at
    ensures forall i | i in at :: i <= j
  {
    forall i | i in at ensures i <= j {
      var k :| 0 <= k < |at| && at[k] == i;
    }
  }

  /** The last var of the last matching glob wins, wherever the matching path mappings are declared and whatever they
      say. */
  lemma LastGlobWins(h: Host, remotes: Remotes, c: Config, p: string, j: nat, x: string, b: string)
    requires j < |c.mappings| && c.mappings[j].path == "" && c.mappings[j].glob != ""
    requires GlobMatches(h, NormalisePattern(h, c.mappings[j].glob), p)
    requires forall i | j < i < |c.mappings| && c.mappings[i].path == "" && c.mappings[i].glob != "" ::
      !GlobMatches(h, NormalisePattern(h, c.mappings[i].glob), p)
    requires c.mappings[j].vars != []
    requires var v := c.mappings[j].vars[|c.mappings[j].vars| - 1]; v.name == Text(x) && v.value == Text(b) && b != ""
    requires FetchEnv(h, remotes, c, p).Ok?
    ensures x in FetchEnv(h, remotes, c, p).value && FetchEnv(h, remotes, c, p).value[x] == b
  {
    var ms := c.mappings;
    var paths, globs := LookupByPosition(h, ms, p);
    hide GlobMatches, NormalisePattern, Resolve, LookupScan, Positions, VarsAt, FetchVars;
    AtMost(globs, |ms|, j);
    VarsEnd(ms, globs, j);
    LastVarWins(remotes, c, LookupScan(h, ms, p), x, b);
  }

  lemma LastVarWins(remotes: Remotes, c: Config, vars: seq<Var>, x: string, b: string)
    requires vars != [] && FetchVars(remotes, ConfigView(c), vars).Ok?
    requires vars[|vars| - 1].name == Text(x) && vars[|vars| - 1].value == Text(b) && b != ""
    ensures x in FetchVars(remotes, ConfigView(c), vars).value && FetchVars(remotes, ConfigView(c), vars).value[x] == b
  {
    Environment.FetchedLiteral(remotes, c, vars[|vars| - 1], x, b);
    Environment.LastAssignmentWins(remotes, ConfigView(c), vars, x);
  }

  /** Among path mappings alone the last one wins. */
  lemma LastPathWins(h: Host, remotes: Remotes, c: Config, p: string, j: nat, x: string, b: string)
    requires j < |c.mappings| && c.mappings[j].path != "" && Resolve(h, c.mappings[j].path) == p
    requires forall i | j < i < |c.mappings| && c.mappings[i].path != "" :: Resolve(h, c.mappings[i].path) != p
    requires forall i | 0 <= i < |c.mappings| && c.mappings[i].path == "" && c.mappings[i].glob != "" ::
      !GlobMatches(h, NormalisePattern(h, c.mappings[i].glob), p)
    requires c.mappings[j].vars != []
    requires var v := c.mappings[j].vars[|c.mappings[j].vars| - 1]; v.name == Text(x) && v.value == Text(b) && b != ""
    requires FetchEnv(h, remotes, c, p).Ok?
    ensures x in FetchEnv(h, remotes, c, p).value && FetchEnv(h, remotes, c, p).value[x] == b
  {
    var ms := c.mappings;
    var paths, globs := LookupByPosition(h, ms, p);
    if globs != [] {
      SomePosition(globs, |ms|);
    }
    assert VarsAt(ms, globs) == [];
    hide GlobMatches, NormalisePattern, Resolve, LookupScan, Positions, VarsAt, FetchVars;
    AtMost(paths, |ms|, j);
    VarsEnd(ms, paths, j);
    LastVarWins(remotes, c, LookupScan(h, ms, p), x, b);
  }

  // ----- directories ----------------------------------------------------------------------------------------------

  /** In terms of strings: a is p, or the root, or p starts with a and a separator. */
  lemma {:induction false} AncestorsAreDirectories(a: string, p: string)
    requires IsCleanAbs(p) && IsCleanAbs(a)
    ensures IsAncestor(a, p) <==> a == p || a == "/" || a + "/" <= p
    decreases |p|
  {
    if a == "/" {
      RootIsAncestor(p);
    } else if a != p {
      if a + "/" <= p {
        var rest := p[|a| + 1..];
        assert p == a + "/" + rest;
        DirectoryIsAncestor(a, rest);
      } else if p != "/" {
        AncestorsAreDirectories(a, Dir(p));
        DirIsShorter(p);
      }
    }
  }

  lemma DirIsShorter(p: string)
    requires IsCleanAbs(p) && p != "/"
    ensures Dir(p) == "/" || Dir(p) + "/" <= p
  {
  }

  /** A literal directory written with or without a trailing slash means the directory itself. */
  lemma DirectoryPattern(h: Host, d: string)
    requires IsCleanAbs(d) && d != "/"
    ensures NormalisePattern(h, d) == d && NormalisePattern(h, d + "/") == d
  {
    assert (d + "/")[0] == '/' && (d + "/")[..|d|] == d;
    assert TrimSlashes(d) == d;
  }

  /** A working-directory mapping of a literal directory, with or without a trailing slash, applies in exactly that
      directory and everything below it. */
  lemma DirectoryAppliesBelow(h: Host, m: Mapping, d: string, p: string)
    requires IsCleanAbs(d) && d != "/" && Glob.IsLiteral(d) && IsCleanAbs(p)
    requires m.path == "" && m.glob == "" && (m.cwdGlob == d || m.cwdGlob == d + "/")
    ensures CwdApplies(h, m, p) <==> p == d || d + "/" <= p
  {
    DirectoryPattern(h, d);
    forall a ensures GlobMatches(h, d, a) <==> a == d {
      GlobLaws.LiteralMatchesItself(h.syn, d, a, true);
    }
    hide GlobMatches;
    AncestorsAreDirectories(d, p);
  }

  /** The home directory is what a leading tilde stands for, alone or before a slash. */
  lemma TildeIsHome(h: Host, rest: string)
    requires h.home != ""
    ensures Resolve(h, "~") == h.abs(h.home) && Resolve(h, "~/" + rest) == h.abs(h.join(h.home, rest))
    ensures forall p | p == "" || p[0] != '~' :: Resolve(h, p) == h.abs(p)
    ensures NormalisePattern(h, "~/" + rest) == NormalisePattern(h.(home := ""), h.join(h.home, rest))
  {
    assert ("~/" + rest)[2..] == rest;
  }

  // ----- the anchors ----------------------------------------------------------------------------------------------

  /** The anchors are no wider than the mappings: each is the target of a path mapping or the literal text a glob starts
      with. */
  lemma AnchorsAreExact(h: Host, ms: seq<Mapping>, t: string)
    ensures t in ExactAnchors(h, ms) <==> exists i | 0 <= i < |ms| :: ms[i].path != "" && Resolve(h, ms[i].path) == t
    ensures t in PrefixAnchors(h, ms) <==>
            exists i | 0 <= i < |ms| :: ms[i].path == "" && ms[i].glob != ""
                                        && Glob.LiteralPrefix(NormalisePattern(h, ms[i].glob)) == t
  {
    hide Resolve, NormalisePattern, Glob.LiteralPrefix;
  }
}
