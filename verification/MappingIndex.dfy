/** The lookup of mappings by path, glob and working directory (internal/config/mapping.go). The specification is a
    plain scan of the mappings in declaration order. */
module MappingIndex {
  import opened ConfigModel
  import Glob

  // ----- the host: paths and patterns -----------------------------------------------------------------------------

  /** An absolute path in the form filepath.Abs returns: "/" or segments each led by one slash. */
  predicate IsCleanAbs(p: string) {
    && p != "" && p[0] == '/'
    && (p == "/" || (p[|p| - 1] != '/' && forall i | 0 < i < |p| :: !(p[i - 1] == '/' && p[i] == '/')))
  }

  /** What the operating system contributes: the home directory, path joining, path resolution and the syntax of classes
      and alternatives in globs. */
  datatype Host = Host(home: string, join: (string, string) -> string, abs: string -> string, syn: Glob.Syntax)

  ghost predicate ValidHost(h: Host) {
    forall p :: IsCleanAbs(h.abs(p))
  }

  function ExpandTilde(h: Host, p: string): string {
    if p == "" || p[0] != '~' || h.home == "" then p
    else if p == "~" then h.home
    else if "~/" <= p then h.join(h.home, p[2..])
    else p
  }

  function TrimSlashes(p: string): string {
    if p != "" && p[|p| - 1] == '/' then TrimSlashes(p[..|p| - 1]) else p
  }

  /** Tilde expansion, and no trailing slash except for the bare root. */
  function NormalisePattern(h: Host, p: string): string {
    var s := ExpandTilde(h, p);
    if |s| > 1 then TrimSlashes(s) else s
  }

  function Resolve(h: Host, p: string): string {
    h.abs(ExpandTilde(h, p))
  }

  predicate GlobMatches(h: Host, pattern: string, p: string) {
    Glob.Matches(h.syn, pattern, p, true)
  }

  // ----- ancestors ------------------------------------------------------------------------------------------------

  function LastSlash(p: string): nat
    requires p != "" && p[0] == '/'
    ensures LastSlash(p) < |p| && p[LastSlash(p)] == '/'
    ensures forall i | LastSlash(p) < i < |p| :: p[i] != '/'
  {
    if p[|p| - 1] == '/' then |p| - 1 else LastSlash(p[..|p| - 1])
  }

  /** path.Dir on a clean absolute path. */
  function Dir(p: string): (d: string)
    requires IsCleanAbs(p)
    ensures IsCleanAbs(d) && (p != "/" ==> |d| < |p|) && (p == "/" ==> d == "/")
  {
    if LastSlash(p) == 0 then "/" else p[..LastSlash(p)]
  }

  /** a is p or an ancestor of p. */
  predicate IsAncestor(a: string, p: string)
    requires IsCleanAbs(p)
    decreases |p|
  {
    a == p || (p != "/" && IsAncestor(a, Dir(p)))
  }

  /** The pattern matches p or an ancestor of p. */
  ghost predicate AncestorMatches(h: Host, pattern: string, p: string)
    requires IsCleanAbs(p)
  {
    exists a :: IsAncestor(a, p) && GlobMatches(h, pattern, a)
  }

  lemma {:induction false} AncestorsCompose(a: string, b: string, p: string)
    requires IsCleanAbs(p) && IsCleanAbs(b) && IsAncestor(b, p) && IsAncestor(a, b)
    ensures IsAncestor(a, p)
    decreases |p|
  {
    if b != p {
      AncestorsCompose(a, b, Dir(p));
    }
  }

  /** In terms of strings: everything below a directory has it as an ancestor. */
  lemma {:induction false} DirectoryIsAncestor(d: string, rest: string)
    requires IsCleanAbs(d) && d != "/" && IsCleanAbs(d + "/" + rest)
    ensures IsAncestor(d, d + "/" + rest)
    decreases |rest|
  {
    var p := d + "/" + rest;
    var i := LastSlash(p);
    assert p[|d|] == '/';
    assert i >= |d|;
    if i == |d| {
      assert p[..i] == d;
    } else {
      var rest' := rest[..i - |d| - 1];
      assert Dir(p) == d + "/" + rest';
      DirectoryIsAncestor(d, rest');
    }
  }

  lemma {:induction false} RootIsAncestor(p: string)
    requires IsCleanAbs(p)
    ensures IsAncestor("/", p)
    decreases |p|
  {
    if p != "/" {
      RootIsAncestor(Dir(p));
    }
  }

  /** matchAncestor, the walk up to the root. */
  method MatchAncestor(h: Host, pattern: string, p: string) returns (found: bool)
    requires IsCleanAbs(p)
    ensures found <==> AncestorMatches(h, pattern, p)
  {
    var cur := p;
    while true
      invariant IsCleanAbs(cur) && IsAncestor(cur, p)
      invariant forall a | IsAncestor(a, p) :: IsAncestor(a, cur) || !GlobMatches(h, pattern, a)
      decreases |cur|
    {
      if GlobMatches(h, pattern, cur) {
        return true;
      }
      var parent := Dir(cur);
      if parent == cur {
        return false;
      }
      AncestorsCompose(parent, cur, p);
      cur := parent;
    }
  }

  // ----- the plain scan -------------------------------------------------------------------------------------------

  function PathVars(h: Host, ms: seq<Mapping>, p: string): seq<Var> {
    if ms == [] then []
    else
      var m := ms[|ms| - 1];
      PathVars(h, ms[..|ms| - 1], p) + (if m.path != "" && Resolve(h, m.path) == p then m.vars else [])
  }

  predicate IsGlob(m: Mapping) {
    m.path == "" && m.glob != ""
  }

  function GlobVars(h: Host, ms: seq<Mapping>, p: string): seq<Var> {
    if ms == [] then []
    else
      var m := ms[|ms| - 1];
      GlobVars(h, ms[..|ms| - 1], p)
      + (if IsGlob(m) && GlobMatches(h, NormalisePattern(h, m.glob), p) then m.vars else [])
  }

  /** What a path resolves to: path mappings first, then globs, each in declaration order. */
  function LookupScan(h: Host, ms: seq<Mapping>, p: string): seq<Var> {
    PathVars(h, ms, p) + GlobVars(h, ms, p)
  }

  predicate IsCwd(m: Mapping) {
    m.path == "" && m.glob == "" && m.cwdGlob != ""
  }

  ghost predicate CwdApplies(h: Host, m: Mapping, p: string)
    requires IsCleanAbs(p)
  {
    IsCwd(m) && AncestorMatches(h, NormalisePattern(h, m.cwdGlob), p)
  }

  ghost function CwdVars(h: Host, ms: seq<Mapping>, p: string, command: string): seq<Var>
    requires IsCleanAbs(p)
  {
    if ms == [] then []
    else
      var m := ms[|ms| - 1];
      CwdVars(h, ms[..|ms| - 1], p, command) + (if CwdApplies(h, m, p) && command in m.commands then m.vars else [])
  }

  /** All commands of the working-directory mappings that apply, with repetitions. */
  ghost function CwdCommandList(h: Host, ms: seq<Mapping>, p: string): seq<string>
    requires IsCleanAbs(p)
  {
    if ms == [] then []
    else
      var m := ms[|ms| - 1];
      CwdCommandList(h, ms[..|ms| - 1], p) + (if CwdApplies(h, m, p) then m.commands else [])
  }

  /** The first occurrences, in order. */
  function FirstOccurrences(s: seq<string>): (r: seq<string>)
    ensures forall x :: x in r <==> x in s
    ensures forall i, j | 0 <= i < j < |r| :: r[i] != r[j]
  {
    if s == [] then []
    else
      var r := FirstOccurrences(s[..|s| - 1]);
      var x := s[|s| - 1];
      assert s == s[..|s| - 1] + [x];
      if x in r then r else r + [x]
  }

  ghost predicate PathMapped(h: Host, ms: seq<Mapping>, p: string) {
    exists i | 0 <= i < |ms| :: ms[i].path != "" && Resolve(h, ms[i].path) == p
  }

  ghost predicate GlobMapped(h: Host, ms: seq<Mapping>, p: string) {
    exists i | 0 <= i < |ms| :: IsGlob(ms[i]) && GlobMatches(h, NormalisePattern(h, ms[i].glob), p)
  }

  // ----- the index ------------------------------------------------------------------------------------------------

  datatype GlobEntry = GlobEntry(pattern: string, vars: seq<Var>)
  datatype CwdEntry = CwdEntry(pattern: string, commands: seq<string>, vars: seq<Var>)

  function GlobEntries(h: Host, ms: seq<Mapping>): seq<GlobEntry> {
    if ms == [] then []
    else
      var m := ms[|ms| - 1];
      GlobEntries(h, ms[..|ms| - 1]) + (if IsGlob(m) then [GlobEntry(NormalisePattern(h, m.glob), m.vars)] else [])
  }

  function CwdEntries(h: Host, ms: seq<Mapping>): seq<CwdEntry> {
    if ms == [] then []
    else
      var m := ms[|ms| - 1];
      CwdEntries(h, ms[..|ms| - 1]) +
      (if IsCwd(m) then [CwdEntry(NormalisePattern(h, m.cwdGlob), m.commands, m.vars)] else [])
  }

  function GlobEntryVars(h: Host, es: seq<GlobEntry>, p: string): seq<Var> {
    if es == [] then []
    else
      var e := es[|es| - 1];
      GlobEntryVars(h, es[..|es| - 1], p) + (if GlobMatches(h, e.pattern, p) then e.vars else [])
  }

  ghost function CwdEntryVars(h: Host, es: seq<CwdEntry>, p: string, command: string): seq<Var>
    requires IsCleanAbs(p)
  {
    if es == [] then []
    else
      var e := es[|es| - 1];
      CwdEntryVars(h, es[..|es| - 1], p, command) +
      (if command in e.commands && AncestorMatches(h, e.pattern, p) then e.vars else [])
  }

  ghost function CwdEntryCommands(h: Host, es: seq<CwdEntry>, p: string): seq<string>
    requires IsCleanAbs(p)
  {
    if es == [] then []
    else
      var e := es[|es| - 1];
      CwdEntryCommands(h, es[..|es| - 1], p) + (if AncestorMatches(h, e.pattern, p) then e.commands else [])
  }

  lemma CwdEntryCommandsStep(h: Host, es: seq<CwdEntry>, p: string, i: nat)
    requires IsCleanAbs(p) && i < |es|
    ensures CwdEntryCommands(h, es[..i + 1], p) ==
            if AncestorMatches(h, es[i].pattern, p) then CwdEntryCommands(h, es[..i], p) + es[i].commands
            else CwdEntryCommands(h, es[..i], p)
  {
    hide AncestorMatches;
    assert es[..i + 1][..i] == es[..i];
  }

  lemma {:induction false} GlobEntriesScan(h: Host, ms: seq<Mapping>, p: string)
    ensures GlobEntryVars(h, GlobEntries(h, ms), p) == GlobVars(h, ms, p)
  {
    hide GlobMatches, NormalisePattern;
    if ms != [] {
      var init, m := ms[..|ms| - 1], ms[|ms| - 1];
      GlobEntriesScan(h, init, p);
      var es, es0 := GlobEntries(h, ms), GlobEntries(h, init);
      if IsGlob(m) {
        assert es[..|es| - 1] == es0 && es[|es| - 1] == GlobEntry(NormalisePattern(h, m.glob), m.vars);
      } else {
        assert es == es0;
      }
    }
  }

  ghost predicate SomeEntryMatches(h: Host, es: seq<GlobEntry>, p: string) {
    exists i | 0 <= i < |es| :: GlobMatches(h, es[i].pattern, p)
  }

  lemma OneMoreMatches(h: Host, es: seq<GlobEntry>, e: GlobEntry, p: string)
    ensures SomeEntryMatches(h, es + [e], p) <==> SomeEntryMatches(h, es, p) || GlobMatches(h, e.pattern, p)
  {
    hide GlobMatches;
    var all := es + [e];
    if i :| 0 <= i < |es| && GlobMatches(h, es[i].pattern, p) {
      assert all[i] == es[i];
    }
    assert all[|es|] == e;
  }

  lemma {:induction false} GlobEntriesMapped(h: Host, ms: seq<Mapping>, p: string)
    ensures SomeEntryMatches(h, GlobEntries(h, ms), p) <==> GlobMapped(h, ms, p)
  {
    hide GlobMatches, NormalisePattern;
    if ms != [] {
      var init, m := ms[..|ms| - 1], ms[|ms| - 1];
      assert ms == init + [m];
      GlobEntriesMapped(h, init, p);
      GlobMappedGrows(h, init, m, p);
      hide GlobMapped, SomeEntryMatches;
      if IsGlob(m) {
        OneMoreMatches(h, GlobEntries(h, init), GlobEntry(NormalisePattern(h, m.glob), m.vars), p);
      } else {
        assert GlobEntries(h, ms) == GlobEntries(h, init);
      }
    }
  }

  lemma {:induction false} CwdEntriesScan(h: Host, ms: seq<Mapping>, p: string, command: string)
    requires IsCleanAbs(p)
    ensures CwdEntryVars(h, CwdEntries(h, ms), p, command) == CwdVars(h, ms, p, command)
    ensures CwdEntryCommands(h, CwdEntries(h, ms), p) == CwdCommandList(h, ms, p)
  {
    hide AncestorMatches, NormalisePattern;
    if ms != [] {
      var init, m := ms[..|ms| - 1], ms[|ms| - 1];
      CwdEntriesScan(h, init, p, command);
      var es, es0 := CwdEntries(h, ms), CwdEntries(h, init);
      if IsCwd(m) {
        assert es[..|es| - 1] == es0;
        assert es[|es| - 1] == CwdEntry(NormalisePattern(h, m.cwdGlob), m.commands, m.vars);
      } else {
        assert es == es0;
      }
    }
  }

  lemma {:induction false} PathVarsOfUnmapped(h: Host, ms: seq<Mapping>, p: string)
    requires !PathMapped(h, ms, p)
    ensures PathVars(h, ms, p) == []
  {
    hide PathMapped, Resolve;
    if ms != [] {
      var init, m := ms[..|ms| - 1], ms[|ms| - 1];
      assert ms == init + [m];
      PathMappedGrows(h, init, m, p);
      PathVarsOfUnmapped(h, init, p);
    }
  }

  /** One more mapping. */
  lemma ScanGrows(h: Host, ms: seq<Mapping>, m: Mapping)
    ensures forall p :: PathVars(h, ms + [m], p) ==
                        PathVars(h, ms, p) + (if m.path != "" && Resolve(h, m.path) == p then m.vars else [])
    ensures GlobEntries(h, ms + [m]) ==
            GlobEntries(h, ms) + (if IsGlob(m) then [GlobEntry(NormalisePattern(h, m.glob), m.vars)] else [])
    ensures CwdEntries(h, ms + [m]) ==
            CwdEntries(h, ms)
            + (if IsCwd(m) then [CwdEntry(NormalisePattern(h, m.cwdGlob), m.commands, m.vars)] else [])
  {
    hide NormalisePattern, Resolve;
    assert (ms + [m])[..|ms|] == ms && (ms + [m])[|ms|] == m;
  }

  lemma PathMappedGrows(h: Host, ms: seq<Mapping>, m: Mapping, p: string)
    ensures PathMapped(h, ms + [m], p) <==> PathMapped(h, ms, p) || (m.path != "" && Resolve(h, m.path) == p)
  {
    var all := ms + [m];
    assert all[|ms|] == m && forall i | 0 <= i < |ms| :: all[i] == ms[i];
    if PathMapped(h, all, p) {
      var i :| 0 <= i < |all| && all[i].path != "" && Resolve(h, all[i].path) == p;
      assert i == |ms| || ms[i].path != "";
    }
    if PathMapped(h, ms, p) {
      var i :| 0 <= i < |ms| && ms[i].path != "" && Resolve(h, ms[i].path) == p;
      assert all[i].path != "";
    }
  }

  function ExactAnchors(h: Host, ms: seq<Mapping>): set<string> {
    set i | 0 <= i < |ms| && ms[i].path != "" :: Resolve(h, ms[i].path)
  }

  function PrefixAnchors(h: Host, ms: seq<Mapping>): set<string> {
    set i | 0 <= i < |ms| && IsGlob(ms[i]) :: Glob.LiteralPrefix(NormalisePattern(h, ms[i].glob))
  }

  lemma OneMoreGlob(h: Host, init: seq<Mapping>, m: Mapping)
    ensures PrefixAnchors(h, init + [m]) ==
            PrefixAnchors(h, init) + if IsGlob(m) then {Glob.LiteralPrefix(NormalisePattern(h, m.glob))} else {}
  {
    hide NormalisePattern, Glob.LiteralPrefix;
    var ms := init + [m];
    assert forall i | 0 <= i < |init| :: ms[i] == init[i];
    assert ms[|init|] == m;
  }

  /** The literal prefixes of the index's entries. */
  function EntryPrefixes(es: seq<GlobEntry>): set<string> {
    set i | 0 <= i < |es| :: Glob.LiteralPrefix(es[i].pattern)
  }

  lemma OneMoreEntry(es: seq<GlobEntry>, e: GlobEntry)
    ensures EntryPrefixes(es + [e]) == EntryPrefixes(es) + {Glob.LiteralPrefix(e.pattern)}
  {
    hide Glob.LiteralPrefix;
    var all := es + [e];
    assert forall i | 0 <= i < |es| :: all[i] == es[i];
    assert all[|es|] == e;
  }

  lemma {:induction false} GlobEntryPrefixes(h: Host, ms: seq<Mapping>)
    ensures PrefixAnchors(h, ms) == EntryPrefixes(GlobEntries(h, ms))
  {
    hide NormalisePattern, Glob.LiteralPrefix;
    if ms != [] {
      var init, m := ms[..|ms| - 1], ms[|ms| - 1];
      GlobEntryPrefixes(h, init);
      assert ms == init + [m];
      OneMoreGlob(h, init, m);
      if IsGlob(m) {
        OneMoreEntry(GlobEntries(h, init), GlobEntry(NormalisePattern(h, m.glob), m.vars));
      } else {
        assert GlobEntries(h, ms) == GlobEntries(h, init);
      }
    }
  }

  lemma OneMoreOccurrence(s: seq<string>, x: string)
    ensures FirstOccurrences(s + [x]) == FirstOccurrences(s) + if x in FirstOccurrences(s) then [] else [x]
  {
    assert (s + [x])[..|s|] == s;
  }

  /** The inner loop of CwdCommands: appends the commands not seen yet. */
  method AddCommands(seen: seq<string>, commands: seq<string>, ghost before: seq<string>) returns (out: seq<string>)
    requires seen == FirstOccurrences(before)
    ensures out == FirstOccurrences(before + commands)
  {
    hide FirstOccurrences;
    out := seen;
    assert before + commands[..0] == before;
    for j := 0 to |commands|
      invariant out == FirstOccurrences(before + commands[..j])
    {
      var cmd := commands[j];
      assert before + commands[..j + 1] == before + commands[..j] + [cmd];
      OneMoreOccurrence(before + commands[..j], cmd);
      if cmd !in out {
        out := out + [cmd];
      }
    }
    assert commands[..|commands|] == commands;
  }

  class Index {
    const host: Host
    ghost const mappings: seq<Mapping>
    var exact: map<string, seq<Var>>
    var globs: seq<GlobEntry>
    var cwdGlobs: seq<CwdEntry>

    /** The index holds exactly the given mappings. */
    ghost predicate Represents(ms: seq<Mapping>)
      reads this
    {
      && (forall p :: p in exact <==> PathMapped(host, ms, p))
      && (forall p | p in exact :: exact[p] == PathVars(host, ms, p))
      && globs == GlobEntries(host, ms)
      && cwdGlobs == CwdEntries(host, ms)
    }

    ghost predicate Valid()
      reads this
    {
      ValidHost(host) && Represents(mappings)
    }

    /** NewIndex. */
    constructor (host: Host, ms: seq<Mapping>)
      requires ValidHost(host)
      ensures Valid() && this.host == host && mappings == ms
    {
      this.host := host;
      this.mappings := ms;
      exact, globs, cwdGlobs := map[], [], [];
      new;
      assert ms[..0] == [];
      for i := 0 to |ms|
        invariant Represents(ms[..i])
      {
        assert ms[..i + 1] == ms[..i] + [ms[i]] && ms[..i + 1][..i] == ms[..i];
        Add(ms[..i], ms[i]);
      }
      assert ms[..|ms|] == ms;
    }

    /** One round of the loop of NewIndex. */
    method Add(ghost done: seq<Mapping>, m: Mapping)
      requires Represents(done)
      modifies this
      ensures Represents(done + [m])
    {
      hide NormalisePattern, Resolve, PathMapped, PathVars, GlobEntries, CwdEntries;
      ScanGrows(host, done, m);
      forall p {
        PathMappedGrows(host, done, m, p);
      }
      if m.path != "" {
        var abs := Resolve(host, m.path);
        if abs !in exact {
          PathVarsOfUnmapped(host, done, abs);
        }
        exact := exact[abs := (if abs in exact then exact[abs] else []) + m.vars];
      } else if m.glob != "" {
        globs := globs + [GlobEntry(NormalisePattern(host, m.glob), m.vars)];
      } else if m.cwdGlob != "" {
        cwdGlobs := cwdGlobs + [CwdEntry(NormalisePattern(host, m.cwdGlob), m.commands, m.vars)];
      }
    }

    /** The vars of a path: the plain scan. */
    method Lookup(p: string) returns (out: seq<Var>)
      requires Valid()
      ensures out == LookupScan(host, mappings, p)
    {
      hide Glob.Matches, PathVars, GlobVars, GlobMapped, PathMapped;
      out := [];
      if p in exact {
        out := exact[p];
      } else {
        PathVarsOfUnmapped(host, mappings, p);
      }
      for i := 0 to |globs|
        invariant out == PathVars(host, mappings, p) + GlobEntryVars(host, globs[..i], p)
      {
        assert globs[..i + 1][..i] == globs[..i];
        if GlobMatches(host, globs[i].pattern, p) {
          out := out + globs[i].vars;
        }
      }
      assert globs[..|globs|] == globs;
      GlobEntriesScan(host, mappings, p);
    }

    /** Whether any path or glob mapping applies. */
    method Mapped(p: string) returns (r: bool)
      requires Valid()
      ensures r <==> PathMapped(host, mappings, p) || GlobMapped(host, mappings, p)
    {
      hide Glob.Matches, GlobMapped, PathMapped;
      GlobEntriesMapped(host, mappings, p);
      if p in exact {
        return true;
      }
      for i := 0 to |globs|
        invariant forall k | 0 <= k < i :: !GlobMatches(host, globs[k].pattern, p)
      {
        if GlobMatches(host, globs[i].pattern, p) {
          return true;
        }
      }
      return false;
    }

    /** The vars of a working directory and a command. */
    method LookupCwd(pwd: string, command: string) returns (out: seq<Var>)
      requires Valid()
      ensures out == CwdVars(host, mappings, Resolve(host, pwd), command)
    {
      out := [];
      var p := Resolve(host, pwd);
      CwdEntriesScan(host, mappings, p, command);
      for i := 0 to |cwdGlobs|
        invariant out == CwdEntryVars(host, cwdGlobs[..i], p, command)
      {
        assert cwdGlobs[..i + 1][..i] == cwdGlobs[..i];
        var e := cwdGlobs[i];
        if command in e.commands {
          var matched := MatchAncestor(host, e.pattern, p);
          if matched {
            out := out + e.vars;
          }
        }
      }
      assert cwdGlobs[..|cwdGlobs|] == cwdGlobs;
    }

    /** The commands wrapped in a working directory, each once, in order of first occurrence. */
    method CwdCommands(pwd: string) returns (out: seq<string>)
      requires Valid()
      ensures out == FirstOccurrences(CwdCommandList(host, mappings, Resolve(host, pwd)))
    {
      out := [];
      var p := Resolve(host, pwd);
      CwdEntriesScan(host, mappings, p, "");
      for i := 0 to |cwdGlobs|
        invariant out == FirstOccurrences(CwdEntryCommands(host, cwdGlobs[..i], p))
      {
        hide FirstOccurrences, AncestorMatches, CwdEntryCommands;
        CwdEntryCommandsStep(host, cwdGlobs, p, i);
        var e := cwdGlobs[i];
        var matched := MatchAncestor(host, e.pattern, p);
        if matched {
          out := AddCommands(out, e.commands, CwdEntryCommands(host, cwdGlobs[..i], p));
        }
      }
      assert cwdGlobs[..|cwdGlobs|] == cwdGlobs;
    }

    /** What the shell needs to know before asking: the exact targets and the literal prefixes of the globs, as sets. */
    method Anchors() returns (targets: set<string>, prefixes: set<string>)
      requires Valid()
      ensures targets == ExactAnchors(host, mappings) && prefixes == PrefixAnchors(host, mappings)
    {
      hide NormalisePattern, Resolve, Glob.LiteralPrefix;
      targets := exact.Keys;
      assert targets == ExactAnchors(host, mappings) by {
        assert forall p :: p in ExactAnchors(host, mappings) <==> PathMapped(host, mappings, p);
      }
      GlobEntryPrefixes(host, mappings);
      prefixes := {};
      for i := 0 to |globs|
        invariant prefixes == EntryPrefixes(globs[..i])
      {
        assert globs[..i + 1] == globs[..i] + [globs[i]];
        OneMoreEntry(globs[..i], globs[i]);
        var l := Glob.ComputeLiteralPrefix(globs[i].pattern);
        prefixes := prefixes + {l};
      }
      assert globs[..|globs|] == globs;
    }
  }

  // ----- what the scan promises -----------------------------------------------------------------------------------

  /** The shell's pre-filter: whether the anchors let a path through to the full question. */
  predicate PassesAnchors(targets: set<string>, prefixes: set<string>, p: string) {
    p in targets || exists l | l in prefixes :: l <= p
  }

  /** The pre-filter lets every mapped path through, except a directory itself under a pattern for everything below it:
      then the path with a separator added is one of the prefixes. */
  lemma AnchorsAreSound(h: Host, ms: seq<Mapping>, p: string)
    requires PathMapped(h, ms, p) || GlobMapped(h, ms, p)
    ensures PassesAnchors(ExactAnchors(h, ms), PrefixAnchors(h, ms), p) || p + "/" in PrefixAnchors(h, ms)
  {
    if PathMapped(h, ms, p) {
      assert p in ExactAnchors(h, ms);
    } else {
      var i :| 0 <= i < |ms| && IsGlob(ms[i]) && GlobMatches(h, NormalisePattern(h, ms[i].glob), p);
      var pattern := NormalisePattern(h, ms[i].glob);
      Glob.PrefixMissesOnlyTheRoot(h.syn, pattern, p);
      assert Glob.LiteralPrefix(pattern) in PrefixAnchors(h, ms);
    }
  }

  /** In a validated config a command is wrapped in a directory exactly when it resolves to some var there. */
  lemma {:induction false} CommandsAgreeWithLookup(h: Host, ms: seq<Mapping>, p: string, command: string)
    requires IsCleanAbs(p) && forall m | m in ms :: ValidMapping(m)
    ensures command in FirstOccurrences(CwdCommandList(h, ms, p)) <==> CwdVars(h, ms, p, command) != []
  {
    hide AncestorMatches, NormalisePattern, IsValidCommandName, ValidVar;
    if ms != [] {
      var init, m := ms[..|ms| - 1], ms[|ms| - 1];
      assert m in ms && forall x | x in init :: x in ms;
      CommandsAgreeWithLookup(h, init, p, command);
      assert command in CwdCommandList(h, ms, p) <==>
             command in CwdCommandList(h, init, p) || (CwdApplies(h, m, p) && command in m.commands);
    }
  }

  lemma {:induction false} PathMappedAgrees(h: Host, ms: seq<Mapping>, p: string)
    requires forall m | m in ms :: m.vars != []
    ensures PathMapped(h, ms, p) <==> PathVars(h, ms, p) != []
  {
    hide Resolve, PathMapped;
    if ms != [] {
      var init, m := ms[..|ms| - 1], ms[|ms| - 1];
      assert m in ms && forall x | x in init :: x in ms;
      PathMappedAgrees(h, init, p);
      assert ms == init + [m];
      PathMappedGrows(h, init, m, p);
    } else {
      NothingMapped(h, p);
    }
  }

  lemma {:induction false} GlobMappedAgrees(h: Host, ms: seq<Mapping>, p: string)
    requires forall m | m in ms :: m.vars != []
    ensures GlobMapped(h, ms, p) <==> GlobVars(h, ms, p) != []
  {
    hide NormalisePattern, GlobMatches, GlobMapped;
    if ms != [] {
      var init, m := ms[..|ms| - 1], ms[|ms| - 1];
      assert m in ms && forall x | x in init :: x in ms;
      GlobMappedAgrees(h, init, p);
      assert ms == init + [m];
      GlobMappedGrows(h, init, m, p);
    } else {
      NothingMapped(h, p);
    }
  }

  lemma NothingMapped(h: Host, p: string)
    ensures !PathMapped(h, [], p) && !GlobMapped(h, [], p)
  {
  }

  lemma GlobMappedGrows(h: Host, ms: seq<Mapping>, m: Mapping, p: string)
    ensures GlobMapped(h, ms + [m], p) <==>
            GlobMapped(h, ms, p) || (IsGlob(m) && GlobMatches(h, NormalisePattern(h, m.glob), p))
  {
    hide NormalisePattern, GlobMatches;
    var all := ms + [m];
    assert all[|ms|] == m && forall i | 0 <= i < |ms| :: all[i] == ms[i];
    if GlobMapped(h, all, p) {
      var i :| 0 <= i < |all| && IsGlob(all[i]) && GlobMatches(h, NormalisePattern(h, all[i].glob), p);
      assert i == |ms| || IsGlob(ms[i]);
    }
    if GlobMapped(h, ms, p) {
      var i :| 0 <= i < |ms| && IsGlob(ms[i]) && GlobMatches(h, NormalisePattern(h, ms[i].glob), p);
      assert IsGlob(all[i]);
    }
  }

  /** A path that some mapping accepts resolves to some var, and conversely, in a validated config. */
  lemma MappedAgreesWithLookup(h: Host, ms: seq<Mapping>, p: string)
    requires forall m | m in ms :: ValidMapping(m)
    ensures PathMapped(h, ms, p) || GlobMapped(h, ms, p) <==> LookupScan(h, ms, p) != []
  {
    hide PathMapped, GlobMapped, PathVars, GlobVars, IsValidCommandName;
    PathMappedAgrees(h, ms, p);
    GlobMappedAgrees(h, ms, p);
  }

  lemma MatchPersists(h: Host, pattern: string, a: string, p: string)
    requires IsCleanAbs(p) && IsCleanAbs(a) && IsAncestor(a, p)
    requires AncestorMatches(h, pattern, a)
    ensures AncestorMatches(h, pattern, p)
  {
    var b :| IsAncestor(b, a) && GlobMatches(h, pattern, b);
    AncestorsCompose(b, a, p);
  }

  lemma ApplyPersists(h: Host, m: Mapping, a: string, p: string)
    requires IsCleanAbs(p) && IsCleanAbs(a) && IsAncestor(a, p)
    ensures CwdApplies(h, m, a) ==> CwdApplies(h, m, p)
  {
    if CwdApplies(h, m, a) {
      MatchPersists(h, NormalisePattern(h, m.cwdGlob), a, p);
    }
  }

  /** Descending never loses a var: what applies in a directory applies in everything below it. */
  lemma {:induction false} CwdVarsPersist(h: Host, ms: seq<Mapping>, a: string, p: string, command: string)
    requires IsCleanAbs(p) && IsCleanAbs(a) && IsAncestor(a, p)
    ensures multiset(CwdVars(h, ms, a, command)) <= multiset(CwdVars(h, ms, p, command))
  {
    hide CwdApplies;
    if ms != [] {
      CwdVarsPersist(h, ms[..|ms| - 1], a, p, command);
      ApplyPersists(h, ms[|ms| - 1], a, p);
    }
  }

  /** Nor a wrapped command. */
  lemma {:induction false} CwdCommandsPersist(h: Host, ms: seq<Mapping>, a: string, p: string)
    requires IsCleanAbs(p) && IsCleanAbs(a) && IsAncestor(a, p)
    ensures forall c | c in CwdCommandList(h, ms, a) :: c in CwdCommandList(h, ms, p)
  {
    hide CwdApplies;
    if ms != [] {
      CwdCommandsPersist(h, ms[..|ms| - 1], a, p);
      ApplyPersists(h, ms[|ms| - 1], a, p);
    }
  }
}
