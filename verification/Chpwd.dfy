/** The per-prompt hook of a shell: the wrapper directory, the match anchors and the recorded config mtime
    (internal/chpwd/chpwd.go, reconcile_unix.go). */
module Chpwd {
  import opened Wrappers
  import opened ConfigModel
  import opened MappingIndex

  /** A directory entry: a symbolic link with its target, or anything else. */
  datatype Entry = Link(target: string) | Other

  datatype Anchors = Anchors(targets: set<string>, prefixes: set<string>)

  /** What one shell has on disk; a last-mtime file that is missing or unreadable reads as 0. */
  datatype Shell = Shell(wrappers: map<string, Entry>, anchors: Anchors, lastMtime: int)

  const NO_ANCHORS := Anchors({}, {})

  /** One wrapper for every command wrapped in the directory, each a link to the jitenv binary. */
  ghost function WrappersFor(h: Host, exe: string, ms: seq<Mapping>, pwd: string): map<string, Entry>
    requires ValidHost(h)
  {
    map c | c in FirstOccurrences(CwdCommandList(h, ms, Resolve(h, pwd))) :: Link(exe)
  }

  function AnchorsFor(h: Host, ms: seq<Mapping>): Anchors {
    Anchors(ExactAnchors(h, ms), PrefixAnchors(h, ms))
  }

  /** The cheap path: nothing can have changed. */
  predicate Skips(s: Shell, mtime: int, oldPwd: string, newPwd: string) {
    oldPwd == newPwd && s.lastMtime != 0 && mtime == s.lastMtime
  }

  /** The shell after a prompt whose stat saw `mtime` and whose load, if it came to that, gave `loaded`. */
  ghost function After(h: Host, exe: string, s: Shell, mtime: int, loaded: Option<seq<Mapping>>, oldPwd: string,
                       newPwd: string)
    : Shell
    requires ValidHost(h)
  {
    if Skips(s, mtime, oldPwd, newPwd) then s
    else if loaded.None? then s.(anchors := NO_ANCHORS)
    else Shell(WrappersFor(h, exe, loaded.value, newPwd), AnchorsFor(h, loaded.value), mtime)
  }

  // ----- one prompt -----------------------------------------------------------------------------------------------

  class ShellDir {
    var wrappers: map<string, Entry>
    var anchors: Anchors
    var lastMtime: int

    constructor ()
      ensures State() == Shell(map[], NO_ANCHORS, 0)
    {
      wrappers, anchors, lastMtime := map[], NO_ANCHORS, 0;
    }

    function State(): Shell
      reads this
    {
      Shell(wrappers, anchors, lastMtime)
    }

    /** Afterwards the directory holds exactly the wanted wrappers, and the result says whether it changed. */
    method Reconcile(exe: string, wanted: seq<string>) returns (changed: bool)
      modifies this`wrappers
      ensures wrappers == map c | c in wanted :: Link(exe)
      ensures changed <==> wrappers != old(wrappers)
    {
      changed := false;
      var todo := wrappers.Keys;
      while todo != {}
        invariant todo <= wrappers.Keys <= old(wrappers).Keys
        invariant forall n | n in wrappers :: wrappers[n] == old(wrappers)[n]
        invariant forall n | n in old(wrappers) && (n in wanted || n in todo) :: n in wrappers
        invariant forall n | n in wrappers && n !in todo :: n in wanted
        invariant changed <==> wrappers != old(wrappers)
        decreases todo
      {
        var name :| name in todo;
        todo := todo - {name};
        if name !in wanted {
          wrappers := wrappers - {name};
          changed := true;
          assert name !in wrappers;
        }
      }
      ghost var kept := wrappers;
      for i := 0 to |wanted|
        invariant forall n | n in wrappers :: n in wanted
        invariant forall n | n in wrappers :: wrappers[n] == Link(exe) || (n in kept && wrappers[n] == kept[n])
        invariant kept.Keys <= wrappers.Keys
        invariant forall k | 0 <= k < i :: wanted[k] in wrappers && wrappers[wanted[k]] == Link(exe)
        invariant forall n | n in kept && kept[n] == Link(exe) :: wrappers[n] == Link(exe)
        invariant changed <==> wrappers != old(wrappers)
      {
        var c := wanted[i];
        if c !in wrappers || wrappers[c] != Link(exe) {
          ghost var before := wrappers;
          wrappers := wrappers[c := Link(exe)];
          changed := true;
          NewEntryDiffers(old(wrappers), kept, wrappers, c, exe);
        }
      }
    }

    /** Run, past the parsing of its arguments. */
    method Run(h: Host, exe: string, mtime: int, loaded: Option<seq<Mapping>>, oldPwd: string, newPwd: string)
      returns (changed: bool)
      requires ValidHost(h)
      modifies this
      ensures State() == After(h, exe, old(State()), mtime, loaded, oldPwd, newPwd)
      ensures changed <==> wrappers != old(wrappers)
    {
      if oldPwd == newPwd && lastMtime != 0 && mtime == lastMtime {
        return false;
      }
      if loaded.None? {
        anchors := NO_ANCHORS;
        return false;
      }
      var idx := new Index(h, loaded.value);
      var wanted := idx.CwdCommands(newPwd);
      var targets, prefixes := idx.Anchors();
      anchors := Anchors(targets, prefixes);
      changed := Reconcile(exe, wanted);
      lastMtime := mtime;
    }
  }

  /** Creating a wrapper changes the directory for good. */
  lemma NewEntryDiffers(before: map<string, Entry>, kept: map<string, Entry>, now: map<string, Entry>, c: string,
                        exe: string)
    requires c in now && now[c] == Link(exe) && !(c in kept && kept[c] == Link(exe))
    requires c in before ==> c in kept && kept[c] == before[c]
    ensures now != before
  {
  }

  // ----- whole sessions -------------------------------------------------------------------------------------------

  /** The config file over time: at each moment its mtime, 0 when it cannot be read, and what loading it gives. */
  datatype Version = Version(mtime: int, content: Option<seq<Mapping>>)

  /** A prompt reads the mtime at one moment and, if it does not skip, loads the file at the same or a later one. */
  datatype Prompt = Prompt(oldPwd: string, newPwd: string, stat: nat, load: nat)

  ghost predicate NeverReused(versions: seq<Version>) {
    forall i, j | 0 <= i < j < |versions| && versions[i].mtime == versions[j].mtime :: versions[i].mtime == 0
  }

  /** The prompts of one shell, in order; a prompt's old directory is the previous one's new directory. */
  ghost predicate Session(h: Host, exe: string, versions: seq<Version>, prompts: seq<Prompt>, shells: seq<Shell>) {
    && ValidHost(h)
    && |shells| == |prompts| + 1 && shells[0].lastMtime == 0
    && (forall i | 0 <= i < |prompts| :: prompts[i].stat <= prompts[i].load < |versions|)
    && (forall i | 0 < i < |prompts| ::
          prompts[i].oldPwd == prompts[i - 1].newPwd && prompts[i - 1].load <= prompts[i].stat)
    && forall i | 0 <= i < |prompts| ::
      shells[i + 1] == After(h, exe, shells[i], versions[prompts[i].stat].mtime, versions[prompts[i].load].content,
                             prompts[i].oldPwd, prompts[i].newPwd)
  }

  /** The shell's files are what a fresh computation from this version would give. */
  ghost predicate UpToDate(h: Host, exe: string, s: Shell, v: Version, pwd: string)
    requires ValidHost(h)
  {
    && v.content.Some?
    && s.wrappers == WrappersFor(h, exe, v.content.value, pwd) && s.anchors == AnchorsFor(h, v.content.value)
  }

  /** After a prompt that last looked at moment `latest`: a recorded mtime is that of some moment until then, and if it
      is the one of `latest` itself, the files are up to date with it. */
  ghost predicate Recorded(h: Host, exe: string, versions: seq<Version>, s: Shell, latest: nat, pwd: string)
    requires ValidHost(h) && latest < |versions|
  {
    s.lastMtime != 0 ==>
      && (exists v | 0 <= v <= latest :: versions[v].mtime == s.lastMtime)
      && (versions[latest].mtime == s.lastMtime ==> UpToDate(h, exe, s, versions[latest], pwd))
  }

  lemma PromptRecords(h: Host, exe: string, versions: seq<Version>, s: Shell, latest: nat, p: Prompt)
    requires ValidHost(h) && NeverReused(versions) && latest <= p.stat <= p.load < |versions|
    requires Recorded(h, exe, versions, s, latest, p.oldPwd)
    ensures var mtime, loaded := versions[p.stat].mtime, versions[p.load].content;
            var s' := After(h, exe, s, mtime, loaded, p.oldPwd, p.newPwd);
            && Recorded(h, exe, versions, s', p.load, p.newPwd)
            && (Skips(s, mtime, p.oldPwd, p.newPwd) ==> UpToDate(h, exe, s, versions[p.stat], p.newPwd))
  {
    hide WrappersFor, AnchorsFor;
    var mtime := versions[p.stat].mtime;
    if s.lastMtime != 0 {
      var v :| 0 <= v <= latest && versions[v].mtime == s.lastMtime;
      if Skips(s, mtime, p.oldPwd, p.newPwd) {
        assert v == latest == p.stat;
      }
    }
  }

  lemma {:induction false} SessionRecords(h: Host, exe: string, versions: seq<Version>, prompts: seq<Prompt>,
                                          shells: seq<Shell>, i: nat)
    requires Session(h, exe, versions, prompts, shells) && NeverReused(versions) && i < |prompts|
    ensures Recorded(h, exe, versions, shells[i + 1], prompts[i].load, prompts[i].newPwd)
    ensures Skips(shells[i], versions[prompts[i].stat].mtime, prompts[i].oldPwd, prompts[i].newPwd) ==>
      UpToDate(h, exe, shells[i], versions[prompts[i].stat], prompts[i].newPwd)
  {
    hide After, Recorded, UpToDate;
    if i == 0 {
      FirstPromptRecords(h, exe, versions, shells[0], prompts[0]);
    } else {
      SessionRecords(h, exe, versions, prompts, shells, i - 1);
      PromptRecords(h, exe, versions, shells[i], prompts[i - 1].load, prompts[i]);
    }
  }

  lemma FirstPromptRecords(h: Host, exe: string, versions: seq<Version>, s: Shell, p: Prompt)
    requires ValidHost(h) && NeverReused(versions) && p.stat <= p.load < |versions| && s.lastMtime == 0
    ensures var mtime, loaded := versions[p.stat].mtime, versions[p.load].content;
            && Recorded(h, exe, versions, After(h, exe, s, mtime, loaded, p.oldPwd, p.newPwd), p.load, p.newPwd)
            && !Skips(s, mtime, p.oldPwd, p.newPwd)
  {
  }

  /** The cache is sound: after every prompt whose stat and load saw one loadable config, or that skipped, the wrapper
      directory and the anchors are what a fresh computation gives. In particular an edit that fell between the stat and
      the load of one prompt is made good by the next one. */
  lemma CacheIsSound(h: Host, exe: string, versions: seq<Version>, prompts: seq<Prompt>, shells: seq<Shell>, i: nat)
    requires Session(h, exe, versions, prompts, shells) && NeverReused(versions) && i < |prompts|
    requires var p := prompts[i];
             || Skips(shells[i], versions[p.stat].mtime, p.oldPwd, p.newPwd)
             || (p.stat == p.load && versions[p.load].content.Some?)
    ensures UpToDate(h, exe, shells[i + 1], versions[prompts[i].stat], prompts[i].newPwd)
  {
    hide WrappersFor, AnchorsFor, Recorded;
    SessionRecords(h, exe, versions, prompts, shells, i);
  }

  /** So skipping does what recomputing would have done, including telling the shell that nothing changed. */
  lemma SkippingIsRecomputing(h: Host, exe: string, versions: seq<Version>, prompts: seq<Prompt>, shells: seq<Shell>,
                              i: nat)
    requires Session(h, exe, versions, prompts, shells) && NeverReused(versions) && i < |prompts|
    requires Skips(shells[i], versions[prompts[i].stat].mtime, prompts[i].oldPwd, prompts[i].newPwd)
    ensures var v := versions[prompts[i].stat];
            v.content.Some? && shells[i] == Shell(WrappersFor(h, exe, v.content.value, prompts[i].newPwd),
                                                  AnchorsFor(h, v.content.value), v.mtime)
  {
    hide WrappersFor, AnchorsFor, Recorded;
    SessionRecords(h, exe, versions, prompts, shells, i);
  }

  /** A wrapped command then resolves to some var in that directory, and only such commands are wrapped. */
  lemma WrappedCommandsResolve(h: Host, exe: string, s: Shell, v: Version, pwd: string, command: string)
    requires ValidHost(h) && UpToDate(h, exe, s, v, pwd) && forall m | m in v.content.value :: ValidMapping(m)
    ensures command in s.wrappers <==> CwdVars(h, v.content.value, Resolve(h, pwd), command) != []
  {
    CommandsAgreeWithLookup(h, v.content.value, Resolve(h, pwd), command);
  }

  /** That mtimes are never reused is needed: a config moved away for one prompt and back with its old mtime leaves the
      anchors empty, and the pre-filter off, although the config has mappings. */
  lemma MovedAwayAndBack(h: Host, exe: string, ms: seq<Mapping>, pwd: string)
    returns (versions: seq<Version>, prompts: seq<Prompt>, shells: seq<Shell>)
    requires ValidHost(h) && AnchorsFor(h, ms) != NO_ANCHORS
    ensures Session(h, exe, versions, prompts, shells) && |prompts| == 3
    ensures versions[prompts[2].stat].content == Some(ms) && prompts[2].stat == prompts[2].load
    ensures !UpToDate(h, exe, shells[3], versions[prompts[2].stat], prompts[2].newPwd)
  {
    hide WrappersFor, AnchorsFor;
    versions := [Version(7, Some(ms)), Version(0, None), Version(7, Some(ms))];
    prompts := [Prompt(pwd, pwd, 0, 0), Prompt(pwd, pwd, 1, 1), Prompt(pwd, pwd, 2, 2)];
    var s0 := Shell(map[], NO_ANCHORS, 0);
    var s1 := Shell(WrappersFor(h, exe, ms, pwd), AnchorsFor(h, ms), 7);
    var s2 := s1.(anchors := NO_ANCHORS);
    shells := [s0, s1, s2, s2];
  }

  // ----- sessions in which an mtime may come back -----------------------------------------------------------------

  /** Where a shell's files come from: the mappings and the directory of the latest reconcile, the mtime recorded with
      it, and whether a failed load has cleared the anchors since. */
  datatype Made = Made(ms: seq<Mapping>, pwd: string, mtime: int, cleared: bool)

  ghost function MadeBy(s: Shell, made: Option<Made>, mtime: int, loaded: Option<seq<Mapping>>, p: Prompt)
    : Option<Made>
  {
    if Skips(s, mtime, p.oldPwd, p.newPwd) then made
    else if loaded.Some? then Some(Made(loaded.value, p.newPwd, mtime, false))
    else if made.Some? then Some(made.value.(cleared := true))
    else None
  }

  /** Where the files after the first n prompts come from. */
  ghost function Origin(versions: seq<Version>, prompts: seq<Prompt>, shells: seq<Shell>, n: nat): Option<Made>
    requires n <= |prompts| && n < |shells|
    requires forall i | 0 <= i < |prompts| :: prompts[i].stat < |versions| && prompts[i].load < |versions|
  {
    if n == 0 then None
    else
      MadeBy(shells[n - 1], Origin(versions, prompts, shells, n - 1), versions[prompts[n - 1].stat].mtime,
             versions[prompts[n - 1].load].content, prompts[n - 1])
  }

  ghost predicate ComesFrom(h: Host, exe: string, s: Shell, made: Option<Made>)
    requires ValidHost(h)
  {
    if made.None? then s.lastMtime == 0
    else
      s == Shell(WrappersFor(h, exe, made.value.ms, made.value.pwd),
                 if made.value.cleared then NO_ANCHORS else AnchorsFor(h, made.value.ms), made.value.mtime)
  }

  lemma {:induction false} OriginIsRight(h: Host, exe: string, versions: seq<Version>, prompts: seq<Prompt>,
                                         shells: seq<Shell>, n: nat)
    requires Session(h, exe, versions, prompts, shells) && n <= |prompts|
    ensures ComesFrom(h, exe, shells[n], Origin(versions, prompts, shells, n))
  {
    hide WrappersFor, AnchorsFor;
    if n > 0 {
      OriginIsRight(h, exe, versions, prompts, shells, n - 1);
    }
  }

  /** A prompt that skips, whatever became of the mtimes: the recorded mtime is that of the config now, and the files
      are up to date if and only if the config loads and has the wrappers and the anchors that were made, from what the
      config was then, when it was last loaded. */
  lemma SkippedCacheExactly(h: Host, exe: string, versions: seq<Version>, prompts: seq<Prompt>, shells: seq<Shell>,
                            i: nat)
    requires Session(h, exe, versions, prompts, shells) && i < |prompts|
    requires Skips(shells[i], versions[prompts[i].stat].mtime, prompts[i].oldPwd, prompts[i].newPwd)
    ensures var now, pwd := versions[prompts[i].stat], prompts[i].newPwd;
            var origin := Origin(versions, prompts, shells, i);
            && origin.Some? && origin.value.mtime == now.mtime
            && (UpToDate(h, exe, shells[i + 1], now, pwd)
                <==>
                && now.content.Some?
                && WrappersFor(h, exe, now.content.value, pwd) == WrappersFor(h, exe, origin.value.ms, origin.value.pwd)
                && AnchorsFor(h, now.content.value)
                   == if origin.value.cleared then NO_ANCHORS else AnchorsFor(h, origin.value.ms))
  {
    hide WrappersFor, AnchorsFor;
    OriginIsRight(h, exe, versions, prompts, shells, i);
  }

  /** An origin is a prompt of the session: it stands for what that prompt loaded, in the directory of that prompt. */
  lemma {:induction false} OriginWasLoaded(h: Host, exe: string, versions: seq<Version>, prompts: seq<Prompt>,
                                           shells: seq<Shell>, n: nat)
    returns (j: nat)
    requires Session(h, exe, versions, prompts, shells) && n <= |prompts|
    requires Origin(versions, prompts, shells, n).Some?
    ensures var made := Origin(versions, prompts, shells, n).value;
            && j < n && versions[prompts[j].load].content == Some(made.ms)
            && made.pwd == prompts[j].newPwd && made.mtime == versions[prompts[j].stat].mtime
            && (made.cleared ==> exists k | j < k < n :: versions[prompts[k].load].content.None?)
  {
    var p := prompts[n - 1];
    if Skips(shells[n - 1], versions[p.stat].mtime, p.oldPwd, p.newPwd) || versions[p.load].content.None? {
      j := OriginWasLoaded(h, exe, versions, prompts, shells, n - 1);
    } else {
      j := n - 1;
    }
  }

  // ----- single prompts -------------------------------------------------------------------------------------------

  /** A prompt in the same directory with an unchanged config skips: after a successful one it costs a stat. */
  lemma RepeatedPromptSkips(h: Host, exe: string, s: Shell, mtime: int, ms: seq<Mapping>, oldPwd: string, pwd: string)
    requires ValidHost(h) && mtime != 0
    ensures var s' := After(h, exe, s, mtime, Some(ms), oldPwd, pwd);
            !Skips(s, mtime, oldPwd, pwd) ==> Skips(s', mtime, pwd, pwd)
    ensures forall now, other | now != mtime || other != pwd ::
      !Skips(After(h, exe, s.(lastMtime := 0), mtime, Some(ms), oldPwd, pwd), now, other, pwd)
  {
    hide WrappersFor, AnchorsFor;
  }

  /** A config that does not load leaves the wrappers and the recorded mtime as they are and empties the anchors. */
  lemma FailedLoadKeepsWrappers(h: Host, exe: string, s: Shell, mtime: int, oldPwd: string, newPwd: string)
    requires ValidHost(h) && !(oldPwd == newPwd && s.lastMtime != 0 && mtime == s.lastMtime)
    ensures var s' := After(h, exe, s, mtime, None, oldPwd, newPwd);
            && s'.wrappers == s.wrappers && s'.lastMtime == s.lastMtime
            && s'.anchors.targets == {} && s'.anchors.prefixes == {}
  {
  }

  /** A config that loads gives one link to the binary for each wrapped command. */
  lemma LoadMakesWrappers(h: Host, exe: string, s: Shell, mtime: int, ms: seq<Mapping>, oldPwd: string, newPwd: string)
    requires ValidHost(h) && !(oldPwd == newPwd && s.lastMtime != 0 && mtime == s.lastMtime)
    ensures var s' := After(h, exe, s, mtime, Some(ms), oldPwd, newPwd);
            && s'.lastMtime == mtime
            && (forall c :: c in s'.wrappers <==>
                  exists i | 0 <= i < |ms| :: CwdApplies(h, ms[i], Resolve(h, newPwd)) && c in ms[i].commands)
            && forall c | c in s'.wrappers :: s'.wrappers[c] == Link(exe)
  {
    forall c ensures c in CwdCommandList(h, ms, Resolve(h, newPwd)) <==>
                     exists i | 0 <= i < |ms| :: CwdApplies(h, ms[i], Resolve(h, newPwd)) && c in ms[i].commands
    {
      CommandsOfMappings(h, ms, Resolve(h, newPwd), c);
    }
    hide CwdApplies, AnchorsFor;
  }

  lemma {:induction false} CommandsOfMappings(h: Host, ms: seq<Mapping>, p: string, c: string)
    requires IsCleanAbs(p)
    ensures c in CwdCommandList(h, ms, p) <==>
            exists i | 0 <= i < |ms| :: CwdApplies(h, ms[i], p) && c in ms[i].commands
  {
    hide CwdApplies;
    if ms != [] {
      var init, m := ms[..|ms| - 1], ms[|ms| - 1];
      CommandsOfMappings(h, init, p, c);
      if i :| 0 <= i < |init| && CwdApplies(h, init[i], p) && c in init[i].commands {
        assert ms[i] == init[i];
      }
      if i :| 0 <= i < |ms| && CwdApplies(h, ms[i], p) && c in ms[i].commands {
        assert i < |init| ==> init[i] == ms[i];
      }
    }
  }
}
