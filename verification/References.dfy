/** Renaming a source, a bag or a bag key in the live config, and what a rename keeps
    (internal/tui/references.go, secrets_screen.go and sources_screen.go of internal/tui). */
module References {
  import opened Wrappers
  import opened Envelope
  import opened ConfigModel
  import opened MappingIndex
  import opened Resolver
  import EncryptSpec

  // ----- the change, on values ------------------------------------------------------------------------------------

  function MoveKey<V>(m: map<string, V>, o: string, n: string): map<string, V>
    requires o in m
  {
    (m - {o})[n := m[o]]
  }

  /** The dictionary with every ID of the old name now under the new one. */
  function RenameEntries(names: map<string, string>, o: string, n: string): map<string, string> {
    map id | id in names :: if names[id] == o then n else names[id]
  }

  /** The three reference walkers: they differ in the step they take at one var. */
  datatype Rewrite =
    SourceRefs(o: string, n: string) | BagRefs(o: string, n: string) | KeyRefs(bag: string, o: string, n: string)

  function Step(sources: map<string, Source>, rw: Rewrite, v: Var): Var {
    match rw
    case SourceRefs(o, n) => if v.source == Text(o) then v.(source := Text(n)) else v
    case BagRefs(o, n) => if v.ref == Text(o) && EncryptSpec.IsLocalId(sources, v.source) then v.(ref := Text(n)) else v
    case KeyRefs(bag, o, n) =>
      if v.ref == Text(bag) && v.key == Text(o) && EncryptSpec.IsLocalId(sources, v.source)
      then v.(key := Text(n)) else v
  }

  function StepAll(sources: map<string, Source>, rw: Rewrite, vars: seq<Var>): seq<Var> {
    seq(|vars|, j requires 0 <= j < |vars| => Step(sources, rw, vars[j]))
  }

  function Rewritten(sources: map<string, Source>, rw: Rewrite, ms: seq<Mapping>): seq<Mapping> {
    seq(|ms|, i requires 0 <= i < |ms| => ms[i].(vars := StepAll(sources, rw, ms[i].vars)))
  }

  function SourceRenamed(c: Config, o: string, n: string): Config
    requires o in c.sources
  {
    var sources := MoveKey(c.sources, o, n);
    c.(sources := sources, mappings := Rewritten(sources, SourceRefs(o, n), c.mappings))
  }

  function BagRenamed(c: Config, o: string, n: string): Config
    requires o in c.secrets
  {
    c.(secrets := MoveKey(c.secrets, o, n), mappings := Rewritten(c.sources, BagRefs(o, n), c.mappings))
  }

  function KeyRenamed(c: Config, bag: string, o: string, n: string): Config
    requires bag in c.secrets && o in c.secrets[bag]
  {
    c.(secrets := c.secrets[bag := MoveKey(c.secrets[bag], o, n)],
       mappings := Rewritten(c.sources, KeyRefs(bag, o, n), c.mappings))
  }

  // ----- the resolved environment ---------------------------------------------------------------------------------

  function FetchEnv(h: Host, remotes: Remotes, c: Config, p: string): Result<map<string, string>, FetchError> {
    FetchVars(remotes, ConfigView(c), LookupScan(h, c.mappings, p))
  }

  ghost function FetchEnvCwd(h: Host, remotes: Remotes, c: Config, p: string, command: string)
    : Result<map<string, string>, FetchError>
    requires IsCleanAbs(p)
  {
    FetchVars(remotes, ConfigView(c), CwdVars(h, c.mappings, p, command))
  }

  lemma {:induction false} StepAllAppends(sources: map<string, Source>, rw: Rewrite, a: seq<Var>, b: seq<Var>)
    ensures StepAll(sources, rw, a + b) == StepAll(sources, rw, a) + StepAll(sources, rw, b)
  {
    hide Step;
  }

  lemma RewrittenPrefix(sources: map<string, Source>, rw: Rewrite, ms: seq<Mapping>)
    requires ms != []
    ensures Rewritten(sources, rw, ms) != []
    ensures Rewritten(sources, rw, ms)[..|ms| - 1] == Rewritten(sources, rw, ms[..|ms| - 1])
    ensures var m := Rewritten(sources, rw, ms)[|ms| - 1];
            m == ms[|ms| - 1].(vars := StepAll(sources, rw, ms[|ms| - 1].vars))
  {
    hide Step;
  }

  lemma {:induction false} PathVarsRewritten(h: Host, sources: map<string, Source>, rw: Rewrite, ms: seq<Mapping>,
                                             p: string)
    ensures PathVars(h, Rewritten(sources, rw, ms), p) == StepAll(sources, rw, PathVars(h, ms, p))
  {
    hide Step, Resolve;
    if ms != [] {
      var init, m := ms[..|ms| - 1], ms[|ms| - 1];
      PathVarsRewritten(h, sources, rw, init, p);
      RewrittenPrefix(sources, rw, ms);
      StepAllAppends(sources, rw, PathVars(h, init, p), if m.path != "" && Resolve(h, m.path) == p then m.vars else []);
    }
  }

  lemma {:induction false} GlobVarsRewritten(h: Host, sources: map<string, Source>, rw: Rewrite, ms: seq<Mapping>,
                                             p: string)
    ensures GlobVars(h, Rewritten(sources, rw, ms), p) == StepAll(sources, rw, GlobVars(h, ms, p))
  {
    hide Step, NormalisePattern, GlobMatches;
    if ms != [] {
      var init, m := ms[..|ms| - 1], ms[|ms| - 1];
      GlobVarsRewritten(h, sources, rw, init, p);
      RewrittenPrefix(sources, rw, ms);
      StepAllAppends(sources, rw, GlobVars(h, init, p),
                     if IsGlob(m) && GlobMatches(h, NormalisePattern(h, m.glob), p) then m.vars else []);
    }
  }

  lemma {:induction false} CwdVarsRewritten(h: Host, sources: map<string, Source>, rw: Rewrite, ms: seq<Mapping>,
                                            p: string, command: string)
    requires IsCleanAbs(p)
    ensures CwdVars(h, Rewritten(sources, rw, ms), p, command) == StepAll(sources, rw, CwdVars(h, ms, p, command))
  {
    hide Step, AncestorMatches, NormalisePattern;
    if ms != [] {
      var init, m := ms[..|ms| - 1], ms[|ms| - 1];
      CwdVarsRewritten(h, sources, rw, init, p, command);
      RewrittenPrefix(sources, rw, ms);
      StepAllAppends(sources, rw, CwdVars(h, init, p, command),
                     if CwdApplies(h, m, p) && command in m.commands then m.vars else []);
    }
  }

  /** A rewrite that keeps what each var fetches keeps what the list fetches. */
  lemma {:induction false} FetchVarsRewritten(remotes: Remotes, view: map<string, Backend>, view': map<string, Backend>,
                                              sources: map<string, Source>, rw: Rewrite, vars: seq<Var>)
    requires forall v | v in vars :: FetchVar(remotes, view', Step(sources, rw, v)) == FetchVar(remotes, view, v)
    ensures FetchVars(remotes, view', StepAll(sources, rw, vars)) == FetchVars(remotes, view, vars)
  {
    hide Step, FetchVar;
    if vars != [] {
      var init, v := vars[..|vars| - 1], vars[|vars| - 1];
      assert v in vars && forall x | x in init :: x in vars;
      FetchVarsRewritten(remotes, view, view', sources, rw, init);
      var vars' := StepAll(sources, rw, vars);
      assert vars'[..|vars'| - 1] == StepAll(sources, rw, init) && vars'[|vars'| - 1] == Step(sources, rw, v);
    }
  }

  /** Every var a lookup returns belongs to some mapping. */
  ghost predicate AllFromMappings(ms: seq<Mapping>, vars: seq<Var>) {
    forall v | v in vars :: exists m :: m in ms && v in m.vars
  }

  lemma {:induction false} LookedUpVarsAreMapped(h: Host, ms: seq<Mapping>, p: string, command: string)
    ensures AllFromMappings(ms, LookupScan(h, ms, p))
    ensures IsCleanAbs(p) ==> AllFromMappings(ms, CwdVars(h, ms, p, command))
  {
    hide AncestorMatches, NormalisePattern, Resolve, GlobMatches;
    if ms != [] {
      var init, m := ms[..|ms| - 1], ms[|ms| - 1];
      LookedUpVarsAreMapped(h, init, p, command);
      assert m in ms && forall x | x in init :: x in ms;
      forall v | v in LookupScan(h, ms, p) ensures exists x :: x in ms && v in x.vars {
        assert v in LookupScan(h, init, p) || v in m.vars;
      }
      if IsCleanAbs(p) {
        forall v | v in CwdVars(h, ms, p, command) ensures exists x :: x in ms && v in x.vars {
          assert v in CwdVars(h, init, p, command) || v in m.vars;
        }
      }
    }
  }

  /** c' fetches what c fetches, for every path, directory and command. */
  ghost predicate SameEnvironment(h: Host, remotes: Remotes, c: Config, c': Config) {
    && (forall p :: FetchEnv(h, remotes, c', p) == FetchEnv(h, remotes, c, p))
    && (forall p, command | IsCleanAbs(p) ::
          FetchEnvCwd(h, remotes, c', p, command) == FetchEnvCwd(h, remotes, c, p, command))
  }

  /** A rewrite that keeps what each looked-up var fetches keeps what the path fetches. */
  lemma RewriteKeepsLookup(h: Host, remotes: Remotes, c: Config, c': Config, sources: map<string, Source>, rw: Rewrite,
                           p: string)
    requires c'.mappings == Rewritten(sources, rw, c.mappings)
    requires forall v | v in LookupScan(h, c.mappings, p) ::
      FetchVar(remotes, ConfigView(c'), Step(sources, rw, v)) == FetchVar(remotes, ConfigView(c), v)
    ensures FetchEnv(h, remotes, c', p) == FetchEnv(h, remotes, c, p)
  {
    hide Step, FetchVar, ConfigView, LookupScan, FetchVars, Rewritten;
    LookupRewritten(h, sources, rw, c.mappings, p);
    FetchVarsRewritten(remotes, ConfigView(c), ConfigView(c'), sources, rw, LookupScan(h, c.mappings, p));
  }

  lemma RewriteKeepsCwdLookup(h: Host, remotes: Remotes, c: Config, c': Config, sources: map<string, Source>,
                              rw: Rewrite, p: string, command: string)
    requires IsCleanAbs(p) && c'.mappings == Rewritten(sources, rw, c.mappings)
    requires forall v | v in CwdVars(h, c.mappings, p, command) ::
      FetchVar(remotes, ConfigView(c'), Step(sources, rw, v)) == FetchVar(remotes, ConfigView(c), v)
    ensures FetchEnvCwd(h, remotes, c', p, command) == FetchEnvCwd(h, remotes, c, p, command)
  {
    hide Step, FetchVar, ConfigView, CwdVars, FetchVars, Rewritten;
    CwdVarsRewritten(h, sources, rw, c.mappings, p, command);
    FetchVarsRewritten(remotes, ConfigView(c), ConfigView(c'), sources, rw, CwdVars(h, c.mappings, p, command));
  }

  lemma RewriteKeepsEnvironment(h: Host, remotes: Remotes, c: Config, c': Config, sources: map<string, Source>,
                                rw: Rewrite)
    requires c'.mappings == Rewritten(sources, rw, c.mappings)
    requires forall m | m in c.mappings :: forall v | v in m.vars ::
      FetchVar(remotes, ConfigView(c'), Step(sources, rw, v)) == FetchVar(remotes, ConfigView(c), v)
    ensures SameEnvironment(h, remotes, c, c')
  {
    hide Step, FetchVar, ConfigView, LookupScan, CwdVars, FetchVars, Rewritten, FetchEnv, FetchEnvCwd;
    forall p ensures FetchEnv(h, remotes, c', p) == FetchEnv(h, remotes, c, p) {
      LookedUpVarsAreMapped(h, c.mappings, p, "");
      RewriteKeepsLookup(h, remotes, c, c', sources, rw, p);
    }
    forall p, command | IsCleanAbs(p)
      ensures FetchEnvCwd(h, remotes, c', p, command) == FetchEnvCwd(h, remotes, c, p, command)
    {
      LookedUpVarsAreMapped(h, c.mappings, p, command);
      RewriteKeepsCwdLookup(h, remotes, c, c', sources, rw, p, command);
    }
  }

  lemma LookupRewritten(h: Host, sources: map<string, Source>, rw: Rewrite, ms: seq<Mapping>, p: string)
    ensures LookupScan(h, Rewritten(sources, rw, ms), p) == StepAll(sources, rw, LookupScan(h, ms, p))
  {
    PathVarsRewritten(h, sources, rw, ms, p);
    GlobVarsRewritten(h, sources, rw, ms, p);
    StepAllAppends(sources, rw, PathVars(h, ms, p), GlobVars(h, ms, p));
  }

  // ----- renames keep the resolved environment --------------------------------------------------------------------

  /** Renaming a source changes no environment, in a config whose sources resolve. */
  lemma RenamedSourceSameEnvironment(h: Host, remotes: Remotes, c: Config, o: string, n: string)
    requires Validate(c) && o in c.sources && n !in c.sources
    ensures SameEnvironment(h, remotes, c, SourceRenamed(c, o, n))
  {
    var c' := SourceRenamed(c, o, n);
    var rw := SourceRefs(o, n);
    forall m, v | m in c.mappings && v in m.vars
      ensures FetchVar(remotes, ConfigView(c'), Step(c'.sources, rw, v)) == FetchVar(remotes, ConfigView(c), v)
    {
      assert ValidMapping(m) && ValidVar(v) && SourceDefined(c, v);
      SourceStep(remotes, c, o, n, v);
    }
    RewriteKeepsEnvironment(h, remotes, c, c', c'.sources, rw);
  }

  lemma SourceStep(remotes: Remotes, c: Config, o: string, n: string, v: Var)
    requires o in c.sources && n !in c.sources && ValidVar(v) && SourceDefined(c, v)
    ensures var c' := SourceRenamed(c, o, n);
            FetchVar(remotes, ConfigView(c'), Step(c'.sources, SourceRefs(o, n), v))
            == FetchVar(remotes, ConfigView(c), v)
  {
    var c' := SourceRenamed(c, o, n);
    assert BagStrings(c') == BagStrings(c);
    if IsBlank(v.value) {
      var w := Step(c'.sources, SourceRefs(o, n), v);
      assert ConfigView(c')[w.source.s] == ConfigView(c)[v.source.s];
    }
  }

  /** The var is in plain text, as every var of a loaded config is. */
  predicate VarIsText(v: Var) {
    v.name.Text? && v.source.Text? && v.ref.Text? && v.key.Text? && v.value.Text?
  }

  /** The var fetches from a local source. */
  predicate FetchesLocally(c: Config, v: Var) {
    IsBlank(v.value) && EncryptSpec.IsLocalId(c.sources, v.source)
  }

  /** The var asks for the bag that gets the new name, or the old name was the empty one, which no var can ask for. */
  predicate SeesBagRename(c: Config, o: string, n: string, v: Var) {
    FetchesLocally(c, v) && (v.ref == Text(n) || (o == "" && v.ref == Text("")))
  }

  /** What a var makes of the answer of its source. */
  function Shaped(v: Var, raw: Result<map<string, string>, FetchError>): Result<map<string, string>, FetchError> {
    if raw.Err? || IsBlank(v.name) then raw
    else
      var val := PickValue(raw.value, Chars(v.key));
      if val.Err? then Err(val.error) else Ok(map[Chars(v.name) := val.value])
  }

  lemma FetchedLocally(remotes: Remotes, c: Config, v: Var)
    requires FetchesLocally(c, v) && VarIsText(v)
    ensures FetchVar(remotes, ConfigView(c), v) == Shaped(v, LocalFetch(Some(BagStrings(c)), v.ref.s, v.key.s))
  {
    hide PickValue;
    assert ConfigView(c)[v.source.s] == LocalBags(Some(BagStrings(c)));
  }

  /** A var with no local source does not depend on the bags. */
  lemma FetchedElsewhere(remotes: Remotes, c: Config, c': Config, v: Var)
    requires !FetchesLocally(c, v) && VarIsText(v) && c'.sources == c.sources
    ensures FetchVar(remotes, ConfigView(c'), v) == FetchVar(remotes, ConfigView(c), v)
  {
    hide PickValue;
    assert ConfigView(c').Keys == ConfigView(c).Keys;
    assert v.source.s in ConfigView(c) && IsBlank(v.value) ==>
      ConfigView(c')[v.source.s] == ConfigView(c)[v.source.s];
  }

  lemma LocalFetchRenamed(bags: Bags, o: string, n: string, id: string, key: string)
    requires o in bags && n !in bags && n != ""
    ensures var after := LocalFetch(Some(MoveKey(bags, o, n)), if id == o then n else id, key);
            var before := LocalFetch(Some(bags), id, key);
            if id == n || (o == "" && id == "")
            then before.Err? && before.error in {BagNameRequired, BagNotFound} && before != after
            else before == after
  {
  }

  /** No shape of an answer looks like another failure of the bag store. */
  lemma FailureShows(v: Var, before: Result<map<string, string>, FetchError>,
                     after: Result<map<string, string>, FetchError>)
    requires before.Err? && before.error in {BagNameRequired, BagNotFound} && before != after
    ensures Shaped(v, before) != Shaped(v, after)
  {
  }

  /** What one var fetches survives the rename of a bag exactly when the var does not see it. */
  lemma BagRenameSeenExactly(remotes: Remotes, c: Config, o: string, n: string, v: Var)
    requires o in c.secrets && n !in c.secrets && n != "" && VarIsText(v)
    ensures var c' := BagRenamed(c, o, n);
            FetchVar(remotes, ConfigView(c'), Step(c.sources, BagRefs(o, n), v)) == FetchVar(remotes, ConfigView(c), v)
            <==> !SeesBagRename(c, o, n, v)
  {
    hide FetchVar, ConfigView, LocalFetch, PickValue;
    var c' := BagRenamed(c, o, n);
    var w := Step(c.sources, BagRefs(o, n), v);
    if FetchesLocally(c, v) {
      var bags := BagStrings(c);
      assert BagStrings(c') == MoveKey(bags, o, n);
      FetchedLocally(remotes, c, v);
      FetchedLocally(remotes, c', w);
      LocalFetchRenamed(bags, o, n, v.ref.s, v.key.s);
      var before := LocalFetch(Some(bags), v.ref.s, v.key.s);
      var after := LocalFetch(Some(MoveKey(bags, o, n)), w.ref.s, v.key.s);
      if before != after {
        FailureShows(v, before, after);
      }
    } else {
      assert IsBlank(v.value) ==> w == v;
      if !IsBlank(v.value) {
        FetchedElsewhere(remotes, c, c', w);
        LiteralIs(remotes, c, v, w);
      } else {
        FetchedElsewhere(remotes, c, c', v);
      }
    }
  }

  /** A literal is what it is, whatever else the var says. */
  lemma LiteralIs(remotes: Remotes, c: Config, v: Var, w: Var)
    requires !IsBlank(v.value) && w.value == v.value && w.name == v.name
    ensures FetchVar(remotes, ConfigView(c), w) == FetchVar(remotes, ConfigView(c), v)
  {
  }

  /** Renaming a bag leaves the environment of a path unchanged when none of the vars looked up for that path asks for
      the new name already. */
  lemma RenamedBagSameEnvironment(h: Host, remotes: Remotes, c: Config, o: string, n: string, p: string)
    requires o in c.secrets && n !in c.secrets && n != ""
    requires forall v | v in LookupScan(h, c.mappings, p) :: VarIsText(v) && !SeesBagRename(c, o, n, v)
    ensures FetchEnv(h, remotes, BagRenamed(c, o, n), p) == FetchEnv(h, remotes, c, p)
  {
    hide SeesBagRename, FetchEnv, LookupScan, Step, FetchVar, ConfigView;
    forall v | v in LookupScan(h, c.mappings, p)
      ensures FetchVar(remotes, ConfigView(BagRenamed(c, o, n)), Step(c.sources, BagRefs(o, n), v))
           == FetchVar(remotes, ConfigView(c), v)
    {
      BagRenameSeenExactly(remotes, c, o, n, v);
    }
    RewriteKeepsLookup(h, remotes, c, BagRenamed(c, o, n), c.sources, BagRefs(o, n), p);
  }

  /** The same for a command in a directory. */
  lemma RenamedBagSameCwdEnvironment(h: Host, remotes: Remotes, c: Config, o: string, n: string, p: string,
                                     command: string)
    requires o in c.secrets && n !in c.secrets && n != "" && IsCleanAbs(p)
    requires forall v | v in CwdVars(h, c.mappings, p, command) :: VarIsText(v) && !SeesBagRename(c, o, n, v)
    ensures FetchEnvCwd(h, remotes, BagRenamed(c, o, n), p, command) == FetchEnvCwd(h, remotes, c, p, command)
  {
    hide SeesBagRename, FetchEnvCwd, CwdVars, Step, FetchVar, ConfigView;
    forall v | v in CwdVars(h, c.mappings, p, command)
      ensures FetchVar(remotes, ConfigView(BagRenamed(c, o, n)), Step(c.sources, BagRefs(o, n), v))
           == FetchVar(remotes, ConfigView(c), v)
    {
      BagRenameSeenExactly(remotes, c, o, n, v);
    }
    RewriteKeepsCwdLookup(h, remotes, c, BagRenamed(c, o, n), c.sources, BagRefs(o, n), p, command);
  }

  /** The var takes entries of the bag under the entries' own names, or asks for the new key already, or, when the old
      key is the empty one, takes the only entry of a bag that has several. */
  predicate SeesKeyRename(c: Config, bag: string, o: string, n: string, v: Var)
    requires bag in c.secrets
  {
    FetchesLocally(c, v) && bag != "" && v.ref == Text(bag) &&
    if IsBlank(v.name) then IsBlank(v.key) || v.key == Text(o) || v.key == Text(n)
    else v.key == Text(n) || (o == "" && IsBlank(v.key) && |c.secrets[bag]| != 1)
  }

  /** What one var fetches survives the rename of a key exactly when the var does not see it. */
  lemma KeyRenameSeenExactly(remotes: Remotes, c: Config, bag: string, o: string, n: string, v: Var)
    requires bag in c.secrets && o in c.secrets[bag] && n !in c.secrets[bag] && n != "" && VarIsText(v)
    ensures var c' := KeyRenamed(c, bag, o, n);
            FetchVar(remotes, ConfigView(c'), Step(c.sources, KeyRefs(bag, o, n), v))
            == FetchVar(remotes, ConfigView(c), v)
            <==> !SeesKeyRename(c, bag, o, n, v)
  {
    hide FetchVar, ConfigView, LocalFetch, PickValue;
    var c' := KeyRenamed(c, bag, o, n);
    var w := Step(c.sources, KeyRefs(bag, o, n), v);
    if !FetchesLocally(c, v) {
      if IsBlank(v.value) {
        FetchedElsewhere(remotes, c, c', v);
      } else {
        FetchedElsewhere(remotes, c, c', w);
        LiteralIs(remotes, c, v, w);
      }
    } else {
      KeyRenamedBags(c, bag, o, n);
      FetchedLocally(remotes, c, v);
      FetchedLocally(remotes, c', w);
      if v.ref == Text(bag) && bag != "" {
        FetchInRenamedBag(BagStrings(c), bag, o, n, v);
      } else {
        FetchOutsideBag(BagStrings(c), bag, MoveKey(BagStrings(c)[bag], o, n), v.ref.s, w.key.s, v.key.s);
      }
    }
  }

  lemma KeyRenamedBags(c: Config, bag: string, o: string, n: string)
    requires bag in c.secrets && o in c.secrets[bag] && n !in c.secrets[bag]
    ensures bag in BagStrings(c) && o in BagStrings(c)[bag] && n !in BagStrings(c)[bag]
    ensures BagStrings(KeyRenamed(c, bag, o, n)) == BagStrings(c)[bag := MoveKey(BagStrings(c)[bag], o, n)]
    ensures |BagStrings(c)[bag]| == |c.secrets[bag]|
  {
    SameSize(c.secrets[bag]);
    var renamed := BagStrings(KeyRenamed(c, bag, o, n));
    assert renamed[bag] == MoveKey(BagStrings(c)[bag], o, n);
  }

  lemma FetchOutsideBag(bags: Bags, bag: string, kv: map<string, string>, id: string, key: string, key': string)
    requires bag in bags && (id != bag || bag == "") && (key == key' || id == "")
    ensures LocalFetch(Some(bags[bag := kv]), id, key) == LocalFetch(Some(bags), id, key')
    ensures id == "" ==> LocalFetch(Some(bags), id, key') == Err(BagNameRequired)
  {
  }

  lemma SameSize(kv: map<string, Value>)
    ensures |Strings(kv)| == |kv|
  {
    assert Strings(kv).Keys == kv.Keys;
    assert |Strings(kv).Keys| == |Strings(kv)| && |kv.Keys| == |kv|;
  }

  lemma FetchInRenamedBag(bags: Bags, bag: string, o: string, n: string, v: Var)
    requires VarIsText(v) && bag in bags && o in bags[bag] && n !in bags[bag] && n != "" && bag != ""
    ensures var bags' := bags[bag := MoveKey(bags[bag], o, n)];
            var w := if v.key == Text(o) then v.(key := Text(n)) else v;
            Shaped(w, LocalFetch(Some(bags'), bag, w.key.s)) == Shaped(v, LocalFetch(Some(bags), bag, v.key.s))
            <==> !(if IsBlank(v.name) then IsBlank(v.key) || v.key == Text(o) || v.key == Text(n)
                   else v.key == Text(n) || (o == "" && IsBlank(v.key) && |bags[bag]| != 1))
  {
    var kv, kv' := bags[bag], MoveKey(bags[bag], o, n);
    PickFromRenamed(kv, o, n);
    assert o in kv && o !in kv' && n in kv' && kv'[n] == kv[o];
    if IsBlank(v.name) {
      ExpandsDifferently(kv, kv', o, n);
    } else if o == "" && IsBlank(v.key) && |kv| == 1 {
      OneEntry(kv);
    }
  }

  lemma ExpandsDifferently(kv: map<string, string>, kv': map<string, string>, o: string, n: string)
    requires o in kv && n !in kv && kv' == MoveKey(kv, o, n)
    ensures kv != kv' && kv != map[n := kv[o]] && map[o := kv[o]] != map[n := kv[o]]
  {
    assert o in kv && o !in kv' && n !in kv;
    assert n in map[n := kv[o]] && n !in map[o := kv[o]];
  }

  /** A bag with one entry gives the same value under any key. */
  lemma PickFromRenamed(kv: map<string, string>, o: string, n: string)
    requires o in kv && n !in kv
    ensures PickValue(MoveKey(kv, o, n), "") == PickValue(kv, "")
  {
    var kv' := MoveKey(kv, o, n);
    assert kv'.Keys == kv.Keys - {o} + {n};
    assert |kv'.Keys| == |kv.Keys| && |kv'| == |kv'.Keys| && |kv| == |kv.Keys|;
    if |kv| == 1 {
      OneEntry(kv);
      OneEntry(kv');
    }
  }

  /** Renaming a key leaves the environment of a path unchanged when none of the vars looked up for that path sees it,
      whatever other mappings do. */
  lemma RenamedKeySameEnvironment(h: Host, remotes: Remotes, c: Config, bag: string, o: string, n: string, p: string)
    requires bag in c.secrets && o in c.secrets[bag] && n !in c.secrets[bag] && n != ""
    requires forall v | v in LookupScan(h, c.mappings, p) :: VarIsText(v) && !SeesKeyRename(c, bag, o, n, v)
    ensures FetchEnv(h, remotes, KeyRenamed(c, bag, o, n), p) == FetchEnv(h, remotes, c, p)
  {
    hide SeesKeyRename, FetchEnv, LookupScan, Step, FetchVar, ConfigView;
    forall v | v in LookupScan(h, c.mappings, p)
      ensures FetchVar(remotes, ConfigView(KeyRenamed(c, bag, o, n)), Step(c.sources, KeyRefs(bag, o, n), v))
           == FetchVar(remotes, ConfigView(c), v)
    {
      KeyRenameSeenExactly(remotes, c, bag, o, n, v);
    }
    RewriteKeepsLookup(h, remotes, c, KeyRenamed(c, bag, o, n), c.sources, KeyRefs(bag, o, n), p);
  }

  /** The same for a working directory and a command. */
  lemma RenamedKeySameCwdEnvironment(h: Host, remotes: Remotes, c: Config, bag: string, o: string, n: string, p: string,
                                     command: string)
    requires IsCleanAbs(p) && bag in c.secrets && o in c.secrets[bag] && n !in c.secrets[bag] && n != ""
    requires forall v | v in CwdVars(h, c.mappings, p, command) :: VarIsText(v) && !SeesKeyRename(c, bag, o, n, v)
    ensures FetchEnvCwd(h, remotes, KeyRenamed(c, bag, o, n), p, command) == FetchEnvCwd(h, remotes, c, p, command)
  {
    hide SeesKeyRename, FetchEnvCwd, CwdVars, Step, FetchVar, ConfigView;
    forall v | v in CwdVars(h, c.mappings, p, command)
      ensures FetchVar(remotes, ConfigView(KeyRenamed(c, bag, o, n)), Step(c.sources, KeyRefs(bag, o, n), v))
           == FetchVar(remotes, ConfigView(c), v)
    {
      KeyRenameSeenExactly(remotes, c, bag, o, n, v);
    }
    RewriteKeepsCwdLookup(h, remotes, c, KeyRenamed(c, bag, o, n), c.sources, KeyRefs(bag, o, n), p, command);
  }

  // ----- configs whose references resolve -------------------------------------------------------------------------

  /** A local var names a bag that exists, and a key of it or none. */
  predicate Resolves(c: Config, v: Var) {
    FetchesLocally(c, v) ==>
      && v.ref.Text? && !IsBlank(v.ref) && v.ref.s in c.secrets
      && v.key.Text? && (IsBlank(v.key) || v.key.s in c.secrets[v.ref.s])
  }

  /** A var that takes every entry of the bag under the entries' own names. */
  predicate ExpandsBag(c: Config, bag: string, v: Var) {
    FetchesLocally(c, v) && IsBlank(v.name) && v.ref == Text(bag)
  }

  /** A valid var whose references resolve sees no bag rename, and of key renames only those of a bag it expands. */
  lemma ResolvedVarsSee(c: Config, bag: string, o: string, n: string, v: Var)
    requires ValidVar(v) && Resolves(c, v) && n != ""
    ensures o in c.secrets && o != "" && n !in c.secrets ==> !SeesBagRename(c, o, n, v)
    ensures bag in c.secrets && o in c.secrets[bag] && o != "" && n !in c.secrets[bag] ==>
      (SeesKeyRename(c, bag, o, n, v) <==> ExpandsBag(c, bag, v))
  {
  }

  /** Every var of the config is valid and in plain text, and its references resolve. */
  predicate AllResolve(c: Config) {
    forall m | m in c.mappings :: forall v | v in m.vars :: ValidVar(v) && VarIsText(v) && Resolves(c, v)
  }

  /** In a valid config whose references resolve, renaming a bag changes no environment at all. */
  lemma RenamedBagSameEverywhere(h: Host, remotes: Remotes, c: Config, o: string, n: string)
    requires o in c.secrets && n !in c.secrets && o != "" && n != "" && AllResolve(c)
    ensures SameEnvironment(h, remotes, c, BagRenamed(c, o, n))
  {
    hide SeesBagRename, SameEnvironment, Step, FetchVar, ConfigView, ValidVar, Resolves, VarIsText;
    var c' := BagRenamed(c, o, n);
    forall m, v | m in c.mappings && v in m.vars
      ensures FetchVar(remotes, ConfigView(c'), Step(c.sources, BagRefs(o, n), v))
           == FetchVar(remotes, ConfigView(c), v)
    {
      ResolvedVarsSee(c, o, o, n, v);
      BagRenameSeenExactly(remotes, c, o, n, v);
    }
    RewriteKeepsEnvironment(h, remotes, c, c', c.sources, BagRefs(o, n));
  }

  /** Nor does renaming a key, when no var expands its bag. */
  lemma RenamedKeySameEverywhere(h: Host, remotes: Remotes, c: Config, bag: string, o: string, n: string)
    requires bag in c.secrets && o in c.secrets[bag] && n !in c.secrets[bag] && o != "" && n != "" && AllResolve(c)
    requires forall m | m in c.mappings :: forall v | v in m.vars :: !ExpandsBag(c, bag, v)
    ensures SameEnvironment(h, remotes, c, KeyRenamed(c, bag, o, n))
  {
    hide SeesKeyRename, SameEnvironment, Step, FetchVar, ConfigView, ValidVar, Resolves, VarIsText, ExpandsBag;
    var c' := KeyRenamed(c, bag, o, n);
    forall m, v | m in c.mappings && v in m.vars
      ensures FetchVar(remotes, ConfigView(c'), Step(c.sources, KeyRefs(bag, o, n), v))
           == FetchVar(remotes, ConfigView(c), v)
    {
      ResolvedVarsSee(c, bag, o, n, v);
      KeyRenameSeenExactly(remotes, c, bag, o, n, v);
    }
    RewriteKeepsEnvironment(h, remotes, c, c', c.sources, KeyRefs(bag, o, n));
  }
}
