/** The edits of the terminal interface on the live config, and its save on a partial deep copy
    (internal/tui/references.go, save.go, secrets_screen.go and sources_screen.go). */
module Editor {
  import opened Wrappers
  import opened Envelope
  import opened ConfigModel
  import opened EncryptSpec
  import opened NameId
  import opened Live
  import opened References
  import opened Validation
  import Encrypt

  // ----- the reference walkers ------------------------------------------------------------------------------------

  method RewriteVar(sources: map<string, SourceRec>, rw: Rewrite, v: VarCell)
    modifies v
    ensures v.Content() == Step(old(SourcesContent(sources)), rw, old(v.Content()))
  {
    var isLocal := v.source.Text? && v.source.s in sources && sources[v.source.s].typ == LOCAL;
    match rw
    case SourceRefs(o, n) =>
      if v.source == Text(o) {
        v.source := Text(n);
      }
    case BagRefs(o, n) =>
      if v.ref == Text(o) {
        if isLocal {
          v.ref := Text(n);
        }
      }
    case KeyRefs(bag, o, n) =>
      if v.ref == Text(bag) && v.key == Text(o) {
        if isLocal {
          v.key := Text(n);
        }
      }
  }

  method RewriteMapping(sources: map<string, SourceRec>, rw: Rewrite, m: MappingRec, ghost named: map<string, Source>)
    requires CellsApart(m.vars) && named == SourcesContent(sources)
    modifies CellObjs(m.vars)
    ensures MappingContent(m) == old(MappingContent(m)).(vars := StepAll(named, rw, old(MappingContent(m)).vars))
  {
    hide Step, SourcesContent;
    assert CellObjs(m.vars) !! ParamObjs(sources);
    for j := 0 to |m.vars|
      invariant named == SourcesContent(sources)
      invariant forall k | 0 <= k < j :: m.vars[k].Content() == Step(named, rw, old(m.vars[k].Content()))
      invariant forall k | j <= k < |m.vars| :: m.vars[k].Content() == old(m.vars[k].Content())
    {
      assert m.vars[j] in m.vars;
      RewriteVar(sources, rw, m.vars[j]);
    }
  }

  /** rewriteSourceRefs, rewriteLocalBagRefs and rewriteLocalKeyRefs. */
  method RewriteRefs(c: LiveConfig, rw: Rewrite)
    requires c.Apart()
    modifies VarObjs(c.mappings)
    ensures c.Content() == old(c.Content()).(
                             mappings := Rewritten(old(c.Content()).sources, rw, old(c.Content()).mappings))
  {
    hide SourcesContent, SecretsContent, ParamsApart, BagsApart, MappingsApart, StepAll;
    KindsApart(c);
    RewriteMappings(c.sources, rw, c.mappings, SourcesContent(c.sources));
  }

  method RewriteMappings(sources: map<string, SourceRec>, rw: Rewrite, ms: seq<MappingRec>,
                         ghost named: map<string, Source>)
    requires MappingsApart(ms) && named == SourcesContent(sources)
    modifies VarObjs(ms)
    ensures MappingsContent(ms) == Rewritten(named, rw, old(MappingsContent(ms)))
  {
    hide StepAll, SourcesContent;
    assert VarObjs(ms) !! ParamObjs(sources);
    for i := 0 to |ms|
      invariant named == SourcesContent(sources)
      invariant forall k | 0 <= k < i ::
        MappingContent(ms[k])
        == old(MappingContent(ms[k])).(vars := StepAll(named, rw, old(MappingContent(ms[k])).vars))
      invariant forall k | i <= k < |ms| :: MappingContent(ms[k]) == old(MappingContent(ms[k]))
    {
      assert ms[i] in ms;
      RewriteMapping(sources, rw, ms[i], named);
    }
  }

  // ----- the dictionary -------------------------------------------------------------------------------------------

  /** The loop of renameIDMapSource and renameIDMapBag. */
  method RenameNames(names: map<string, string>, o: string, n: string) returns (names': map<string, string>)
    ensures names' == RenameEntries(names, o, n)
  {
    names' := names;
    var todo := names.Keys;
    while todo != {}
      invariant todo <= names.Keys == names'.Keys
      invariant forall id | id in names :: names'[id] == if id in todo || names[id] != o then names[id] else n
      decreases todo
    {
      var id :| id in todo;
      todo := todo - {id};
      if names'[id] == o {
        names' := names'[id := n];
      }
    }
  }

  method RenameIdMapSource(d: IdMap?, o: string, n: string)
    modifies d
    ensures d != null ==> d.names == old(d.names).(sources := RenameEntries(old(d.names).sources, o, n))
  {
    if d == null {
      return;
    }
    var names := RenameNames(d.names.sources, o, n);
    d.names := d.names.(sources := names);
  }

  method RenameIdMapBag(d: IdMap?, o: string, n: string)
    modifies d
    ensures d != null ==> d.names == old(d.names).(bags := RenameEntries(old(d.names).bags, o, n))
  {
    if d == null {
      return;
    }
    var names := RenameNames(d.names.bags, o, n);
    d.names := d.names.(bags := names);
  }

  /** The dictionary after a key rename in some bag of that name; without such a bag nothing changes. */
  ghost predicate KeyEntryRenamed(before: NameMap, bag: string, o: string, n: string, after: NameMap) {
    if bag !in before.bags.Values then after == before
    else exists b :: b in before.bags && before.bags[b] == bag && after == KeyEntryRenamedIn(before, b, o, n)
  }

  function KeyEntryRenamedIn(before: NameMap, b: string, o: string, n: string): NameMap {
    if b != "" && b in before.keys
    then before.(keys := before.keys[b := RenameEntries(before.keys[b], o, n)]) else before
  }

  method RenameIdMapKey(d: IdMap?, bag: string, o: string, n: string)
    modifies d
    ensures d != null ==> KeyEntryRenamed(old(d.names), bag, o, n, d.names)
  {
    if d == null {
      return;
    }
    var todo := d.names.bags.Keys;
    while todo != {}
      invariant todo <= d.names.bags.Keys && d.names == old(d.names)
      invariant forall b | b in d.names.bags && b !in todo :: d.names.bags[b] != bag
      decreases todo
    {
      var b :| b in todo;
      todo := todo - {b};
      if d.names.bags[b] == bag {
        if b != "" && b in d.names.keys {
          var names := RenameNames(d.names.keys[b], o, n);
          d.names := d.names.(keys := d.names.keys[b := names]);
        }
        assert d.names == KeyEntryRenamedIn(old(d.names), b, o, n);
        return;
      }
    }
  }

  // ----- the rename screens ---------------------------------------------------------------------------------------

  datatype Outcome = Done | NameRequired | SameName | AlreadyExists

  function RenameOutcome(taken: set<string>, o: string, n: string): Outcome {
    if n == "" then NameRequired else if n == o then SameName else if n in taken then AlreadyExists else Done
  }

  lemma DictionaryApart(c: LiveConfig)
    ensures c.idMap != null ==> c.idMap !in ParamObjs(c.sources) && c.idMap !in BagObjs(c.secrets)
    ensures c.idMap != null ==> c.idMap !in VarObjs(c.mappings) && c.idMap as object != c
    ensures forall o | o in ParamObjs(c.sources) :: allocated(o)
    ensures forall o | o in BagObjs(c.secrets) :: allocated(o)
    ensures forall o | o in VarObjs(c.mappings) :: allocated(o)
  {
    PartsExist(c);
  }

  method RenameSource(c: LiveConfig, o: string, n: string) returns (r: Outcome)
    requires c.Apart() && o in c.sources
    modifies c`sources, VarObjs(c.mappings), c.idMap
    ensures r == RenameOutcome(old(c.sources).Keys, o, n) && c.Apart()
    ensures c.Content() == if r.Done? then SourceRenamed(old(c.Content()), o, n) else old(c.Content())
    ensures c.idMap != null && r.Done? ==>
      c.idMap.names == old(c.idMap.names).(sources := RenameEntries(old(c.idMap.names).sources, o, n))
    ensures c.idMap != null && !r.Done? ==> c.idMap.names == old(c.idMap.names)
  {
    r := RenameOutcome(c.sources.Keys, o, n);
    if !r.Done? {
      return;
    }
    hide SourcesContent, SecretsContent, MappingsContent, ParamsApart, BagsApart, MappingsApart;
    hide Rewritten, MoveKey;
    KindsApart(c);
    SourceNames(c.sources);
    MoveSource(c, o, n);
    RewriteRefs(c, SourceRefs(o, n));
    DictionaryApart(c);
    RenameIdMapSource(c.idMap, o, n);
  }

  lemma SourceNames(sources: map<string, SourceRec>)
    ensures SourcesContent(sources).Keys == sources.Keys
  {
  }

  method MoveSource(c: LiveConfig, o: string, n: string)
    requires c.Apart() && o in c.sources && n !in c.sources
    modifies c`sources
    ensures c.Apart() && c.Content() == old(c.Content()).(sources := MoveKey(old(c.Content()).sources, o, n))
  {
    hide SecretsContent, MappingsContent, BagsApart, MappingsApart;
    KindsApart(c);
    ghost var before := c.sources;
    c.sources := MoveKey(c.sources, o, n);
    MovedSources(before, o, n);
    assert c !in ParamObjs(c.sources);
  }

  lemma MovedSources(before: map<string, SourceRec>, o: string, n: string)
    requires o in before && n !in before && ParamsApart(before)
    ensures ParamsApart(MoveKey(before, o, n))
    ensures SourcesContent(MoveKey(before, o, n)) == MoveKey(SourcesContent(before), o, n)
  {
  }

  method RenameBag(c: LiveConfig, o: string, n: string) returns (r: Outcome)
    requires c.Apart() && o in c.secrets
    modifies c`secrets, VarObjs(c.mappings), c.idMap
    ensures r == RenameOutcome(old(c.secrets).Keys, o, n) && c.Apart()
    ensures c.Content() == if r.Done? then BagRenamed(old(c.Content()), o, n) else old(c.Content())
    ensures c.idMap != null && r.Done? ==>
      c.idMap.names == old(c.idMap.names).(bags := RenameEntries(old(c.idMap.names).bags, o, n))
    ensures c.idMap != null && !r.Done? ==> c.idMap.names == old(c.idMap.names)
  {
    r := RenameOutcome(c.secrets.Keys, o, n);
    if !r.Done? {
      return;
    }
    hide SourcesContent, SecretsContent, MappingsContent, ParamsApart, MappingsApart;
    KindsApart(c);
    MoveBag(c, o, n);
    RewriteRefs(c, BagRefs(o, n));
    DictionaryApart(c);
    RenameIdMapBag(c.idMap, o, n);
  }

  method MoveBag(c: LiveConfig, o: string, n: string)
    requires c.Apart() && o in c.secrets && n !in c.secrets
    modifies c`secrets
    ensures c.Apart() && c.Content() == old(c.Content()).(secrets := MoveKey(old(c.Content()).secrets, o, n))
  {
    hide SourcesContent, MappingsContent, ParamsApart, MappingsApart;
    KindsApart(c);
    ghost var before := c.secrets;
    c.secrets := MoveKey(c.secrets, o, n);
    MovedBags(before, o, n);
    assert c !in BagObjs(c.secrets);
  }

  lemma MovedBags(before: map<string, StrMap>, o: string, n: string)
    requires o in before && n !in before && BagsApart(before)
    ensures BagsApart(MoveKey(before, o, n)) && BagObjs(MoveKey(before, o, n)) == BagObjs(before)
    ensures SecretsContent(MoveKey(before, o, n)) == MoveKey(SecretsContent(before), o, n)
  {
    var after := MoveKey(before, o, n);
    assert after[n] == before[o];
    forall b | b in before ensures before[b] in BagObjs(after) {
      if b == o {
        assert n in after;
      } else {
        assert b in after;
      }
    }
  }

  /** The live config after the key editor renamed key o of the bag to n and gave it a value. */
  function KeyEdited(c: Config, bag: string, o: string, n: string, val: Value): Config
    requires bag in c.secrets && o in c.secrets[bag]
  {
    var renamed := KeyRenamed(c, bag, o, n);
    renamed.(secrets := renamed.secrets[bag := renamed.secrets[bag][n := val]])
  }

  lemma EditedByMove(c: Config, bag: string, o: string, n: string, val: Value, kv: map<string, Value>)
    requires bag in c.secrets && o in c.secrets[bag] && kv == (c.secrets[bag] - {o})[n := val]
    ensures KeyEdited(c, bag, o, n, val)
         == c.(secrets := c.secrets[bag := kv]).(mappings := Rewritten(c.sources, KeyRefs(bag, o, n), c.mappings))
  {
    assert kv == MoveKey(c.secrets[bag], o, n)[n := val];
    assert c.secrets[bag := kv] == c.secrets[bag := MoveKey(c.secrets[bag], o, n)][bag := kv];
  }

  function KeyOutcome(taken: set<string>, o: string, n: string): Outcome {
    if n == "" then NameRequired else if n != o && n in taken then AlreadyExists else Done
  }

  /** Keeping the name is the special case of a rename that only sets the value. */
  lemma SameKeyEdited(c: Config, bag: string, o: string, val: Value)
    requires bag in c.secrets && o in c.secrets[bag]
    ensures KeyEdited(c, bag, o, o, val) == c.(secrets := c.secrets[bag := c.secrets[bag][o := val]])
  {
    var rw := KeyRefs(bag, o, o);
    assert forall m | m in c.mappings :: StepAll(c.sources, rw, m.vars) == m.vars;
    assert Rewritten(c.sources, rw, c.mappings) == c.mappings;
    assert MoveKey(c.secrets[bag], o, o) == c.secrets[bag];
  }

  /** The commit of the key editor for an existing key: the bag's map changes in place. */
  method EditKey(c: LiveConfig, bag: string, o: string, n: string, val: Value) returns (r: Outcome)
    requires c.Apart() && bag in c.secrets && o in c.secrets[bag].m
    modifies c.secrets[bag], VarObjs(c.mappings), c.idMap
    ensures c.Apart() && bag in old(c.Content()).secrets && o in old(c.Content()).secrets[bag]
    ensures r == KeyOutcome(old(c.secrets[bag].m.Keys), o, n)
    ensures c.Content() == if r.Done? then KeyEdited(old(c.Content()), bag, o, n, val) else old(c.Content())
    ensures c.idMap != null && r.Done? && n != o ==> KeyEntryRenamed(old(c.idMap.names), bag, o, n, c.idMap.names)
    ensures c.idMap != null && (r.Done? ==> n == o) ==> c.idMap.names == old(c.idMap.names)
  {
    r := KeyOutcome(c.secrets[bag].m.Keys, o, n);
    if !r.Done? {
      return;
    }
    hide SourcesContent, SecretsContent, MappingsContent, ParamsApart, MappingsApart, KeyEntryRenamed;
    hide KeyEdited, Rewritten;
    KindsApart(c);
    BagContent(c.secrets, bag);
    if n == o {
      SameKeyEdited(c.Content(), bag, o, val);
      SetBag(c, bag, c.secrets[bag].m[n := val]);
      return;
    }
    var kv := (c.secrets[bag].m - {o})[n := val];
    EditedByMove(c.Content(), bag, o, n, val, kv);
    SetBag(c, bag, kv);
    RewriteRefs(c, KeyRefs(bag, o, n));
    DictionaryApart(c);
    RenameIdMapKey(c.idMap, bag, o, n);
  }

  lemma BagContent(secrets: map<string, StrMap>, bag: string)
    requires bag in secrets
    ensures bag in SecretsContent(secrets) && SecretsContent(secrets)[bag] == secrets[bag].m
  {
  }

  method SetBag(c: LiveConfig, bag: string, kv: map<string, Value>)
    requires c.Apart() && bag in c.secrets
    modifies c.secrets[bag]
    ensures c.Apart() && bag in old(c.Content()).secrets
    ensures c.Content() == old(c.Content()).(secrets := old(c.Content()).secrets[bag := kv])
  {
    hide SourcesContent, MappingsContent, ParamsApart, MappingsApart;
    KindsApart(c);
    assert c.secrets[bag] in BagObjs(c.secrets);
    c.secrets[bag].m := kv;
  }

  // ----- the save -------------------------------------------------------------------------------------------------

  method CloneSources(sources: map<string, SourceRec>) returns (out: map<string, SourceRec>)
    ensures fresh(ParamObjs(out)) && ParamsApart(out)
    ensures SourcesContent(out) == SourcesContent(sources)
  {
    out := map[];
    var todo := sources.Keys;
    while todo != {}
      invariant todo <= sources.Keys && out.Keys == sources.Keys - todo
      invariant forall n | n in out :: fresh(out[n].params)
      invariant ParamsApart(out)
      invariant forall n | n in out :: out[n].typ == sources[n].typ && out[n].params.m == sources[n].params.m
      decreases todo
    {
      var n :| n in todo;
      todo := todo - {n};
      var params := new ParamMap(sources[n].params.m);
      out := out[n := SourceRec(sources[n].typ, params)];
    }
  }

  method CloneBags(secrets: map<string, StrMap>) returns (out: map<string, StrMap>)
    ensures fresh(BagObjs(out)) && BagsApart(out)
    ensures SecretsContent(out) == SecretsContent(secrets)
  {
    out := map[];
    var todo := secrets.Keys;
    while todo != {}
      invariant todo <= secrets.Keys && out.Keys == secrets.Keys - todo
      invariant forall b | b in out :: fresh(out[b])
      invariant BagsApart(out)
      invariant forall b | b in out :: out[b].m == secrets[b].m
      decreases todo
    {
      var b :| b in todo;
      todo := todo - {b};
      var kv := new StrMap(secrets[b].m);
      out := out[b := kv];
    }
  }

  method CloneVars(vars: seq<VarCell>) returns (out: seq<VarCell>)
    ensures |out| == |vars| && fresh(CellObjs(out)) && CellsApart(out)
    ensures forall j | 0 <= j < |vars| :: out[j].Content() == vars[j].Content()
  {
    out := [];
    for j := 0 to |vars|
      invariant |out| == j && (forall k | 0 <= k < j :: fresh(out[k]) && fresh(out[k].extra))
      invariant CellsApart(out)
      invariant forall k | 0 <= k < j :: out[k].Content() == vars[k].Content()
    {
      var v := vars[j];
      var extra := new StrMap(v.extra.m);
      var cell := new VarCell(Var(v.name, v.source, v.ref, v.key, v.value, v.extra.m), extra);
      out := out + [cell];
    }
  }

  method CloneMappings(ms: seq<MappingRec>) returns (out: seq<MappingRec>)
    ensures |out| == |ms| && fresh(VarObjs(out)) && MappingsApart(out)
    ensures MappingsContent(out) == MappingsContent(ms)
  {
    hide MappingsApart, CellsApart;
    NoMappings();
    out := [];
    ghost var made: set<object> := {};
    for i := 0 to |ms|
      invariant |out| == i && fresh(made)
      invariant forall k | 0 <= k < i :: CellObjs(out[k].vars) <= made
      invariant MappingsApart(out)
      invariant forall k | 0 <= k < i :: MappingContent(out[k]) == MappingContent(ms[k])
    {
      var vars := CloneVars(ms[i].vars);
      var m := MappingRec(ms[i].path, ms[i].glob, ms[i].cwdGlob, ms[i].commands, vars);
      assert MappingContent(m) == MappingContent(ms[i]);
      assert CellObjs(vars) !! made;
      OneMoreMapping(out, m);
      made := made + CellObjs(vars);
      out := out + [m];
    }
  }

  lemma OneMoreMapping(ms: seq<MappingRec>, m: MappingRec)
    requires MappingsApart(ms) && CellsApart(m.vars)
    requires forall k | 0 <= k < |ms| :: CellObjs(ms[k].vars) !! CellObjs(m.vars)
    ensures MappingsApart(ms + [m])
  {
    hide CellsApart, CellObjs;
  }

  lemma NoMappings()
    ensures MappingsApart([])
  {
  }

  method OwnSources(c: LiveConfig)
    modifies c`sources
    ensures c.Content() == old(c.Content()) && fresh(ParamObjs(c.sources)) && ParamsApart(c.sources)
  {
    hide SecretsContent, MappingsContent, ParamsApart;
    KindsApart(c);
    var sources := CloneSources(c.sources);
    c.sources := sources;
    assert c !in ParamObjs(sources);
  }

  method OwnMappings(c: LiveConfig)
    modifies c`mappings
    ensures c.Content() == old(c.Content()) && fresh(VarObjs(c.mappings)) && MappingsApart(c.mappings)
  {
    hide SecretsContent, SourcesContent, MappingsApart;
    KindsApart(c);
    var mappings := CloneMappings(c.mappings);
    c.mappings := mappings;
    assert c !in VarObjs(mappings);
  }

  method OwnSecrets(c: LiveConfig)
    modifies c`secrets
    ensures c.Content() == old(c.Content()) && fresh(BagObjs(c.secrets)) && BagsApart(c.secrets)
  {
    hide SourcesContent, MappingsContent, BagsApart;
    KindsApart(c);
    var secrets := CloneBags(c.secrets);
    c.secrets := secrets;
    assert c !in BagObjs(secrets);
  }

  /** cloneForSave: everything the save writes to is copied; the dictionary object is shared. */
  method CloneForSave(c: LiveConfig) returns (out: LiveConfig)
    ensures fresh(out) && fresh(out.Objs()) && out.Apart()
    ensures out.Content() == old(c.Content()) && out.idMap == c.idMap && out.nameMap == c.nameMap
  {
    hide SourcesContent, SecretsContent, MappingsContent, ParamsApart, BagsApart, MappingsApart;
    ghost var content := c.Content();
    PartsExist(c);
    out := new LiveConfig(c.version, c.migratedAt, c.sources, c.secrets, c.mappings, c.nameMap, c.idMap);
    assert out.Content() == content;
    KindsApart(out);
    OwnSources(out);
    KindsApart(out);
    OwnMappings(out);
    KindsApart(out);
    OwnSecrets(out);
    assert out.Content() == content;
    KindsApart(out);
  }

  /** The config file; the encoder is idealised, so a file is what it decodes to. */
  class ConfigFile {
    ghost var content: Config
    ghost constructor (content: Config)
      ensures this.content == content
    {
      this.content := content;
    }

    /** AtomicSave: the write happens as a whole or not at all. */
    method Save(c: LiveConfig)
      modifies this
      ensures content == old(c.Content())
    {
      content := c.Content();
    }
  }

  datatype SaveError = Invalid | NotSealed(reason: Failure) | NotWritten

  method CheckedCopy(c: LiveConfig) returns (out: LiveConfig, valid: bool)
    ensures fresh(out) && fresh(out.Objs()) && out.Apart()
    ensures out.Content() == old(c.Content()) && out.idMap == c.idMap && out.nameMap == c.nameMap
    ensures valid == Validate(old(c.Content()))
  {
    hide SourcesContent, SecretsContent, MappingsContent, ParamsApart, BagsApart, MappingsApart, Validate;
    out := CloneForSave(c);
    PartsExist(out);
    label Cloned:
    valid := IsValid(out);
    assert out.Content() == old@Cloned(out.Content());
  }

  /** The part of a save before the write: the sealed form of c is built on a copy. */
  method SealCopy(c: LiveConfig, key: Key, rng: Entropy)
    returns (r: Result<LiveConfig, SaveError>, ghost o: Config, ghost ids: Ids, ghost nm: NameMap)
    modifies rng
    ensures r.Ok? ==> fresh(r.value) && r.value.idMap != null && fresh(r.value.idMap) && r.value.idMap.names == nm
    ensures r.Ok? ==> o == r.value.Content() && Validate(old(c.Content()))
    ensures r.Ok? ==> EncryptsTo(key, old(c.Content()), ids, nm, o, old(rng.next))
    ensures r.Ok? ==>
      var prev := old(Encrypt.PriorNames(key, Encrypt.LiveNames(c), c.nameMap));
      prev.Ok? && Encrypt.StableIds(prev.value, ids)
    ensures r != Err(NotWritten) && (r == Err(Invalid) <==> !Validate(old(c.Content())))
  {
    hide SourcesContent, SecretsContent, MappingsContent, ParamsApart, BagsApart, MappingsApart, EncryptsTo;
    hide Encrypt.StableIds;
    hide Encrypt.EmptyCoordinate, Encrypt.PriorNames, Validate;
    ids, nm := Ids(map[], map[], map[]), EMPTY_NAME_MAP;
    o := c.Content();
    var out, valid := CheckedCopy(c);
    if !valid {
      return Err(Invalid), o, ids, nm;
    }
    var sealed;
    sealed, ids := Encrypt.EncryptInPlace(out, key, rng);
    if sealed.Err? {
      return Err(NotSealed(sealed.error)), o, ids, nm;
    }
    return Ok(out), out.Content(), ids, out.idMap.names;
  }

  lemma FileApart(c: LiveConfig, file: ConfigFile)
    ensures file !in ParamObjs(c.sources) && file !in BagObjs(c.secrets) && file !in VarObjs(c.mappings)
  {
  }

  /** saveCmd. A save that succeeds writes a sealed form of the live config and hands the dictionary it used back to it;
      one that fails, for an invalid config, in EncryptInPlace or in the write, changes neither. Of the live config no
      object but the pointer to its dictionary is ever written. */
  method SaveCmd(c: LiveConfig, key: Key, rng: Entropy, file: ConfigFile, writes: bool)
    returns (r: Result<(), SaveError>, ghost ids: Ids)
    requires c.Apart()
    modifies c`idMap, rng, file
    ensures c.Apart() && c.Content() == old(c.Content())
    ensures r.Ok? ==> Validate(c.Content()) && writes && c.idMap != null && fresh(c.idMap)
    ensures r.Ok? ==> EncryptsTo(key, c.Content(), ids, c.idMap.names, file.content, old(rng.next))
    ensures r.Ok? ==>
      var prev := old(Encrypt.PriorNames(key, Encrypt.LiveNames(c), c.nameMap));
      prev.Ok? && Encrypt.StableIds(prev.value, ids)
    ensures r.Err? ==> c.idMap == old(c.idMap) && file.content == old(file.content)
    ensures r == Err(Invalid) <==> !Validate(old(c.Content()))
  {
    hide SourcesContent, SecretsContent, MappingsContent, ParamsApart, BagsApart, MappingsApart, EncryptsTo;
    hide Encrypt.StableIds;
    hide Encrypt.PriorNames, Validate;
    KindsApart(c);
    DictionaryApart(c);
    Encrypt.RngIsApart(c, rng);
    FileApart(c, file);
    ghost var o, nm;
    var out;
    out, o, ids, nm := SealCopy(c, key, rng);
    if out.Err? {
      return Err(out.error), ids;
    }
    if !writes {
      return Err(NotWritten), ids;
    }
    file.Save(out.value);
    CarryNames(c, out.value.idMap);
    return Ok(()), ids;
  }

  /** The live config takes over the dictionary object of the saved copy. */
  method CarryNames(c: LiveConfig, idMap: IdMap?)
    modifies c`idMap
    ensures c.idMap == idMap && c.Content() == old(c.Content())
  {
    hide SourcesContent, SecretsContent, MappingsContent;
    KindsApart(c);
    c.idMap := idMap;
  }

  /** A rename is refused without a name, onto the same name and onto a taken one. */
  lemma RenameOutcomes(taken: set<string>, o: string, n: string)
    ensures RenameOutcome(taken, o, n).Done? <==> n != "" && n != o && n !in taken
    ensures KeyOutcome(taken, o, n).Done? <==> n != "" && (n == o || n !in taken)
    ensures n == "" ==> RenameOutcome(taken, o, n).NameRequired? && KeyOutcome(taken, o, n).NameRequired?
    ensures n != "" && n == o ==> RenameOutcome(taken, o, n).SameName?
  {
  }

  /** The key editor replaces one key by one of the given name and value; no other key and no other bag changes. */
  lemma KeyEditedMeans(c: Config, bag: string, o: string, n: string, val: Value)
    requires bag in c.secrets && o in c.secrets[bag] && (n == o || n !in c.secrets[bag])
    ensures var after := KeyEdited(c, bag, o, n, val);
            && after.secrets.Keys == c.secrets.Keys && after.sources == c.sources
            && (forall b | b in c.secrets && b != bag :: after.secrets[b] == c.secrets[b])
            && after.secrets[bag].Keys == c.secrets[bag].Keys - {o} + {n}
            && after.secrets[bag][n] == val
            && forall k | k in c.secrets[bag] && k != o :: after.secrets[bag][k] == c.secrets[bag][k]
  {
  }
}
