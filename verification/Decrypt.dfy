/** DecryptInPlace: the sealed, ID-keyed config is opened and renamed in place (internal/config/decrypt.go and
    DecryptStringsInPlace of internal/crypto/envelope.go). */
module Decrypt {
  import opened Wrappers
  import opened Envelope
  import opened ConfigModel
  import opened EncryptSpec
  import opened Live
  import Slots

  // ----- steps 1 to 3: opening ------------------------------------------------------------------------------------

  /** Nothing opens the parameter map o. */
  ghost predicate ParamsBlocked(key: Key, id: string, o: map<string, ParamValue>) {
    forall p :: !ParamsOpen(key, id, o, p)
  }

  ghost predicate BagBlocked(key: Key, bagId: string, o: map<string, Value>) {
    forall p :: !BagOpens(key, bagId, o, p)
  }

  ghost predicate VarBlocked(key: Key, i: nat, j: nat, o: Var) {
    forall p :: !VarOpens(key, i, j, o, p)
  }

  ghost predicate MappingBlocked(key: Key, i: nat, o: Mapping) {
    exists j | 0 <= j < |o.vars| :: VarBlocked(key, i, j, o.vars[j])
  }

  /** DecryptStringsInPlace on the parameters of one source, with "src.<id>" as the outer context. */
  method OpenParams(p: ParamMap, id: string, key: Key) returns (r: Result<(), Failure>)
    modifies p
    ensures r.Ok? ==> ParamsOpen(key, id, old(p.m), p.m)
    ensures r.Err? ==> ParamsBlocked(key, id, old(p.m))
  {
    if p.m == map[] {
      return Ok(());
    }
    if id == "" {
      return Err(EmptyAadPart);
    }
    var todo := p.m.Keys;
    while todo != {}
      invariant todo <= p.m.Keys == old(p.m.Keys)
      invariant forall k | k in todo :: p.m[k] == old(p.m[k])
      invariant forall k | k in p.m && k !in todo :: ParamOpens(key, id, k, old(p.m[k]), p.m[k])
      decreases todo
    {
      var k :| k in todo;
      todo := todo - {k};
      if p.m[k].Str? {
        var pt := OpenValue(key, p.m[k].v, ParamAd(id, k));
        if pt.Err? {
          forall q ensures !ParamsOpen(key, id, old(p.m), q) {
            assert k in q ==> !ParamOpens(key, id, k, old(p.m)[k], q[k]);
          }
          return Err(pt.error);
        }
        p.m := p.m[k := Str(pt.value)];
      }
    }
    return Ok(());
  }

  method OpenSources(sources: map<string, SourceRec>, key: Key) returns (r: Result<(), Failure>)
    requires ParamsApart(sources)
    modifies ParamObjs(sources)
    ensures r.Ok? ==> forall id | id in sources :: ParamsOpen(key, id, old(sources[id].params.m), sources[id].params.m)
    ensures r.Err? ==> exists id | id in sources :: ParamsBlocked(key, id, old(sources[id].params.m))
  {
    hide ParamsOpen, ParamsBlocked;
    var todo := sources.Keys;
    while todo != {}
      invariant todo <= sources.Keys
      invariant forall id | id in todo :: sources[id].params.m == old(sources[id].params.m)
      invariant forall id | id in sources && id !in todo ::
        ParamsOpen(key, id, old(sources[id].params.m), sources[id].params.m)
      decreases todo
    {
      var id :| id in todo;
      todo := todo - {id};
      assert sources[id].params in ParamObjs(sources);
      r := OpenParams(sources[id].params, id, key);
      if r.Err? {
        return;
      }
    }
    return Ok(());
  }

  method OpenBag(kv: StrMap, bagId: string, key: Key) returns (r: Result<(), Failure>)
    modifies kv
    ensures r.Ok? ==> BagOpens(key, bagId, old(kv.m), kv.m)
    ensures r.Err? ==> BagBlocked(key, bagId, old(kv.m))
  {
    var todo := kv.m.Keys;
    while todo != {}
      invariant todo <= kv.m.Keys == old(kv.m.Keys)
      invariant forall k | k in todo :: kv.m[k] == old(kv.m[k])
      invariant forall k | k in kv.m && k !in todo :: Open(key, old(kv.m[k]), Slots.SecretAad(bagId, k)) == Ok(kv.m[k])
      decreases todo
    {
      var k :| k in todo;
      todo := todo - {k};
      var pt := Open(key, kv.m[k], Slots.SecretAad(bagId, k));
      if pt.Err? {
        forall q ensures !BagOpens(key, bagId, old(kv.m), q) {
          assert k in old(kv.m);
        }
        return Err(pt.error);
      }
      kv.m := kv.m[k := pt.value];
    }
    return Ok(());
  }

  method OpenSecrets(secrets: map<string, StrMap>, key: Key) returns (r: Result<(), Failure>)
    requires BagsApart(secrets)
    modifies BagObjs(secrets)
    ensures r.Ok? ==> forall b | b in secrets :: BagOpens(key, b, old(secrets[b].m), secrets[b].m)
    ensures r.Err? ==> exists b | b in secrets :: BagBlocked(key, b, old(secrets[b].m))
  {
    hide BagOpens, BagBlocked;
    var todo := secrets.Keys;
    while todo != {}
      invariant todo <= secrets.Keys
      invariant forall b | b in todo :: secrets[b].m == old(secrets[b].m)
      invariant forall b | b in secrets && b !in todo :: BagOpens(key, b, old(secrets[b].m), secrets[b].m)
      decreases todo
    {
      var b :| b in todo;
      todo := todo - {b};
      assert secrets[b] in BagObjs(secrets);
      r := OpenBag(secrets[b], b, key);
      if r.Err? {
        return;
      }
    }
    return Ok(());
  }

  method OpenFields(v: VarCell, i: nat, j: nat, key: Key) returns (r: Result<(), Failure>)
    modifies v
    ensures r.Ok? ==> forall f :: Open(key, old(v.Get(f)), Slots.VarFieldAad(i, j, f)) == Ok(v.Get(f))
    ensures r.Err? ==> exists f :: Open(key, old(v.Get(f)), Slots.VarFieldAad(i, j, f)).Err?
  {
    for n := 0 to |Slots.FIELDS|
      invariant forall f | f in Slots.FIELDS[..n] ::
        Open(key, old(v.Get(f)), Slots.VarFieldAad(i, j, f)) == Ok(v.Get(f))
      invariant forall f | f !in Slots.FIELDS[..n] :: v.Get(f) == old(v.Get(f))
    {
      var f := Slots.FIELDS[n];
      assert f !in Slots.FIELDS[..n] && Slots.FIELDS[..n + 1] == Slots.FIELDS[..n] + [f];
      var pt := Open(key, v.Get(f), Slots.VarFieldAad(i, j, f));
      if pt.Err? {
        return Err(pt.error);
      }
      v.Set(f, pt.value);
    }
    forall f ensures f in Slots.FIELDS[..|Slots.FIELDS|] {
      Slots.FieldsAreAll(f);
    }
    return Ok(());
  }

  method OpenExtra(extra: StrMap, i: nat, j: nat, key: Key) returns (r: Result<(), Failure>)
    modifies extra
    ensures r.Ok? ==> ExtraOpens(key, i, j, old(extra.m), extra.m)
    ensures r.Err? ==> exists k | k in old(extra.m) :: Open(key, old(extra.m)[k], Slots.VarExtraAad(i, j, k)).Err?
  {
    var todo := extra.m.Keys;
    while todo != {}
      invariant todo <= extra.m.Keys == old(extra.m.Keys)
      invariant forall k | k in todo :: extra.m[k] == old(extra.m[k])
      invariant forall k | k in extra.m && k !in todo ::
        Open(key, old(extra.m[k]), Slots.VarExtraAad(i, j, k)) == Ok(extra.m[k])
      decreases todo
    {
      var k :| k in todo;
      todo := todo - {k};
      var pt := Open(key, extra.m[k], Slots.VarExtraAad(i, j, k));
      if pt.Err? {
        return Err(pt.error);
      }
      extra.m := extra.m[k := pt.value];
    }
    return Ok(());
  }

  method OpenVar(v: VarCell, i: nat, j: nat, key: Key) returns (r: Result<(), Failure>)
    modifies v, v.extra
    ensures r.Ok? ==> VarOpens(key, i, j, old(v.Content()), v.Content())
    ensures r.Err? ==> VarBlocked(key, i, j, old(v.Content()))
  {
    ghost var o := v.Content();
    assert forall f :: v.Get(f) == FieldOf(o, f);
    r := OpenFields(v, i, j, key);
    if r.Err? {
      forall p ensures !VarOpens(key, i, j, o, p) {
      }
      return;
    }
    r := OpenExtra(v.extra, i, j, key);
    if r.Err? {
      forall p ensures !VarOpens(key, i, j, o, p) {
      }
      return;
    }
    assert forall f :: v.Get(f) == FieldOf(v.Content(), f);
  }

  method OpenMapping(m: MappingRec, i: nat, key: Key) returns (r: Result<(), Failure>)
    requires CellsApart(m.vars)
    modifies CellObjs(m.vars)
    ensures r.Ok? ==> MappingOpens(key, i, old(MappingContent(m)), MappingContent(m))
    ensures r.Err? ==> MappingBlocked(key, i, old(MappingContent(m)))
  {
    hide VarOpens, VarBlocked;
    for j := 0 to |m.vars|
      invariant forall k | 0 <= k < j :: VarOpens(key, i, k, old(m.vars[k].Content()), m.vars[k].Content())
      invariant forall k | j <= k < |m.vars| :: m.vars[k].Content() == old(m.vars[k].Content())
    {
      assert m.vars[j] in m.vars;
      r := OpenVar(m.vars[j], i, j, key);
      if r.Err? {
        assert old(MappingContent(m)).vars[j] == old(m.vars[j].Content());
        return;
      }
    }
    return Ok(());
  }

  method OpenMappings(ms: seq<MappingRec>, key: Key) returns (r: Result<(), Failure>)
    requires MappingsApart(ms)
    modifies VarObjs(ms)
    ensures r.Ok? ==> forall i | 0 <= i < |ms| ::
      MappingOpens(key, i, old(MappingContent(ms[i])), MappingContent(ms[i]))
    ensures r.Err? ==> exists i | 0 <= i < |ms| :: MappingBlocked(key, i, old(MappingContent(ms[i])))
  {
    hide MappingOpens, MappingBlocked;
    for i := 0 to |ms|
      invariant forall k | 0 <= k < i :: MappingOpens(key, k, old(MappingContent(ms[k])), MappingContent(ms[k]))
      invariant forall k | i <= k < |ms| :: MappingContent(ms[k]) == old(MappingContent(ms[k]))
    {
      assert ms[i] in ms;
      r := OpenMapping(ms[i], i, key);
      if r.Err? {
        return;
      }
    }
    return Ok(());
  }

  // ----- step 4: names --------------------------------------------------------------------------------------------

  /** A map with every key renamed; visiting order decides between keys with one name. */
  method RekeyMap<V>(src: map<string, V>, names: map<string, string>) returns (dst: map<string, V>)
    ensures Rekeyed(src, names, dst)
  {
    dst := map[];
    var todo := src.Keys;
    while todo != {}
      invariant todo <= src.Keys
      invariant forall id | id in src && id !in todo :: Rename(names, id) in dst
      invariant forall n | n in dst ::
        exists id :: id in src && id !in todo && Rename(names, id) == n && dst[n] == src[id]
      decreases todo
    {
      var id :| id in todo;
      todo := todo - {id};
      ghost var before := dst;
      dst := dst[Rename(names, id) := src[id]];
      forall n | n in dst
        ensures exists id' :: id' in src && id' !in todo && Rename(names, id') == n && dst[n] == src[id']
      {
        if n == Rename(names, id) {
          assert id in src && id !in todo;
        } else {
          var id' :| id' in src && id' !in todo + {id} && Rename(names, id') == n && before[n] == src[id'];
        }
      }
    }
  }

  /** Fresh bags under their names. */
  method RekeySecrets(secrets: map<string, StrMap>, nm: NameMap) returns (named: map<string, StrMap>)
    ensures fresh(BagObjs(named)) && BagsApart(named)
    ensures SecretsRekeyed(SecretsContent(secrets), nm, SecretsContent(named))
  {
    hide Rekeyed, BagsApart;
    named := map[];
    assert BagsApart(named) by { NoBagsApart(); }
    var todo := secrets.Keys;
    while todo != {}
      invariant todo <= secrets.Keys
      invariant forall n | n in named :: fresh(named[n])
      invariant BagsApart(named)
      invariant forall b | b in secrets && b !in todo :: Rename(nm.bags, b) in named
      invariant forall n | n in named :: exists b ::
        b in secrets && b !in todo && Rename(nm.bags, b) == n && Rekeyed(secrets[b].m, KeyNames(nm, b), named[n].m)
      decreases todo
    {
      var b :| b in todo;
      todo := todo - {b};
      var kv := RekeyMap(secrets[b].m, KeyNames(nm, b));
      var bag := new StrMap(kv);
      ghost var before := named;
      var name := Rename(nm.bags, b);
      OneMoreApart(named, name, bag);
      named := named[name := bag];
      forall n | n in named
        ensures exists b' ::
          && b' in secrets && b' !in todo && Rename(nm.bags, b') == n
          && Rekeyed(secrets[b'].m, KeyNames(nm, b'), named[n].m)
      {
        if n == name {
          assert b in secrets && b !in todo && Rekeyed(secrets[b].m, KeyNames(nm, b), named[n].m);
        } else {
          var b' :| b' in secrets && b' !in todo + {b} && Rename(nm.bags, b') == n
                    && Rekeyed(secrets[b'].m, KeyNames(nm, b'), before[n].m);
        }
      }
    }
    SecretsAreRekeyed(secrets, nm, named);
  }

  lemma NoBagsApart()
    ensures BagsApart(map[])
  {
  }

  lemma SecretsAreRekeyed(secrets: map<string, StrMap>, nm: NameMap, named: map<string, StrMap>)
    requires forall b | b in secrets :: Rename(nm.bags, b) in named
    requires forall n | n in named :: exists b ::
      b in secrets && Rename(nm.bags, b) == n && Rekeyed(secrets[b].m, KeyNames(nm, b), named[n].m)
    ensures SecretsRekeyed(SecretsContent(secrets), nm, SecretsContent(named))
  {
    hide Rekeyed;
    var src, dst := SecretsContent(secrets), SecretsContent(named);
    forall n | n in dst
      ensures exists b :: b in src && Rename(nm.bags, b) == n && Rekeyed(src[b], KeyNames(nm, b), dst[n])
    {
      var b :| b in secrets && Rename(nm.bags, b) == n && Rekeyed(secrets[b].m, KeyNames(nm, b), named[n].m);
      assert b in src && src[b] == secrets[b].m && dst[n] == named[n].m;
    }
  }

  /** translateIDsToNames on one var; `types` holds the source types by ID, captured before the sources are renamed. */
  method TranslateToNames(v: VarCell, types: map<string, string>, nm: NameMap, ghost byId: map<string, Source>)
    requires types == map id | id in byId :: byId[id].typ
    modifies v
    ensures v.Content() == ToNames(byId, nm, old(v.Content()))
  {
    if IsBlank(v.source) {
      return;
    }
    var isLocal := v.source.Text? && v.source.s in types && types[v.source.s] == LOCAL;
    if v.source.Text? && v.source.s in nm.sources {
      v.source := Text(nm.sources[v.source.s]);
    }
    if !isLocal {
      return;
    }
    var bagId := v.ref;
    if !IsBlank(v.key) {
      if bagId.Text? && bagId.s in nm.keys && v.key.Text? && v.key.s in nm.keys[bagId.s] {
        v.key := Text(nm.keys[bagId.s][v.key.s]);
      }
    }
    if bagId.Text? && bagId.s in nm.bags {
      v.ref := Text(nm.bags[bagId.s]);
    }
  }

  method NameMapping(m: MappingRec, types: map<string, string>, nm: NameMap, ghost byId: map<string, Source>)
    requires CellsApart(m.vars) && types == map id | id in byId :: byId[id].typ
    modifies CellObjs(m.vars)
    ensures MappingNamed(byId, nm, old(MappingContent(m)), MappingContent(m))
  {
    hide ToNames;
    for j := 0 to |m.vars|
      invariant forall k | 0 <= k < j :: m.vars[k].Content() == ToNames(byId, nm, old(m.vars[k].Content()))
      invariant forall k | j <= k < |m.vars| :: m.vars[k].Content() == old(m.vars[k].Content())
    {
      assert m.vars[j] in m.vars;
      TranslateToNames(m.vars[j], types, nm, byId);
    }
  }

  method NameMappings(ms: seq<MappingRec>, types: map<string, string>, nm: NameMap, ghost byId: map<string, Source>)
    requires MappingsApart(ms) && types == map id | id in byId :: byId[id].typ
    modifies VarObjs(ms)
    ensures forall i | 0 <= i < |ms| :: MappingNamed(byId, nm, old(MappingContent(ms[i])), MappingContent(ms[i]))
  {
    hide MappingNamed;
    for i := 0 to |ms|
      invariant forall k | 0 <= k < i :: MappingNamed(byId, nm, old(MappingContent(ms[k])), MappingContent(ms[k]))
      invariant forall k | i <= k < |ms| :: MappingContent(ms[k]) == old(MappingContent(ms[k]))
    {
      assert ms[i] in ms;
      NameMapping(ms[i], types, nm, byId);
    }
  }

  // ----- the whole load -------------------------------------------------------------------------------------------

  /** Some part of o opens under no plaintext. */
  ghost predicate Blocked(key: Key, o: Config) {
    || (exists id | id in o.sources :: ParamsBlocked(key, id, o.sources[id].params))
    || (exists b | b in o.secrets :: BagBlocked(key, b, o.secrets[b]))
    || (exists i | 0 <= i < |o.mappings| :: MappingBlocked(key, i, o.mappings[i]))
  }

  lemma BlockedDoesNotOpen(key: Key, o: Config)
    requires Blocked(key, o)
    ensures forall p :: !OpensTo(key, o, p)
  {
    forall p ensures !OpensTo(key, o, p) {
      if id :| id in o.sources && ParamsBlocked(key, id, o.sources[id].params) {
        assert id in p.sources ==> !SourceOpens(key, id, o.sources[id], p.sources[id]);
      } else if b :| b in o.secrets && BagBlocked(key, b, o.secrets[b]) {
        assert b in p.secrets ==> !BagOpens(key, b, o.secrets[b], p.secrets[b]);
      } else {
        var i :| 0 <= i < |o.mappings| && MappingBlocked(key, i, o.mappings[i]);
        var j :| 0 <= j < |o.mappings[i].vars| && VarBlocked(key, i, j, o.mappings[i].vars[j]);
        if |p.mappings| == |o.mappings| && |p.mappings[i].vars| == |o.mappings[i].vars| {
          assert !VarOpens(key, i, j, o.mappings[i].vars[j], p.mappings[i].vars[j]);
          assert !MappingOpens(key, i, o.mappings[i], p.mappings[i]);
        } else if |p.mappings| == |o.mappings| {
          assert !MappingOpens(key, i, o.mappings[i], p.mappings[i]);
        }
      }
    }
  }

  method OpenSourcesOf(c: LiveConfig, key: Key) returns (r: Result<(), Failure>)
    requires c.Apart()
    modifies ParamObjs(c.sources)
    ensures c.Content() == old(c.Content()).(sources := SourcesContent(c.sources))
    ensures r.Ok? ==> SourcesContent(c.sources).Keys == old(SourcesContent(c.sources)).Keys
    ensures r.Ok? ==> forall id | id in old(SourcesContent(c.sources)) ::
      SourceOpens(key, id, old(SourcesContent(c.sources))[id], SourcesContent(c.sources)[id])
    ensures r.Err? ==> Blocked(key, old(c.Content()))
  {
    hide SecretsContent, MappingsContent, ParamsOpen, ParamsBlocked, BagBlocked, MappingBlocked;
    KindsApart(c);
    ghost var before := SourcesContent(c.sources);
    assert forall id | id in c.sources :: before[id].params == c.sources[id].params.m;
    r := OpenSources(c.sources, key);
    if r.Err? {
      ghost var id :| id in c.sources && ParamsBlocked(key, id, before[id].params);
      assert id in before;
    }
  }

  method OpenSecretsOf(c: LiveConfig, key: Key) returns (r: Result<(), Failure>)
    requires c.Apart()
    modifies BagObjs(c.secrets)
    ensures c.Content() == old(c.Content()).(secrets := SecretsContent(c.secrets))
    ensures r.Ok? ==> SecretsContent(c.secrets).Keys == old(SecretsContent(c.secrets)).Keys
    ensures r.Ok? ==> forall b | b in old(SecretsContent(c.secrets)) ::
      BagOpens(key, b, old(SecretsContent(c.secrets))[b], SecretsContent(c.secrets)[b])
    ensures r.Err? ==> exists b | b in old(SecretsContent(c.secrets)) ::
      BagBlocked(key, b, old(SecretsContent(c.secrets))[b])
  {
    hide SourcesContent, MappingsContent, BagOpens, BagBlocked;
    KindsApart(c);
    ghost var before := SecretsContent(c.secrets);
    assert forall b | b in c.secrets :: before[b] == c.secrets[b].m;
    r := OpenSecrets(c.secrets, key);
    if r.Err? {
      ghost var b :| b in c.secrets && BagBlocked(key, b, before[b]);
      assert b in before;
    }
  }

  method OpenMappingsOf(c: LiveConfig, key: Key) returns (r: Result<(), Failure>)
    requires c.Apart()
    modifies VarObjs(c.mappings)
    ensures c.Content() == old(c.Content()).(mappings := MappingsContent(c.mappings))
    ensures r.Ok? ==> forall i | 0 <= i < |c.mappings| ::
      MappingOpens(key, i, old(MappingsContent(c.mappings))[i], MappingsContent(c.mappings)[i])
    ensures r.Err? ==> exists i | 0 <= i < |c.mappings| :: MappingBlocked(key, i, old(MappingsContent(c.mappings))[i])
  {
    hide SourcesContent, SecretsContent, MappingOpens, MappingBlocked;
    KindsApart(c);
    assert forall i | 0 <= i < |c.mappings| :: MappingContent(c.mappings[i]) == MappingsContent(c.mappings)[i];
    r := OpenMappings(c.mappings, key);
  }

  /** Opens every value; map keys and references stay IDs. */
  method OpenAll(c: LiveConfig, key: Key) returns (r: Result<(), Failure>)
    requires c.Apart()
    modifies ParamObjs(c.sources), BagObjs(c.secrets), VarObjs(c.mappings)
    ensures r.Ok? ==> OpensTo(key, old(c.Content()), c.Content())
    ensures r.Err? ==> Blocked(key, old(c.Content()))
  {
    hide SourcesContent, SecretsContent, MappingsContent, SourceOpens, BagOpens, MappingOpens;
    hide ParamsBlocked, BagBlocked, MappingBlocked;
    KindsApart(c);
    MappingsCount(c.mappings);
    r := OpenSourcesOf(c, key);
    if r.Err? {
      return;
    }
    r := OpenSecretsOf(c, key);
    if r.Err? {
      return;
    }
    r := OpenMappingsOf(c, key);
    MappingsCount(c.mappings);
  }

  lemma MappingsCount(ms: seq<MappingRec>)
    ensures |MappingsContent(ms)| == |ms|
  {
  }

  /** The source records under their names. */
  method RenameSources(sources: map<string, SourceRec>, nm: NameMap) returns (named: map<string, SourceRec>)
    requires ParamsApart(sources)
    ensures ParamsApart(named) && ParamObjs(named) <= ParamObjs(sources)
    ensures Rekeyed(SourcesContent(sources), nm.sources, SourcesContent(named))
  {
    hide ParamsApart, Rekeyed, SourcesContent;
    if |nm.sources| > 0 && |sources| > 0 {
      named := RekeyMap(sources, nm.sources);
      RenamedParamsApart(sources, nm.sources, named);
      RenamedContent(sources, nm.sources, named);
    } else {
      named := sources;
      assert sources == map[] ==> SourcesContent(sources) == map[] by { SourcesContentOfNone(); }
      NothingToRename(SourcesContent(sources), nm.sources);
    }
  }

  lemma SourcesContentOfNone()
    ensures SourcesContent(map[]) == map[]
  {
  }

  method NameSources(c: LiveConfig, nm: NameMap)
    requires c.Apart()
    modifies c`sources
    ensures c.Apart() && c.Content() == old(c.Content()).(sources := SourcesContent(c.sources))
    ensures ParamObjs(c.sources) <= old(ParamObjs(c.sources))
    ensures Rekeyed(old(SourcesContent(c.sources)), nm.sources, SourcesContent(c.sources))
  {
    hide SourcesContent, SecretsContent, MappingsContent, ParamsApart, BagsApart, MappingsApart, Rekeyed;
    KindsApart(c);
    var named := RenameSources(c.sources, nm);
    assert c !in ParamObjs(named);
    c.sources := named;
  }

  lemma NothingToRename<V>(src: map<string, V>, names: map<string, string>)
    requires names == map[] || src == map[]
    ensures Rekeyed(src, names, src)
  {
    forall n | n in src ensures exists id :: id in src && Rename(names, id) == n && src[n] == src[id] {
      assert Rename(names, n) == n;
    }
  }

  lemma RenamedParamsApart(before: map<string, SourceRec>, names: map<string, string>, o: map<string, SourceRec>)
    requires ParamsApart(before) && Rekeyed(before, names, o)
    ensures ParamsApart(o) && ParamObjs(o) <= ParamObjs(before)
  {
    forall n | n in o ensures o[n].params in ParamObjs(before) {
      var id :| id in before && Rename(names, id) == n && o[n] == before[id];
    }
    forall n, n' | n in o && n' in o && n != n' ensures o[n].params != o[n'].params {
      var id :| id in before && Rename(names, id) == n && o[n] == before[id];
      var id' :| id' in before && Rename(names, id') == n' && o[n'] == before[id'];
    }
  }

  lemma RenamedContent(before: map<string, SourceRec>, names: map<string, string>, o: map<string, SourceRec>)
    requires Rekeyed(before, names, o)
    ensures Rekeyed(SourcesContent(before), names, SourcesContent(o))
  {
    var src, dst := SourcesContent(before), SourcesContent(o);
    forall n | n in dst ensures exists id :: id in src && Rename(names, id) == n && dst[n] == src[id] {
      var id :| id in before && Rename(names, id) == n && o[n] == before[id];
      assert id in src;
    }
  }

  method NameSecrets(c: LiveConfig, nm: NameMap)
    requires c.Apart()
    modifies c`secrets
    ensures c.Apart() && c.Content() == old(c.Content()).(secrets := SecretsContent(c.secrets))
    ensures SecretsRekeyed(old(SecretsContent(c.secrets)), nm, SecretsContent(c.secrets))
  {
    hide SourcesContent, SecretsContent, MappingsContent, ParamsApart, BagsApart, MappingsApart, SecretsRekeyed;
    KindsApart(c);
    var named := RekeySecrets(c.secrets, nm);
    c.secrets := named;
  }

  method NameVars(c: LiveConfig, types: map<string, string>, nm: NameMap, ghost byId: map<string, Source>)
    requires c.Apart() && types == map id | id in byId :: byId[id].typ
    modifies VarObjs(c.mappings)
    ensures c.Content() == old(c.Content()).(mappings := MappingsContent(c.mappings))
    ensures forall i | 0 <= i < |c.mappings| ::
      MappingNamed(byId, nm, old(MappingsContent(c.mappings))[i], MappingsContent(c.mappings)[i])
  {
    hide SourcesContent, SecretsContent, MappingNamed;
    KindsApart(c);
    assert forall i | 0 <= i < |c.mappings| :: MappingContent(c.mappings[i]) == MappingsContent(c.mappings)[i];
    NameMappings(c.mappings, types, nm, byId);
  }

  /** translateIDsToNames: sources, then bags, then vars; the vars are resolved against the types captured up front. */
  method TranslateAll(c: LiveConfig, nm: NameMap)
    requires c.Apart()
    modifies c`sources, c`secrets, VarObjs(c.mappings)
    ensures c.Apart() && NamedAs(old(c.Content()), nm, c.Content())
    ensures ParamObjs(c.sources) <= old(ParamObjs(c.sources))
  {
    hide SourcesContent, SecretsContent, MappingsContent, ParamsApart, BagsApart, MappingsApart;
    hide Rekeyed, SecretsRekeyed, MappingNamed;
    ghost var byId := SourcesContent(c.sources);
    var types := map id | id in c.sources :: c.sources[id].typ;
    assert types == map id | id in byId :: byId[id].typ by { TypesAreTypes(c.sources); }
    KindsApart(c);
    MappingsCount(c.mappings);
    NameSources(c, nm);
    NameSecrets(c, nm);
    NameVars(c, types, nm, byId);
    MappingsCount(c.mappings);
  }

  lemma TypesAreTypes(sources: map<string, SourceRec>)
    ensures var byId := SourcesContent(sources);
            (map id | id in sources :: sources[id].typ) == map id | id in byId :: byId[id].typ
  {
  }

  /** The load. On success c is a name-keyed config that o decrypts to, together with its dictionary; it fails exactly
      when the dictionary or some envelope does not open. */
  method DecryptInPlace(c: LiveConfig, key: Key) returns (r: Result<(), Failure>)
    requires c.Apart()
    modifies c, ParamObjs(c.sources), BagObjs(c.secrets), VarObjs(c.mappings)
    ensures r.Ok? ==> c.Apart() && c.idMap != null && fresh(c.idMap)
    ensures r.Ok? ==> DecryptsTo(key, old(c.Content()), c.idMap.names, c.Content())
    ensures r.Ok? <==> DecryptSucceeds(key, old(c.Content()))
    ensures c.mappings == old(c.mappings) && ParamObjs(c.sources) <= old(ParamObjs(c.sources))
  {
    hide SourcesContent, SecretsContent, MappingsContent, ParamsApart, BagsApart, MappingsApart, OpensTo, NamedAs;
    hide Blocked;
    ghost var o := c.Content();
    var nm := OpenNameMap(key, c.nameMap);
    if nm.Err? {
      return Err(nm.error);
    }
    r := OpenAll(c, key);
    if r.Err? {
      BlockedDoesNotOpen(key, o);
      return;
    }
    ghost var p := c.Content();
    TranslateAll(c, nm.value);
    CarryNames(c, nm.value);
    assert OpensTo(key, o, p) && NamedAs(p, nm.value, c.Content());
    return Ok(());
  }

  method CarryNames(c: LiveConfig, nm: NameMap)
    requires c.Apart()
    modifies c`idMap
    ensures c.idMap != null && fresh(c.idMap) && c.idMap.names == nm
    ensures c.Apart() && c.Content() == old(c.Content())
  {
    hide SourcesContent, SecretsContent, MappingsContent, ParamsApart, BagsApart, MappingsApart;
    KindsApart(c);
    c.idMap := new IdMap(nm);
  }

  /** What a load makes of the references of an opened var, those of hand-edited files included: known IDs become names,
      a bag and a key only for a local source, and whatever is blank or unknown stays. */
  lemma IdsBecomeReferences(p: Config, nm: NameMap, c: Config, i: nat, j: nat)
    requires NamedAs(p, nm, c) && i < |p.mappings| && j < |p.mappings[i].vars|
    ensures i < |c.mappings| && j < |c.mappings[i].vars|
    ensures
      var w, v := p.mappings[i].vars[j], c.mappings[i].vars[j];
      && v.name == w.name && v.value == w.value && v.extra == w.extra
      && (if w.source.Text? && w.source.s != "" && w.source.s in nm.sources
          then v.source == Text(nm.sources[w.source.s]) else v.source == w.source)
      && (if w.source.Text? && w.source.s != "" && w.source.s in p.sources && p.sources[w.source.s].typ == "local" then
            && (if w.ref.Text? && w.ref.s in nm.bags then v.ref == Text(nm.bags[w.ref.s]) else v.ref == w.ref)
            && (if w.key.Text? && w.key.s != "" && w.ref.Text? && w.ref.s in nm.keys && w.key.s in nm.keys[w.ref.s]
                then v.key == Text(nm.keys[w.ref.s][w.key.s]) else v.key == w.key)
          else v.ref == w.ref && v.key == w.key)
  {
    assert MappingNamed(p.sources, nm, p.mappings[i], c.mappings[i]);
  }
}
