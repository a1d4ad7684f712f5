/** A saved config loads back as the config that was saved, exactly under the stated side conditions. */
module RoundTrip {
  import opened Wrappers
  import opened Envelope
  import opened ConfigModel
  import opened EncryptSpec
  import Slots

  /** Every ID of the dictionary has the form newID mints. */
  ghost predicate WellShaped(nm: NameMap) {
    && (forall id | id in nm.sources :: Slots.IsSourceId(id))
    && (forall id | id in nm.bags :: Slots.IsBagId(id))
    && (forall b | b in nm.keys :: forall id | id in nm.keys[b] :: Slots.IsKeyId(id))
  }

  function IdMapping(sources: map<string, Source>, ids: Ids, m: Mapping): Mapping {
    m.(vars := seq(|m.vars|, j requires 0 <= j < |m.vars| => ToIds(sources, ids, m.vars[j])))
  }

  /** c keyed by ID, in plaintext: the half-way point of both directions. */
  function IdForm(c: Config, ids: Ids, nm: NameMap, field: NameMapField): Config
    requires forall id | id in nm.sources :: nm.sources[id] in c.sources
    requires forall b | b in nm.bags ::
      b in nm.keys && nm.bags[b] in c.secrets && forall k | k in nm.keys[b] :: nm.keys[b][k] in c.secrets[nm.bags[b]]
  {
    Config(
      c.version, c.migratedAt,
      map id | id in nm.sources :: c.sources[nm.sources[id]],
      IdSecrets(c, nm),
      seq(|c.mappings|, i requires 0 <= i < |c.mappings| => IdMapping(c.sources, ids, c.mappings[i])),
      field)
  }

  lemma IdIsPlain(s: string, prefix: string)
    requires Slots.IsId(s, prefix) && prefix in ["s_", "b_", "k_"]
    ensures !IsSkipped(Text(s))
  {
    assert s[1] == '_' && PREFIX[1] == 'n' && LEGACY_PREFIX[1] == 'n';
  }

  /** The two ways the source spells a parameter's slot agree. */
  lemma ParamAdAgrees(id: string, k: string)
    requires Slots.SourceParamAad(id, k).Ok?
    ensures Slots.SourceParamAad(id, k).value == ParamAd(id, k)
  {
    Slots.JoinThree("src", id, k);
  }

  // ----- opening what was sealed ----------------------------------------------------------------------------------

  lemma ParamsOpenAgain(key: Key, id: string, p: map<string, ParamValue>, o: map<string, ParamValue>, lo: nat)
    requires ParamsSealed(key, id, p, o, lo) && id != ""
    requires forall k | k in p :: ParamIsPlain(p[k])
    ensures ParamsOpen(key, id, o, p)
  {
    forall k | k in o ensures ParamOpens(key, id, k, o[k], p[k]) {
      assert ParamSealed(key, id, k, p[k], o[k], lo);
      if Slots.SourceParamAad(id, k).Ok? {
        ParamAdAgrees(id, k);
      }
    }
  }

  lemma BagOpensAgain(key: Key, b: string, names: map<string, string>, kv: map<string, Value>, o: map<string, Value>,
                      lo: nat)
    requires forall k | k in names :: names[k] in kv
    requires BagSealed(key, b, names, kv, o, lo)
    requires forall k | k in kv :: !IsEnvelope(kv[k])
    ensures BagOpens(key, b, o, map k | k in names :: kv[names[k]])
  {
  }

  lemma VarOpensAgain(key: Key, i: nat, j: nat, p: Var, o: Var, lo: nat)
    requires VarSealed(key, i, j, p, o, lo) && VarIsPlain(p)
    ensures VarOpens(key, i, j, o, p)
  {
    forall f ensures Open(key, FieldOf(o, f), Slots.VarFieldAad(i, j, f)) == Ok(FieldOf(p, f)) {
      assert SealedAs(key, Slots.VarFieldAad(i, j, f), FieldOf(p, f), FieldOf(o, f), lo);
    }
  }

  /** Translating to IDs keeps a plain var plain. */
  lemma ToIdsIsPlain(c: Config, ids: Ids, nm: NameMap, v: Var)
    requires DictionaryOf(c, ids, nm) && WellShaped(nm) && VarIsPlain(v)
    ensures VarIsPlain(ToIds(c.sources, ids, v))
  {
    var w := ToIds(c.sources, ids, v);
    if w.source != v.source {
      IdIsPlain(ids.src[v.source.s], Slots.SOURCE_PREFIX);
    }
    if w.ref != v.ref {
      IdIsPlain(ids.bag[v.ref.s], Slots.BAG_PREFIX);
    }
    if w.key != v.key {
      IdIsPlain(ids.key[ids.bag[v.ref.s]][v.key.s], Slots.KEY_PREFIX);
    }
  }

  lemma MappingOpensAgain(key: Key, c: Config, ids: Ids, nm: NameMap, i: nat, m: Mapping, o: Mapping, lo: nat)
    requires DictionaryOf(c, ids, nm) && WellShaped(nm)
    requires MappingSealed(key, c.sources, ids, i, m, o, lo)
    requires forall v | v in m.vars :: VarIsPlain(v)
    ensures MappingOpens(key, i, o, IdMapping(c.sources, ids, m))
  {
    forall j | 0 <= j < |m.vars| ensures VarOpens(key, i, j, o.vars[j], ToIds(c.sources, ids, m.vars[j])) {
      assert m.vars[j] in m.vars;
      ToIdsIsPlain(c, ids, nm, m.vars[j]);
      VarOpensAgain(key, i, j, ToIds(c.sources, ids, m.vars[j]), o.vars[j], lo);
    }
  }

  lemma SourcesOpenAgain(key: Key, c: Config, ids: Ids, nm: NameMap, o: map<string, Source>, lo: nat)
    requires DictionaryOf(c, ids, nm) && WellShaped(nm) && AllPlain(c)
    requires SourcesSealed(key, c, nm, o, lo)
    ensures forall id | id in o :: SourceOpens(key, id, o[id], c.sources[nm.sources[id]])
  {
    forall id | id in o ensures SourceOpens(key, id, o[id], c.sources[nm.sources[id]]) {
      assert Slots.IsSourceId(id);
      ParamsOpenAgain(key, id, c.sources[nm.sources[id]].params, o[id].params, lo);
    }
  }

  lemma SecretsOpenAgain(key: Key, c: Config, ids: Ids, nm: NameMap, o: map<string, map<string, Value>>, lo: nat)
    requires DictionaryOf(c, ids, nm) && AllPlain(c)
    requires SecretsSealed(key, c, nm, o, lo)
    ensures forall b | b in o :: BagOpens(key, b, o[b], IdSecrets(c, nm)[b])
  {
    forall b | b in o ensures BagOpens(key, b, o[b], IdSecrets(c, nm)[b]) {
      var kv := c.secrets[nm.bags[b]];
      assert IdSecrets(c, nm)[b] == map k | k in nm.keys[b] :: kv[nm.keys[b][k]];
      assert BagSealed(key, b, nm.keys[b], kv, o[b], lo);
      BagOpensAgain(key, b, nm.keys[b], kv, o[b], lo);
    }
  }

  lemma MappingsOpenAgain(key: Key, c: Config, ids: Ids, nm: NameMap, o: seq<Mapping>, lo: nat)
    requires DictionaryOf(c, ids, nm) && WellShaped(nm) && AllPlain(c)
    requires MappingsSealed(key, c, ids, o, lo)
    ensures forall i | 0 <= i < |o| :: MappingOpens(key, i, o[i], IdMapping(c.sources, ids, c.mappings[i]))
  {
    forall i | 0 <= i < |o| ensures MappingOpens(key, i, o[i], IdMapping(c.sources, ids, c.mappings[i])) {
      assert c.mappings[i] in c.mappings;
      MappingOpensAgain(key, c, ids, nm, i, c.mappings[i], o[i], lo);
    }
  }

  lemma DictionaryCovers(c: Config, ids: Ids, nm: NameMap)
    requires DictionaryOf(c, ids, nm)
    ensures forall id | id in nm.sources :: nm.sources[id] in c.sources
    ensures forall b | b in nm.bags ::
      b in nm.keys && nm.bags[b] in c.secrets && forall k | k in nm.keys[b] :: nm.keys[b][k] in c.secrets[nm.bags[b]]
  {
  }

  lemma FileOpens(key: Key, c: Config, ids: Ids, nm: NameMap, o: Config, lo: nat)
    requires EncryptsTo(key, c, ids, nm, o, lo) && WellShaped(nm) && AllPlain(c)
    ensures OpensTo(key, o, IdForm(c, ids, nm, o.nameMap))
  {
    hide SourceOpens, BagOpens, MappingOpens, NameMapSealed, ParamsSealed, BagSealed, MappingSealed, IdMapping;
    hide DictionaryOf, AllPlain, WellShaped;
    DictionaryCovers(c, ids, nm);
    SourcesOpenAgain(key, c, ids, nm, o.sources, lo);
    SecretsOpenAgain(key, c, ids, nm, o.secrets, lo);
    MappingsOpenAgain(key, c, ids, nm, o.mappings, lo);
  }

  /** Opening is a function of the file. */
  lemma OpensToOne(key: Key, o: Config, p: Config, q: Config)
    requires OpensTo(key, o, p) && OpensTo(key, o, q)
    ensures p == q
  {
    forall id | id in o.sources ensures p.sources[id] == q.sources[id] {
      assert SourceOpens(key, id, o.sources[id], p.sources[id]) && SourceOpens(key, id, o.sources[id], q.sources[id]);
      forall k | k in o.sources[id].params ensures p.sources[id].params[k] == q.sources[id].params[k] {
        assert ParamOpens(key, id, k, o.sources[id].params[k], p.sources[id].params[k]);
        assert ParamOpens(key, id, k, o.sources[id].params[k], q.sources[id].params[k]);
      }
      assert p.sources[id].params == q.sources[id].params;
    }
    assert p.sources == q.sources;
    forall b | b in o.secrets ensures p.secrets[b] == q.secrets[b] {
      assert BagOpens(key, b, o.secrets[b], p.secrets[b]) && BagOpens(key, b, o.secrets[b], q.secrets[b]);
      assert p.secrets[b] == q.secrets[b];
    }
    assert p.secrets == q.secrets;
    forall i | 0 <= i < |o.mappings| ensures p.mappings[i] == q.mappings[i] {
      MappingOpensToOne(key, i, o.mappings[i], p.mappings[i], q.mappings[i]);
    }
    assert p.mappings == q.mappings;
  }

  lemma MappingOpensToOne(key: Key, i: nat, o: Mapping, p: Mapping, q: Mapping)
    requires MappingOpens(key, i, o, p) && MappingOpens(key, i, o, q)
    ensures p == q
  {
    forall j | 0 <= j < |o.vars| ensures p.vars[j] == q.vars[j] {
      VarOpensToOne(key, i, j, o.vars[j], p.vars[j], q.vars[j]);
    }
    assert p.vars == q.vars;
  }

  lemma VarOpensToOne(key: Key, i: nat, j: nat, o: Var, p: Var, q: Var)
    requires VarOpens(key, i, j, o, p) && VarOpens(key, i, j, o, q)
    ensures p == q
  {
    assert FieldOf(p, Slots.Name) == FieldOf(q, Slots.Name);
    assert FieldOf(p, Slots.Source) == FieldOf(q, Slots.Source);
    assert FieldOf(p, Slots.Ref) == FieldOf(q, Slots.Ref);
    assert FieldOf(p, Slots.Key) == FieldOf(q, Slots.Key);
    assert FieldOf(p, Slots.Value) == FieldOf(q, Slots.Value);
    assert p.extra == q.extra;
  }

  // ----- names and IDs --------------------------------------------------------------------------------------------

  /** Renaming by a dictionary undoes keying by its inverse, whatever order the keys are visited in. */
  lemma RekeyedIsInverse<V(!new)>(c: map<string, V>, ids: map<string, string>, names: map<string, string>,
                                   dst: map<string, V>)
    requires ids.Keys == c.Keys && Inverse(ids, names)
    ensures Rekeyed(map id | id in names :: c[names[id]], names, dst) <==> dst == c
  {
    var src := map id | id in names :: c[names[id]];
    if Rekeyed(src, names, dst) {
      forall n | n in c ensures n in dst {
        assert Rename(names, ids[n]) == n;
      }
      forall n | n in dst ensures n in c && dst[n] == c[n] {
        var id :| id in src && Rename(names, id) == n && dst[n] == src[id];
      }
      assert dst.Keys == c.Keys;
    }
    if dst == c {
      forall n | n in dst ensures exists id :: id in src && Rename(names, id) == n && dst[n] == src[id] {
        assert Rename(names, ids[n]) == n;
      }
    }
  }

  function IdSecrets(c: Config, nm: NameMap): map<string, map<string, Value>>
    requires forall b | b in nm.bags ::
      b in nm.keys && nm.bags[b] in c.secrets && forall k | k in nm.keys[b] :: nm.keys[b][k] in c.secrets[nm.bags[b]]
  {
    map b | b in nm.bags :: map k | k in nm.keys[b] :: c.secrets[nm.bags[b]][nm.keys[b][k]]
  }

  lemma BagRekeyedIsInverse(c: Config, ids: Ids, nm: NameMap, b: string, x: map<string, Value>)
    requires DictionaryOf(c, ids, nm) && b in nm.bags
    ensures Rekeyed(IdSecrets(c, nm)[b], KeyNames(nm, b), x) <==> x == c.secrets[nm.bags[b]]
  {
    var kv, names := c.secrets[nm.bags[b]], nm.keys[b];
    assert IdSecrets(c, nm)[b] == map k | k in names :: kv[names[k]];
    RekeyedIsInverse(kv, ids.key[b], names, x);
  }

  lemma BagComesBack(c: Config, ids: Ids, nm: NameMap, dst: map<string, map<string, Value>>, n: string)
    returns (b: string)
    requires DictionaryOf(c, ids, nm)
    requires n in dst && SecretsRekeyed(IdSecrets(c, nm), nm, dst)
    ensures b in nm.bags && Rename(nm.bags, b) == n && dst[n] == c.secrets[nm.bags[b]]
  {
    var src := IdSecrets(c, nm);
    b :| b in src && Rename(nm.bags, b) == n && Rekeyed(src[b], KeyNames(nm, b), dst[n]);
    BagRekeyedIsInverse(c, ids, nm, b, dst[n]);
  }

  lemma SecretsComeBack(c: Config, ids: Ids, nm: NameMap, dst: map<string, map<string, Value>>)
    requires DictionaryOf(c, ids, nm)
    requires SecretsRekeyed(IdSecrets(c, nm), nm, dst)
    ensures dst == c.secrets
  {
    var byId := map b | b in nm.bags :: c.secrets[nm.bags[b]];
    assert Rekeyed(byId, nm.bags, dst) by {
      forall b | b in byId ensures Rename(nm.bags, b) in dst {
        assert b in IdSecrets(c, nm);
      }
      forall n | n in dst ensures exists b :: b in byId && Rename(nm.bags, b) == n && dst[n] == byId[b] {
        var b := BagComesBack(c, ids, nm, dst, n);
        assert b in byId;
      }
    }
    RekeyedIsInverse(c.secrets, ids.bag, nm.bags, dst);
  }

  lemma SecretsMayComeBack(c: Config, ids: Ids, nm: NameMap)
    requires DictionaryOf(c, ids, nm)
    ensures SecretsRekeyed(IdSecrets(c, nm), nm, c.secrets)
  {
    var src, dst := IdSecrets(c, nm), c.secrets;
    forall n | n in dst
      ensures exists b :: b in src && Rename(nm.bags, b) == n && Rekeyed(src[b], KeyNames(nm, b), dst[n])
    {
      var b := ids.bag[n];
      assert b in src && Rename(nm.bags, b) == n;
      BagRekeyedIsInverse(c, ids, nm, b, dst[n]);
    }
  }

  /** A var's references come back exactly when they are not captured by the dictionary. */
  lemma VarNamesComeBack(c: Config, ids: Ids, nm: NameMap, field: NameMapField, v: Var)
    requires DictionaryOf(c, ids, nm) && WellShaped(nm) && VarIsPlain(v)
    requires ValidVar(v) && SourceDefined(c, v)
    ensures ToNames(IdForm(c, ids, nm, field).sources, nm, ToIds(c.sources, ids, v)) == v <==> NotCaptured(c, nm, v)
  {
    var sources := IdForm(c, ids, nm, field).sources;
    if !IsBlank(v.source) {
      var sid := ids.src[v.source.s];
      IdIsPlain(sid, Slots.SOURCE_PREFIX);
      assert sources[sid] == c.sources[v.source.s];
      assert Rename(nm.sources, sid) == v.source.s;
      if c.sources[v.source.s].typ == LOCAL {
        LocalNamesComeBack(c, ids, nm, field, v);
      }
    }
  }

  lemma KeyComesBack(keys: map<string, string>, names: map<string, string>, key: Value)
    requires Inverse(keys, names) && !IsEnvelope(key)
    requires forall id | id in names :: Slots.IsKeyId(id)
    ensures KeyToName(names, KeyToId(keys, key)) == key <==> (IsBlank(key) || key.s in keys || key.s !in names)
  {
    if !IsBlank(key) && key.s in keys {
      IdIsPlain(keys[key.s], Slots.KEY_PREFIX);
    }
  }

  lemma RefComesBack(bags: map<string, string>, names: map<string, string>, ref: Value)
    requires Inverse(bags, names) && !IsEnvelope(ref)
    requires forall id | id in names :: Slots.IsBagId(id)
    ensures (IsBlank(ref) || ref.s !in bags) ==> (RenameValue(names, ref) == ref <==> ref.s !in names)
    ensures !(IsBlank(ref) || ref.s !in bags) ==> RenameValue(names, Text(bags[ref.s])) == ref
  {
  }

  lemma LocalNamesComeBack(c: Config, ids: Ids, nm: NameMap, field: NameMapField, v: Var)
    requires DictionaryOf(c, ids, nm) && WellShaped(nm) && VarIsPlain(v)
    requires IsLocalVar(c, v)
    ensures ToNames(IdForm(c, ids, nm, field).sources, nm, ToIds(c.sources, ids, v)) == v <==> NotCaptured(c, nm, v)
  {
    var sid := ids.src[v.source.s];
    IdIsPlain(sid, Slots.SOURCE_PREFIX);
    var sources := IdForm(c, ids, nm, field).sources;
    assert IsLocalId(sources, Text(sid)) && RenameValue(nm.sources, Text(sid)) == v.source;
    RefComesBack(ids.bag, nm.bags, v.ref);
    if IsBlank(v.ref) || v.ref.s !in ids.bag {
      UnresolvedComesBack(sources, c, ids, nm, v);
    } else {
      ResolvedComesBack(sources, c, ids, nm, v);
    }
  }

  lemma UnresolvedComesBack(sources: map<string, Source>, c: Config, ids: Ids, nm: NameMap, v: Var)
    requires DictionaryOf(c, ids, nm) && VarIsPlain(v) && IsLocalVar(c, v)
    requires var sid := ids.src[v.source.s];
             !IsBlank(Text(sid)) && IsLocalId(sources, Text(sid)) && RenameValue(nm.sources, Text(sid)) == v.source
    requires IsBlank(v.ref) || v.ref.s !in ids.bag
    requires RenameValue(nm.bags, v.ref) == v.ref <==> v.ref.s !in nm.bags
    ensures ToNames(sources, nm, ToIds(c.sources, ids, v)) == v <==> NotCaptured(c, nm, v)
  {
    assert ToIds(c.sources, ids, v) == v.(source := Text(ids.src[v.source.s]));
    if v.ref.s !in nm.bags {
      assert KeyNames(nm, v.ref.s) == map[];
    }
  }

  lemma ResolvedComesBack(sources: map<string, Source>, c: Config, ids: Ids, nm: NameMap, v: Var)
    requires DictionaryOf(c, ids, nm) && WellShaped(nm) && VarIsPlain(v) && IsLocalVar(c, v)
    requires var sid := ids.src[v.source.s];
             !IsBlank(Text(sid)) && IsLocalId(sources, Text(sid)) && RenameValue(nm.sources, Text(sid)) == v.source
    requires !IsBlank(v.ref) && v.ref.s in ids.bag
    ensures ToNames(sources, nm, ToIds(c.sources, ids, v)) == v <==> NotCaptured(c, nm, v)
  {
    var b := ids.bag[v.ref.s];
    var w := ToIds(c.sources, ids, v);
    assert w == v.(source := Text(ids.src[v.source.s]), ref := Text(b), key := KeyToId(ids.key[b], v.key));
    KeyComesBack(ids.key[b], nm.keys[b], v.key);
    assert KeyNames(nm, b) == nm.keys[b] && nm.bags[b] == v.ref.s;
    assert forall b' | b' in nm.bags && nm.bags[b'] == v.ref.s :: b' == b;
    assert ToNames(sources, nm, w) == v <==> KeyToName(nm.keys[b], w.key) == v.key;
  }

  lemma MappingsComeBack(c: Config, ids: Ids, nm: NameMap, field: NameMapField, d: seq<Mapping>)
    requires DictionaryOf(c, ids, nm) && WellShaped(nm) && AllPlain(c) && Validate(c)
    requires |d| == |c.mappings|
    requires var p := IdForm(c, ids, nm, field);
             forall i | 0 <= i < |d| :: MappingNamed(p.sources, nm, p.mappings[i], d[i])
    ensures d == c.mappings <==> NoCapture(c, nm)
  {
    hide DictionaryOf, WellShaped, VarIsPlain, ValidVar, SourceDefined, NotCaptured, ToIds, ToNames;
    DictionaryCovers(c, ids, nm);
    var p := IdForm(c, ids, nm, field);
    forall i, j | 0 <= i < |d| && 0 <= j < |c.mappings[i].vars|
      ensures d[i].vars[j] == c.mappings[i].vars[j] <==> NotCaptured(c, nm, c.mappings[i].vars[j])
    {
      var m, v := c.mappings[i], c.mappings[i].vars[j];
      assert m in c.mappings && v in m.vars && ValidMapping(m);
      assert MappingNamed(p.sources, nm, p.mappings[i], d[i]);
      VarNamesComeBack(c, ids, nm, field, v);
    }
    if NoCapture(c, nm) {
      forall i | 0 <= i < |d| ensures d[i] == c.mappings[i] {
        assert c.mappings[i] in c.mappings;
        assert MappingNamed(p.sources, nm, p.mappings[i], d[i]);
        assert d[i].vars == c.mappings[i].vars;
      }
    }
    if d == c.mappings {
      forall m, v | m in c.mappings && v in m.vars ensures NotCaptured(c, nm, v) {
        var i :| 0 <= i < |d| && c.mappings[i] == m;
        var j :| 0 <= j < |m.vars| && m.vars[j] == v;
        assert d[i].vars[j] == c.mappings[i].vars[j];
      }
    }
  }

  /** The named form of the opened mappings. */
  function NamedMappings(p: Config, nm: NameMap): seq<Mapping> {
    seq(|p.mappings|, i requires 0 <= i < |p.mappings| => p.mappings[i].(vars :=
      seq(|p.mappings[i].vars|, j requires 0 <= j < |p.mappings[i].vars| =>
        ToNames(p.sources, nm, p.mappings[i].vars[j]))))
  }

  // ----- the theorem ----------------------------------------------------------------------------------------------

  /** Loading o succeeds, and whatever it yields has the content of c. */
  ghost predicate LoadsBackAs(key: Key, o: Config, c: Config) {
    && (exists nm, d :: DecryptsTo(key, o, nm, d))
    && forall nm, d | DecryptsTo(key, o, nm, d) :: d == c.(nameMap := o.nameMap)
  }

  lemma FieldOpensToDictionary(key: Key, before: NameMapField, nm: NameMap, after: NameMapField, lo: nat)
    requires NameMapSealed(key, before, nm, after, lo)
    ensures OpenNameMap(key, after) == Ok(nm)
  {
  }

  lemma LoadedConfigIs(key: Key, c: Config, ids: Ids, nm: NameMap, o: Config, lo: nat, d: Config)
    requires EncryptsTo(key, c, ids, nm, o, lo) && WellShaped(nm) && AllPlain(c) && Validate(c)
    requires NamedAs(IdForm(c, ids, nm, o.nameMap), nm, d)
    ensures d == c.(nameMap := o.nameMap) <==> NoCapture(c, nm)
  {
    RekeyedIsInverse(c.sources, ids.src, nm.sources, d.sources);
    SecretsComeBack(c, ids, nm, d.secrets);
    MappingsComeBack(c, ids, nm, o.nameMap, d.mappings);
  }

  /** There is a loaded config, whatever the names. */
  lemma SomeConfigLoads(c: Config, ids: Ids, nm: NameMap, field: NameMapField)
    requires DictionaryOf(c, ids, nm)
    ensures var p := IdForm(c, ids, nm, field);
            NamedAs(p, nm, c.(mappings := NamedMappings(p, nm), nameMap := field))
  {
    var p := IdForm(c, ids, nm, field);
    var d := c.(mappings := NamedMappings(p, nm), nameMap := field);
    RekeyedIsInverse(c.sources, ids.src, nm.sources, c.sources);
    SecretsMayComeBack(c, ids, nm);
    MappingsAreNamed(p, nm);
    assert Rekeyed(p.sources, nm.sources, d.sources) && SecretsRekeyed(p.secrets, nm, d.secrets);
  }

  lemma MappingsAreNamed(p: Config, nm: NameMap)
    ensures forall i | 0 <= i < |p.mappings| :: MappingNamed(p.sources, nm, p.mappings[i], NamedMappings(p, nm)[i])
  {
  }

  lemma EveryLoadIs(key: Key, c: Config, ids: Ids, nm: NameMap, o: Config, lo: nat, nm': NameMap, d: Config)
    requires EncryptsTo(key, c, ids, nm, o, lo) && WellShaped(nm) && AllPlain(c) && Validate(c)
    requires DecryptsTo(key, o, nm', d)
    ensures nm' == nm && (d == c.(nameMap := o.nameMap) <==> NoCapture(c, nm))
  {
    hide OpensTo, NamedAs, AllPlain, Validate, NoCapture, WellShaped, NameMapSealed, SourcesSealed, SecretsSealed;
    hide MappingsSealed;
    FileOpens(key, c, ids, nm, o, lo);
    FieldOpensToDictionary(key, c.nameMap, nm, o.nameMap, lo);
    var q :| OpensTo(key, o, q) && NamedAs(q, nm', d);
    OpensToOne(key, o, IdForm(c, ids, nm, o.nameMap), q);
    LoadedConfigIs(key, c, ids, nm, o, lo, d);
  }

  lemma SomeLoadExists(key: Key, c: Config, ids: Ids, nm: NameMap, o: Config, lo: nat)
    requires EncryptsTo(key, c, ids, nm, o, lo) && WellShaped(nm) && AllPlain(c)
    ensures exists d :: DecryptsTo(key, o, nm, d)
  {
    var p := IdForm(c, ids, nm, o.nameMap);
    FileOpens(key, c, ids, nm, o, lo);
    FieldOpensToDictionary(key, c.nameMap, nm, o.nameMap, lo);
    SomeConfigLoads(c, ids, nm, o.nameMap);
    assert DecryptsTo(key, o, nm, c.(mappings := NamedMappings(p, nm), nameMap := o.nameMap));
  }

  /** For plain configs the round trip holds if and only if no local reference is captured by the dictionary. */
  lemma PlainRoundTrip(key: Key, c: Config, ids: Ids, nm: NameMap, o: Config, lo: nat)
    requires EncryptsTo(key, c, ids, nm, o, lo) && WellShaped(nm) && Validate(c) && AllPlain(c)
    ensures LoadsBackAs(key, o, c) <==> NoCapture(c, nm)
  {
    SomeLoadExists(key, c, ids, nm, o, lo);
    forall nm', d | DecryptsTo(key, o, nm', d) ensures d == c.(nameMap := o.nameMap) <==> NoCapture(c, nm) {
      EveryLoadIs(key, c, ids, nm, o, lo, nm', d);
    }
  }

  // ----- the other half: a plaintext in the form of an envelope ---------------------------------------------------

  predicate VarIsText(v: Var) {
    && v.name.Text? && v.source.Text? && v.ref.Text? && v.key.Text? && v.value.Text?
    && forall k | k in v.extra :: v.extra[k].Text?
  }

  predicate AllText(c: Config) {
    && (forall n | n in c.sources :: forall k | k in c.sources[n].params ::
          c.sources[n].params[k].Str? ==> c.sources[n].params[k].v.Text?)
    && (forall b | b in c.secrets :: forall k | k in c.secrets[b] :: c.secrets[b][k].Text?)
    && (forall m | m in c.mappings :: forall v | v in m.vars :: VarIsText(v))
  }

  lemma OpenedVarIsText(key: Key, i: nat, j: nat, o: Var, p: Var)
    requires VarOpens(key, i, j, o, p)
    ensures VarIsText(p)
  {
    assert forall f: Slots.Field :: FieldOf(p, f).Text?;
    assert FieldOf(p, Slots.Name).Text? && FieldOf(p, Slots.Source).Text? && FieldOf(p, Slots.Ref).Text?;
    assert FieldOf(p, Slots.Key).Text? && FieldOf(p, Slots.Value).Text?;
  }

  lemma LoadedParamIsText(key: Key, o: map<string, Source>, p: map<string, Source>, names: map<string, string>,
                          d: map<string, Source>, n: string, k: string)
    requires p.Keys == o.Keys && forall id | id in o :: SourceOpens(key, id, o[id], p[id])
    requires Rekeyed(p, names, d) && n in d && k in d[n].params
    ensures d[n].params[k].Str? ==> d[n].params[k].v.Text?
  {
    var id :| id in p && Rename(names, id) == n && d[n] == p[id];
    assert SourceOpens(key, id, o[id], p[id]);
    assert ParamOpens(key, id, k, o[id].params[k], p[id].params[k]);
  }

  lemma OpenedBagIsText(key: Key, b: string, o: map<string, Value>, p: map<string, Value>, names: map<string, string>,
                        d: map<string, Value>)
    requires BagOpens(key, b, o, p) && Rekeyed(p, names, d)
    ensures forall k | k in d :: d[k].Text?
  {
  }

  lemma LoadedBagIsText(key: Key, o: map<string, map<string, Value>>, p: map<string, map<string, Value>>, nm: NameMap,
                        d: map<string, map<string, Value>>, n: string)
    requires p.Keys == o.Keys && forall b | b in o :: BagOpens(key, b, o[b], p[b])
    requires exists b :: b in p && Rename(nm.bags, b) == n && n in d && Rekeyed(p[b], KeyNames(nm, b), d[n])
    ensures forall k | k in d[n] :: d[n][k].Text?
  {
    var b :| b in p && Rename(nm.bags, b) == n && Rekeyed(p[b], KeyNames(nm, b), d[n]);
    OpenedBagIsText(key, b, o[b], p[b], KeyNames(nm, b), d[n]);
  }

  lemma LoadedVarIsText(key: Key, i: nat, o: Mapping, p: Mapping, sources: map<string, Source>, nm: NameMap,
                        d: Mapping, v: Var)
    requires MappingOpens(key, i, o, p) && MappingNamed(sources, nm, p, d) && v in d.vars
    ensures VarIsText(v)
  {
    var j :| 0 <= j < |d.vars| && d.vars[j] == v;
    OpenedVarIsText(key, i, j, o.vars[j], p.vars[j]);
  }

  /** What a load yields holds no envelope value. */
  lemma LoadedIsText(key: Key, o: Config, p: Config, nm: NameMap, d: Config)
    requires OpensTo(key, o, p) && NamedAs(p, nm, d)
    ensures AllText(d)
  {
    forall n, k | n in d.sources && k in d.sources[n].params
      ensures d.sources[n].params[k].Str? ==> d.sources[n].params[k].v.Text?
    {
      LoadedParamIsText(key, o.sources, p.sources, nm.sources, d.sources, n, k);
    }
    forall n | n in d.secrets ensures forall k | k in d.secrets[n] :: d.secrets[n][k].Text? {
      LoadedBagIsText(key, o.secrets, p.secrets, nm, d.secrets, n);
    }
    forall m, v | m in d.mappings && v in m.vars ensures VarIsText(v) {
      var i :| 0 <= i < |d.mappings| && d.mappings[i] == m;
      LoadedVarIsText(key, i, o.mappings[i], p.mappings[i], p.sources, nm, m, v);
    }
  }

  lemma GarbageSlotFails(key: Key, ad: Result<string, Failure>, v: Value, o: Value, lo: nat)
    requires v.Text? && SealedAs(key, ad, v, o, lo) && Open(key, o, ad).Ok?
    ensures !IsEnvelope(v)
  {
  }

  lemma ToIdsKeepsEnvelopes(sources: map<string, Source>, ids: Ids, v: Var, f: Slots.Field)
    ensures IsEnvelope(FieldOf(v, f)) ==> FieldOf(ToIds(sources, ids, v), f) == FieldOf(v, f)
    ensures FieldOf(v, f).Text? ==> FieldOf(ToIds(sources, ids, v), f).Text?
  {
  }

  lemma GarbageFieldFails(key: Key, i: nat, j: nat, sources: map<string, Source>, ids: Ids, v: Var, o: Var, p: Var,
                          lo: nat, f: Slots.Field)
    requires VarSealed(key, i, j, ToIds(sources, ids, v), o, lo) && VarOpens(key, i, j, o, p)
    requires FieldOf(v, f).Text?
    ensures !IsEnvelope(FieldOf(v, f))
  {
    var w := ToIds(sources, ids, v);
    ToIdsKeepsEnvelopes(sources, ids, v, f);
    assert Open(key, FieldOf(o, f), Slots.VarFieldAad(i, j, f)).Ok?;
    GarbageSlotFails(key, Slots.VarFieldAad(i, j, f), FieldOf(w, f), FieldOf(o, f), lo);
  }

  lemma GarbageVarFails(key: Key, i: nat, j: nat, sources: map<string, Source>, ids: Ids, v: Var, o: Var, p: Var,
                        lo: nat)
    requires VarSealed(key, i, j, ToIds(sources, ids, v), o, lo) && VarOpens(key, i, j, o, p)
    requires VarIsText(v)
    ensures VarIsPlain(v)
  {
    GarbageFieldFails(key, i, j, sources, ids, v, o, p, lo, Slots.Name);
    GarbageFieldFails(key, i, j, sources, ids, v, o, p, lo, Slots.Source);
    GarbageFieldFails(key, i, j, sources, ids, v, o, p, lo, Slots.Ref);
    GarbageFieldFails(key, i, j, sources, ids, v, o, p, lo, Slots.Key);
    GarbageFieldFails(key, i, j, sources, ids, v, o, p, lo, Slots.Value);
    forall k | k in v.extra ensures !IsEnvelope(v.extra[k]) {
      GarbageSlotFails(key, Slots.VarExtraAad(i, j, k), v.extra[k], o.extra[k], lo);
    }
  }

  lemma GarbageParamFails(key: Key, id: string, k: string, v: ParamValue, o: ParamValue, p: ParamValue, lo: nat)
    requires ParamSealed(key, id, k, v, o, lo) && ParamOpens(key, id, k, o, p)
    requires v.Str? ==> v.v.Text?
    ensures ParamIsPlain(v)
  {
  }

  lemma OpenedParamIsPlain(key: Key, c: Config, ids: Ids, nm: NameMap, o: Config, lo: nat, p: Config, n: string,
                           k: string)
    requires EncryptsTo(key, c, ids, nm, o, lo) && OpensTo(key, o, p)
    requires n in c.sources && k in c.sources[n].params
    requires c.sources[n].params[k].Str? ==> c.sources[n].params[k].v.Text?
    ensures ParamIsPlain(c.sources[n].params[k])
  {
    hide SecretsSealed, MappingsSealed, NameMapSealed;
    var id := ids.src[n];
    assert SourceOpens(key, id, o.sources[id], p.sources[id]);
    GarbageParamFails(key, id, k, c.sources[n].params[k], o.sources[id].params[k], p.sources[id].params[k], lo);
  }

  lemma OpenedSecretIsPlain(key: Key, c: Config, ids: Ids, nm: NameMap, o: Config, lo: nat, p: Config, n: string,
                            k: string)
    requires EncryptsTo(key, c, ids, nm, o, lo) && OpensTo(key, o, p)
    requires n in c.secrets && k in c.secrets[n] && c.secrets[n][k].Text?
    ensures !IsEnvelope(c.secrets[n][k])
  {
    hide SourcesSealed, MappingsSealed, NameMapSealed, SealedAs, IsEnvelope;
    var b := ids.bag[n];
    var kid := ids.key[b][k];
    assert BagSealed(key, b, nm.keys[b], c.secrets[n], o.secrets[b], lo);
    assert BagOpens(key, b, o.secrets[b], p.secrets[b]);
    GarbageSlotFails(key, Slots.SecretAad(b, kid), c.secrets[n][k], o.secrets[b][kid], lo);
  }

  lemma OpenedVarIsPlain(key: Key, c: Config, ids: Ids, nm: NameMap, o: Config, lo: nat, p: Config, i: nat, j: nat)
    requires EncryptsTo(key, c, ids, nm, o, lo) && OpensTo(key, o, p)
    requires i < |c.mappings| && j < |c.mappings[i].vars| && VarIsText(c.mappings[i].vars[j])
    ensures VarIsPlain(c.mappings[i].vars[j])
  {
    hide SourcesSealed, SecretsSealed, NameMapSealed, VarSealed, VarOpens, VarIsText, VarIsPlain, ToIds;
    assert MappingSealed(key, c.sources, ids, i, c.mappings[i], o.mappings[i], lo);
    assert MappingOpens(key, i, o.mappings[i], p.mappings[i]);
    GarbageVarFails(key, i, j, c.sources, ids, c.mappings[i].vars[j], o.mappings[i].vars[j], p.mappings[i].vars[j], lo);
  }

  /** Text that merely looks like an envelope is written as it is, and then does not open. */
  lemma OpenedTextIsPlain(key: Key, c: Config, ids: Ids, nm: NameMap, o: Config, lo: nat, p: Config)
    requires EncryptsTo(key, c, ids, nm, o, lo) && OpensTo(key, o, p)
    requires AllText(c)
    ensures AllPlain(c)
  {
    hide EncryptsTo, OpensTo, VarIsText, VarIsPlain, IsEnvelope, ParamIsPlain;
    forall n, k | n in c.sources && k in c.sources[n].params ensures ParamIsPlain(c.sources[n].params[k]) {
      OpenedParamIsPlain(key, c, ids, nm, o, lo, p, n, k);
    }
    forall n, k | n in c.secrets && k in c.secrets[n] ensures !IsEnvelope(c.secrets[n][k]) {
      OpenedSecretIsPlain(key, c, ids, nm, o, lo, p, n, k);
    }
    forall m, v | m in c.mappings && v in m.vars ensures VarIsPlain(v) {
      var i :| 0 <= i < |c.mappings| && c.mappings[i] == m;
      var j :| 0 <= j < |m.vars| && m.vars[j] == v;
      OpenedVarIsPlain(key, c, ids, nm, o, lo, p, i, j);
    }
  }

  lemma TextIgnoresDictionary(c: Config, field: NameMapField)
    ensures AllText(c.(nameMap := field)) ==> AllText(c)
  {
  }

  lemma EnvelopeBreaksRoundTrip(key: Key, c: Config, ids: Ids, nm: NameMap, o: Config, lo: nat, nm': NameMap, d: Config)
    requires EncryptsTo(key, c, ids, nm, o, lo)
    requires DecryptsTo(key, o, nm', d) && d == c.(nameMap := o.nameMap)
    ensures AllPlain(c)
  {
    hide EncryptsTo, OpensTo, NamedAs, AllText, AllPlain;
    var p :| OpensTo(key, o, p) && NamedAs(p, nm', d);
    LoadedIsText(key, o, p, nm', d);
    TextIgnoresDictionary(c, o.nameMap);
    OpenedTextIsPlain(key, c, ids, nm, o, lo, p);
  }

  /** The round trip of a validated config, for every dictionary, map order, ID and nonce: a save loads back as the
      config that was saved if and only if no plaintext has the form of an envelope and no unresolved local reference
      is an ID of the dictionary. */
  lemma RoundTripExactly(key: Key, c: Config, ids: Ids, nm: NameMap, o: Config, lo: nat)
    requires EncryptsTo(key, c, ids, nm, o, lo) && WellShaped(nm) && Validate(c)
    ensures LoadsBackAs(key, o, c) <==> AllPlain(c) && NoCapture(c, nm)
  {
    if AllPlain(c) {
      PlainRoundTrip(key, c, ids, nm, o, lo);
    } else if LoadsBackAs(key, o, c) {
      var nm', d :| DecryptsTo(key, o, nm', d);
      EnvelopeBreaksRoundTrip(key, c, ids, nm, o, lo, nm', d);
    }
  }
}
