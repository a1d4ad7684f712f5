/** A load followed by a save without edits: the dictionary and its envelope stay as they are, and the whole file does
    exactly when it seals no value (internal/config/encrypt.go:237-247). */
module Resave {
  import opened Wrappers
  import opened Envelope
  import opened ConfigModel
  import opened EncryptSpec
  import opened Encrypt
  import opened RoundTrip
  import opened Identity
  import Slots

  // ----- the dictionary -------------------------------------------------------------------------------------------

  /** The names after loading a rekeyed map are the dictionary's. */
  lemma RekeyedNames<V(!new)>(src: map<string, V>, ids: map<string, string>, names: map<string, string>,
                              dst: map<string, V>)
    requires src.Keys == names.Keys && Inverse(ids, names) && Rekeyed(src, names, dst)
    ensures dst.Keys == ids.Keys
  {
    forall n | n in ids ensures n in dst {
      assert Rename(names, ids[n]) == n;
    }
    forall n | n in dst ensures n in ids {
      var id :| id in src && Rename(names, id) == n;
    }
  }

  lemma LoadedBagNames(c: Config, ids: Ids, nm: NameMap, p: map<string, map<string, Value>>,
                       d: map<string, map<string, Value>>)
    requires DictionaryOf(c, ids, nm) && SecretsRekeyed(p, nm, d)
    requires p.Keys == nm.bags.Keys && forall b | b in p :: p[b].Keys == nm.keys[b].Keys
    ensures d.Keys == c.secrets.Keys && forall n | n in d :: d[n].Keys == c.secrets[n].Keys
  {
    hide Rekeyed;
    forall n | n in c.secrets ensures n in d {
      assert ids.bag[n] in p && Rename(nm.bags, ids.bag[n]) == n;
    }
    forall n | n in d ensures n in c.secrets && d[n].Keys == c.secrets[n].Keys {
      var b :| b in p && Rename(nm.bags, b) == n && Rekeyed(p[b], KeyNames(nm, b), d[n]);
      RekeyedNames(p[b], ids.key[b], nm.keys[b], d[n]);
    }
  }

  /** p has the map keys that the dictionary has IDs. */
  ghost predicate KeyedBy(nm: NameMap, p: Config) {
    && p.sources.Keys == nm.sources.Keys && p.secrets.Keys == nm.bags.Keys
    && forall b | b in nm.bags :: b in nm.keys && p.secrets[b].Keys == nm.keys[b].Keys
  }

  lemma SavedIsKeyed(key: Key, c: Config, ids: Ids, nm: NameMap, o: Config, lo: nat)
    requires EncryptsTo(key, c, ids, nm, o, lo)
    ensures KeyedBy(nm, o)
  {
    hide Inverse, ParamsSealed, MappingsSealed, NameMapSealed;
    EveryBagHasKeys(c, ids, nm);
    forall b | b in nm.bags ensures o.secrets[b].Keys == nm.keys[b].Keys {
      assert BagSealed(key, b, nm.keys[b], c.secrets[nm.bags[b]], o.secrets[b], lo);
    }
  }

  lemma OpenedIsKeyed(key: Key, nm: NameMap, o: Config, p: Config)
    requires KeyedBy(nm, o) && OpensTo(key, o, p)
    ensures KeyedBy(nm, p)
  {
    hide SourceOpens, MappingOpens;
    forall b | b in nm.bags ensures p.secrets[b].Keys == nm.keys[b].Keys {
      assert BagOpens(key, b, o.secrets[b], p.secrets[b]);
    }
  }

  lemma NamedHasDictionary(c: Config, ids: Ids, nm: NameMap, p: Config, d: Config)
    requires DictionaryOf(c, ids, nm) && KeyedBy(nm, p) && NamedAs(p, nm, d)
    ensures DictionaryOf(d, ids, nm)
  {
    hide Inverse, Rekeyed, SecretsRekeyed, MappingNamed;
    EveryBagHasKeys(c, ids, nm);
    RekeyedNames(p.sources, ids.src, nm.sources, d.sources);
    LoadedBagNames(c, ids, nm, p.secrets, d.secrets);
  }

  /** Whatever a load of a saved file yields, it has the dictionary of the config that was saved. */
  lemma LoadKeepsDictionary(key: Key, c: Config, ids: Ids, nm: NameMap, o: Config, lo: nat, prev: NameMap, d: Config)
    requires EncryptsTo(key, c, ids, nm, o, lo) && DecryptsTo(key, o, prev, d)
    ensures prev == nm && DictionaryOf(d, ids, nm) && d.nameMap == o.nameMap && o.nameMap.SealedNames?
  {
    hide OpensTo, KeyedBy, DictionaryOf, SourcesSealed, SecretsSealed, MappingsSealed;
    FieldOpensToDictionary(key, c.nameMap, nm, o.nameMap, lo);
    var p :| OpensTo(key, o, p) && NamedAs(p, nm, d);
    SavedIsKeyed(key, c, ids, nm, o, lo);
    OpenedIsKeyed(key, nm, o, p);
    NamedHasDictionary(c, ids, nm, p, d);
    assert p.nameMap == o.nameMap by { OpenedField(key, o, p); }
  }

  lemma OpenedField(key: Key, o: Config, p: Config)
    requires OpensTo(key, o, p)
    ensures p.nameMap == o.nameMap
  {
  }

  /** Save, load, save: with no side condition on the config the second save gives every name the ID it had and leaves
      the name_map field as it is, byte for byte. */
  lemma CycleKeepsDictionary(key: Key, c: Config, ids0: Ids, nm0: NameMap, o0: Config, lo0: nat, prev: NameMap,
                             d: Config, ids: Ids, nm: NameMap, o: Config, lo: nat)
    requires EncryptsTo(key, c, ids0, nm0, o0, lo0) && DecryptsTo(key, o0, prev, d)
    requires EncryptsTo(key, d, ids, nm, o, lo) && StableIds(prev, ids)
    ensures ids == ids0 && nm == nm0 && o.nameMap == o0.nameMap
  {
    hide DictionaryOf, EncryptsTo, DecryptsTo, StableIds;
    LoadKeepsDictionary(key, c, ids0, nm0, o0, lo0, prev, d);
    assert OpenNameMap(key, o0.nameMap) == Ok(prev) by { OpenedBy(key, o0, prev, d); }
    NoEditsNoReseal(key, d, prev, ids0, ids, nm, o, lo);
  }

  lemma OpenedBy(key: Key, o: Config, prev: NameMap, d: Config)
    requires DecryptsTo(key, o, prev, d)
    ensures OpenNameMap(key, o.nameMap) == Ok(prev)
  {
  }

  // ----- the values -----------------------------------------------------------------------------------------------

  /** The sources and bags come back whether or not a reference is captured, and so does the number of mappings. */
  lemma LoadedValuesAre(key: Key, c: Config, ids: Ids, nm: NameMap, o: Config, lo: nat, d: Config)
    requires EncryptsTo(key, c, ids, nm, o, lo) && WellShaped(nm) && AllPlain(c)
    requires DecryptsTo(key, o, nm, d)
    ensures NamedAs(IdForm(c, ids, nm, o.nameMap), nm, d)
    ensures d.sources == c.sources && d.secrets == c.secrets && |d.mappings| == |c.mappings|
  {
    hide OpensTo, AllPlain, WellShaped, NameMapSealed, SourcesSealed, SecretsSealed, MappingsSealed;
    hide Rekeyed, SecretsRekeyed, MappingNamed;
    FileOpens(key, c, ids, nm, o, lo);
    var q :| OpensTo(key, o, q) && NamedAs(q, nm, d);
    OpensToOne(key, o, IdForm(c, ids, nm, o.nameMap), q);
    RekeyedIsInverse(c.sources, ids.src, nm.sources, d.sources);
    SecretsComeBack(c, ids, nm, d.secrets);
  }

  /** c has no string for a save to seal: no mapping, since a valid one has a var that is not empty, and only blank
      strings elsewhere. */
  predicate NothingToSeal(c: Config) {
    && c.mappings == []
    && (forall n | n in c.sources :: ParamsAreBlank(c.sources[n].params))
    && (forall n | n in c.secrets :: BagIsBlank(c.secrets[n]))
  }

  predicate ParamsAreBlank(p: map<string, ParamValue>) {
    forall k | k in p :: p[k].Str? ==> IsBlank(p[k].v)
  }

  predicate BagIsBlank(kv: map<string, Value>) {
    forall k | k in kv :: IsBlank(kv[k])
  }

  lemma BlankParamsStay(key: Key, id: string, p: map<string, ParamValue>, o: map<string, ParamValue>, lo: nat)
    requires ParamsSealed(key, id, p, o, lo) && ParamsAreBlank(p)
    ensures o == p
  {
    forall k | k in p ensures o[k] == p[k] {
      assert ParamSealed(key, id, k, p[k], o[k], lo);
    }
  }

  lemma BlankSourcesStay(key: Key, c: Config, ids: Ids, nm: NameMap, o: map<string, Source>, lo: nat)
    requires DictionaryOf(c, ids, nm) && SourcesSealed(key, c, nm, o, lo)
    requires forall n | n in c.sources :: ParamsAreBlank(c.sources[n].params)
    ensures o == map id | id in nm.sources :: c.sources[nm.sources[id]]
  {
    hide ParamsSealed, ParamsAreBlank;
    forall id | id in nm.sources ensures o[id] == c.sources[nm.sources[id]] {
      BlankParamsStay(key, id, c.sources[nm.sources[id]].params, o[id].params, lo);
    }
  }

  lemma BlankBagStays(key: Key, b: string, names: map<string, string>, kv: map<string, Value>, o: map<string, Value>,
                      lo: nat)
    requires forall k | k in names :: names[k] in kv
    requires BagSealed(key, b, names, kv, o, lo) && BagIsBlank(kv)
    ensures o == map k | k in names :: kv[names[k]]
  {
  }

  lemma BlankSecretsStay(key: Key, c: Config, ids: Ids, nm: NameMap, o: map<string, map<string, Value>>, lo: nat)
    requires DictionaryOf(c, ids, nm) && SecretsSealed(key, c, nm, o, lo)
    requires forall n | n in c.secrets :: BagIsBlank(c.secrets[n])
    ensures o == IdSecrets(c, nm)
  {
    hide Inverse, BagSealed, BagIsBlank;
    EveryBagHasKeys(c, ids, nm);
    forall b | b in nm.bags ensures o[b] == IdSecrets(c, nm)[b] {
      BlankBagStays(key, b, nm.keys[b], c.secrets[nm.bags[b]], o[b], lo);
    }
  }

  /** Two saves of values of which there is none to seal write the same. */
  lemma NothingSealedTwice(key: Key, c: Config, d: Config, ids: Ids, nm: NameMap, o0: Config, lo0: nat, o: Config,
                            lo: nat)
    requires EncryptsTo(key, c, ids, nm, o0, lo0) && EncryptsTo(key, d, ids, nm, o, lo)
    requires d == c.(nameMap := d.nameMap) && o.nameMap == o0.nameMap && NothingToSeal(c)
    ensures o == o0
  {
    hide DictionaryOf, SourcesSealed, SecretsSealed, ParamsAreBlank, BagIsBlank, NameMapSealed;
    EveryBagHasKeys(c, ids, nm);
    EveryBagHasKeys(d, ids, nm);
    BlankSourcesStay(key, c, ids, nm, o0.sources, lo0);
    BlankSourcesStay(key, d, ids, nm, o.sources, lo);
    BlankSecretsStay(key, c, ids, nm, o0.secrets, lo0);
    BlankSecretsStay(key, d, ids, nm, o.secrets, lo);
  }

  /** The save seals something with a nonce drawn at or after lo. */
  ghost predicate SealsAfter(o: Config, lo: nat) {
    exists s :: SlotSeal(o, s).Some? && SlotSeal(o, s).value.nonce >= lo
  }

  lemma SealedIsNew(key: Key, ad: Result<string, Failure>, plain: Value, out: Value, lo: nat)
    requires SealedAs(key, ad, plain, out, lo) && !IsSkipped(plain)
    ensures out.Sealed? && out.nonce >= lo
  {
  }

  lemma ParamIsNew(key: Key, d: Config, ids: Ids, nm: NameMap, o: Config, lo: nat, n: string, k: string)
    requires EncryptsTo(key, d, ids, nm, o, lo)
    requires n in d.sources && k in d.sources[n].params && d.sources[n].params[k].Str?
    requires !IsSkipped(d.sources[n].params[k].v)
    ensures SealsAfter(o, lo)
  {
    hide SecretsSealed, MappingsSealed, NameMapSealed, IsSkipped;
    var id := ids.src[n];
    assert ParamsSealed(key, id, d.sources[n].params, o.sources[id].params, lo);
    assert ParamSealed(key, id, k, d.sources[n].params[k], o.sources[id].params[k], lo);
    assert SlotSeal(o, Slots.SourceParam(id, k)).Some?;
  }

  lemma SealedSecretIsNew(key: Key, b: string, names: map<string, string>, kv: map<string, Value>, o: Config, lo: nat,
                          kid: string)
    requires forall k | k in names :: names[k] in kv
    requires b in o.secrets && BagSealed(key, b, names, kv, o.secrets[b], lo)
    requires kid in names && !IsSkipped(kv[names[kid]])
    ensures SealsAfter(o, lo)
  {
    hide SealedAs, IsSkipped;
    SealedIsNew(key, Slots.SecretAad(b, kid), kv[names[kid]], o.secrets[b][kid], lo);
    assert SlotSeal(o, Slots.Secret(b, kid)).Some?;
  }

  lemma SecretIsNew(key: Key, d: Config, ids: Ids, nm: NameMap, o: Config, lo: nat, n: string, k: string)
    requires EncryptsTo(key, d, ids, nm, o, lo)
    requires n in d.secrets && k in d.secrets[n] && !IsSkipped(d.secrets[n][k])
    ensures SealsAfter(o, lo)
  {
    hide SourcesSealed, MappingsSealed, NameMapSealed, IsSkipped, BagSealed, SealsAfter;
    EveryBagHasKeys(d, ids, nm);
    var b := ids.bag[n];
    var kid := ids.key[b][k];
    assert nm.bags[b] == n && nm.keys[b][kid] == k;
    assert BagSealed(key, b, nm.keys[b], d.secrets[n], o.secrets[b], lo);
    SealedSecretIsNew(key, b, nm.keys[b], d.secrets[n], o, lo, kid);
  }

  lemma ValueStays(sources: map<string, Source>, byId: map<string, Source>, ids: Ids, nm: NameMap, v: Var)
    ensures ToIds(sources, ids, v).value == v.value && ToNames(byId, nm, v).value == v.value
  {
  }

  lemma SourceStays(sources: map<string, Source>, byId: map<string, Source>, ids: Ids, nm: NameMap, v: Var)
    requires !IsSkipped(v.source) && v.source.s in ids.src && Inverse(ids.src, nm.sources)
    requires !IsBlank(Text(ids.src[v.source.s]))
    ensures var w := ToIds(sources, ids, v);
            w.source == Text(ids.src[v.source.s]) && ToNames(byId, nm, w).source == v.source
  {
  }

  /** A var's literal value or source is in the file again, whatever became of its other references. */
  lemma VarFieldStays(c: Config, ids: Ids, nm: NameMap, byId: map<string, Source>, v: Var) returns (f: Slots.Field)
    requires DictionaryOf(c, ids, nm) && WellShaped(nm) && VarIsPlain(v) && ValidVar(v) && SourceDefined(c, v)
    ensures !IsSkipped(FieldOf(ToIds(c.sources, ids, ToNames(byId, nm, ToIds(c.sources, ids, v))), f))
  {
    hide ToIds, ToNames;
    var w := ToIds(c.sources, ids, v);
    var n := ToNames(byId, nm, w);
    if IsBlank(v.value) {
      IdIsPlain(ids.src[v.source.s], Slots.SOURCE_PREFIX);
      SourceStays(c.sources, byId, ids, nm, v);
      SourceStays(c.sources, byId, ids, nm, n);
      f := Slots.Source;
    } else {
      ValueStays(c.sources, byId, ids, nm, v);
      ValueStays(c.sources, byId, ids, nm, w);
      ValueStays(c.sources, byId, ids, nm, n);
      f := Slots.Value;
    }
  }

  lemma MappingIsNew(key: Key, c: Config, d: Config, ids: Ids, nm: NameMap, o: Config, lo: nat, field: NameMapField)
    requires DictionaryOf(c, ids, nm) && WellShaped(nm) && AllPlain(c) && Validate(c) && c.mappings != []
    requires NamedAs(IdForm(c, ids, nm, field), nm, d) && d.sources == c.sources
    requires EncryptsTo(key, d, ids, nm, o, lo)
    ensures SealsAfter(o, lo)
  {
    hide DictionaryOf, WellShaped, SourcesSealed, SecretsSealed, NameMapSealed, ValidVar, SourceDefined, VarIsPlain;
    hide IsSkipped, ToIds, ToNames, Rekeyed, SecretsRekeyed;
    EveryBagHasKeys(c, ids, nm);
    SourceIds(c, ids, nm);
    var m := c.mappings[0];
    assert m in c.mappings && ValidMapping(m);
    var v := m.vars[0];
    assert v in m.vars;
    var p := IdForm(c, ids, nm, field);
    assert MappingNamed(p.sources, nm, p.mappings[0], d.mappings[0]);
    assert MappingSealed(key, d.sources, ids, 0, d.mappings[0], o.mappings[0], lo);
    assert d.mappings[0].vars[0] == ToNames(p.sources, nm, ToIds(c.sources, ids, v));
    var f := VarFieldStays(c, ids, nm, p.sources, v);
    VarFieldIsNew(key, 0, 0, ToIds(d.sources, ids, d.mappings[0].vars[0]), o, lo, f);
  }

  lemma VarFieldIsNew(key: Key, i: nat, j: nat, w: Var, o: Config, lo: nat, f: Slots.Field)
    requires i < |o.mappings| && j < |o.mappings[i].vars| && VarSealed(key, i, j, w, o.mappings[i].vars[j], lo)
    requires !IsSkipped(FieldOf(w, f))
    ensures SealsAfter(o, lo)
  {
    hide IsSkipped;
    assert SlotSeal(o, Slots.VarField(i, j, f)).Some?;
  }

  /** Save, load, save, the second time with nonces that were not drawn before: the two files are equal if and only if
      the config has nothing to seal. With anything sealed, a save without edits changes the file. */
  lemma ResavedFileIsSameExactly(key: Key, c: Config, ids0: Ids, nm0: NameMap, o0: Config, lo0: nat, prev: NameMap,
                                 d: Config, ids: Ids, nm: NameMap, o: Config, lo: nat)
    requires EncryptsTo(key, c, ids0, nm0, o0, lo0) && DecryptsTo(key, o0, prev, d)
    requires EncryptsTo(key, d, ids, nm, o, lo) && StableIds(prev, ids)
    requires WellShaped(nm0) && AllText(c) && Validate(c) && !SealsAfter(o0, lo)
    ensures o == o0 <==> NothingToSeal(c)
  {
    hide EncryptsTo, DecryptsTo, StableIds, WellShaped, AllPlain, AllText, Validate, SealsAfter, NoCapture;
    LoadedTextIsPlain(key, c, ids0, nm0, o0, lo0, prev, d);
    CycleKeepsDictionary(key, c, ids0, nm0, o0, lo0, prev, d, ids, nm, o, lo);
    LoadKeepsDictionary(key, c, ids0, nm0, o0, lo0, prev, d);
    if NothingToSeal(c) {
      NoVarIsCaptured(c, nm);
      EveryLoadIs(key, c, ids, nm, o0, lo0, prev, d);
      NothingSealedTwice(key, c, d, ids, nm, o0, lo0, o, lo);
    } else {
      SomethingIsNew(key, c, ids, nm, o0, lo0, d, o, lo);
    }
  }

  /** Text that looks like an envelope does not load. */
  lemma LoadedTextIsPlain(key: Key, c: Config, ids: Ids, nm: NameMap, o: Config, lo: nat, prev: NameMap, d: Config)
    requires EncryptsTo(key, c, ids, nm, o, lo) && DecryptsTo(key, o, prev, d) && AllText(c)
    ensures AllPlain(c)
  {
    hide EncryptsTo, OpensTo, NamedAs, AllText, AllPlain;
    var p :| OpensTo(key, o, p) && NamedAs(p, prev, d);
    OpenedTextIsPlain(key, c, ids, nm, o, lo, p);
  }

  lemma NoVarIsCaptured(c: Config, nm: NameMap)
    requires c.mappings == []
    ensures NoCapture(c, nm)
  {
  }

  lemma DictionaryOfSave(key: Key, c: Config, ids: Ids, nm: NameMap, o: Config, lo: nat)
    requires EncryptsTo(key, c, ids, nm, o, lo)
    ensures DictionaryOf(c, ids, nm)
  {
  }

  lemma SomethingIsNew(key: Key, c: Config, ids: Ids, nm: NameMap, o0: Config, lo0: nat, d: Config, o: Config, lo: nat)
    requires EncryptsTo(key, c, ids, nm, o0, lo0) && DecryptsTo(key, o0, nm, d) && EncryptsTo(key, d, ids, nm, o, lo)
    requires WellShaped(nm) && AllPlain(c) && Validate(c) && !NothingToSeal(c)
    ensures SealsAfter(o, lo)
  {
    hide EncryptsTo, DecryptsTo, WellShaped, Validate, SealsAfter, DictionaryOf, NamedAs;
    DictionaryOfSave(key, c, ids, nm, o0, lo0);
    EveryBagHasKeys(c, ids, nm);
    SourceIds(c, ids, nm);
    LoadedValuesAre(key, c, ids, nm, o0, lo0, d);
    if c.mappings != [] {
      MappingIsNew(key, c, d, ids, nm, o, lo, o0.nameMap);
    } else if n :| n in c.sources && !ParamsAreBlank(c.sources[n].params) {
      var k :| k in c.sources[n].params && c.sources[n].params[k].Str? && !IsBlank(c.sources[n].params[k].v);
      assert ParamIsPlain(c.sources[n].params[k]);
      ParamIsNew(key, d, ids, nm, o, lo, n, k);
    } else {
      var n :| n in c.secrets && !BagIsBlank(c.secrets[n]);
      var k :| k in c.secrets[n] && !IsBlank(c.secrets[n][k]);
      SecretIsNew(key, d, ids, nm, o, lo, n, k);
    }
  }
}
