/** What a saved file gives away: no string of the config stands in it in clear, and every sealed one is exactly the
    string it should be, under the ID of what it refers to (internal/config/encrypt.go:153-235, 291-328). */
module Secrecy {
  import opened Wrappers
  import opened Envelope
  import opened ConfigModel
  import opened EncryptSpec
  import opened Encrypt
  import opened RoundTrip
  import opened Identity
  import Slots

  /** Nothing readable: the empty string, an envelope, or a string that was in the form of one already. */
  predicate Unreadable(v: Value) {
    v.Sealed? || v.SealedV1? || v.s == "" || "enc:v2:" <= v.s || "enc:v1:" <= v.s
  }

  /** out is what the file should hold in slot s for this text: unreadable text as it is, any other sealed under the key
      and the name of the slot, with a nonce drawn at or after lo. */
  predicate IsSealOf(key: Key, s: Slots.Slot, text: Value, out: Value, lo: nat) {
    if Unreadable(text) then out == text
    else out.Sealed? && out.key == key && out.ad == Slots.SlotName(s) && out.nonce >= lo && Text(out.body) == text
  }

  lemma SealedIsSealOf(key: Key, s: Slots.Slot, text: Value, out: Value, lo: nat)
    requires SealedAs(key, Slots.SlotAad(s), text, out, lo)
    ensures IsSealOf(key, s, text, out, lo)
  {
    if !IsSkipped(text) {
      Slots.SlotAadIsSlotName(s);
    }
  }

  // ----- every slot -----------------------------------------------------------------------------------------------

  /** A parameter of the file is that parameter of the source with the ID, sealed; other TOML values stay. */
  lemma SavedParam(key: Key, c: Config, ids: Ids, nm: NameMap, o: Config, lo: nat, id: string, k: string)
    requires EncryptsTo(key, c, ids, nm, o, lo) && id in o.sources && k in o.sources[id].params
    ensures id in nm.sources && nm.sources[id] in c.sources && k in c.sources[nm.sources[id]].params
    ensures var p, q := c.sources[nm.sources[id]].params[k], o.sources[id].params[k];
            if p.Str? then q.Str? && IsSealOf(key, Slots.SourceParam(id, k), p.v, q.v, lo) else q == p
  {
    hide SecretsSealed, MappingsSealed, NameMapSealed, SealedAs, IsSealOf;
    var p, q := c.sources[nm.sources[id]].params[k], o.sources[id].params[k];
    assert ParamSealed(key, id, k, p, q, lo);
    if p.Str? {
      SealedIsSealOf(key, Slots.SourceParam(id, k), p.v, q.v, lo);
    }
  }

  /** A value of the file is that key of the bag with the ID, sealed. */
  lemma SavedSecret(key: Key, c: Config, ids: Ids, nm: NameMap, o: Config, lo: nat, b: string, k: string)
    requires EncryptsTo(key, c, ids, nm, o, lo) && b in o.secrets && k in o.secrets[b]
    ensures b in nm.bags && nm.bags[b] in c.secrets && b in nm.keys && k in nm.keys[b]
    ensures nm.keys[b][k] in c.secrets[nm.bags[b]]
    ensures IsSealOf(key, Slots.Secret(b, k), c.secrets[nm.bags[b]][nm.keys[b][k]], o.secrets[b][k], lo)
  {
    hide SourcesSealed, MappingsSealed, NameMapSealed, SealedAs, IsSealOf;
    EveryBagHasKeys(c, ids, nm);
    assert BagSealed(key, b, nm.keys[b], c.secrets[nm.bags[b]], o.secrets[b], lo);
    SealedIsSealOf(key, Slots.Secret(b, k), c.secrets[nm.bags[b]][nm.keys[b][k]], o.secrets[b][k], lo);
  }

  /** A var of the file is that var of the config by ID, sealed field by field and extra by extra. */
  lemma SavedVar(key: Key, c: Config, ids: Ids, nm: NameMap, o: Config, lo: nat, i: nat, j: nat)
    requires EncryptsTo(key, c, ids, nm, o, lo) && i < |o.mappings| && j < |o.mappings[i].vars|
    ensures |o.mappings| == |c.mappings| && |o.mappings[i].vars| == |c.mappings[i].vars|
    ensures var w, q := ToIds(c.sources, ids, c.mappings[i].vars[j]), o.mappings[i].vars[j];
            && IsSealOf(key, Slots.VarField(i, j, Slots.Name), w.name, q.name, lo)
            && IsSealOf(key, Slots.VarField(i, j, Slots.Source), w.source, q.source, lo)
            && IsSealOf(key, Slots.VarField(i, j, Slots.Ref), w.ref, q.ref, lo)
            && IsSealOf(key, Slots.VarField(i, j, Slots.Key), w.key, q.key, lo)
            && IsSealOf(key, Slots.VarField(i, j, Slots.Value), w.value, q.value, lo)
            && q.extra.Keys == w.extra.Keys
            && forall k | k in w.extra :: IsSealOf(key, Slots.VarExtra(i, j, k), w.extra[k], q.extra[k], lo)
  {
    hide SourcesSealed, SecretsSealed, NameMapSealed, SealedAs, IsSealOf, ToIds;
    assert MappingSealed(key, c.sources, ids, i, c.mappings[i], o.mappings[i], lo);
    var w, q := ToIds(c.sources, ids, c.mappings[i].vars[j]), o.mappings[i].vars[j];
    assert VarSealed(key, i, j, w, q, lo);
    SavedField(key, i, j, w, q, lo, Slots.Name);
    SavedField(key, i, j, w, q, lo, Slots.Source);
    SavedField(key, i, j, w, q, lo, Slots.Ref);
    SavedField(key, i, j, w, q, lo, Slots.Key);
    SavedField(key, i, j, w, q, lo, Slots.Value);
    forall k | k in w.extra ensures IsSealOf(key, Slots.VarExtra(i, j, k), w.extra[k], q.extra[k], lo) {
      SealedIsSealOf(key, Slots.VarExtra(i, j, k), w.extra[k], q.extra[k], lo);
    }
  }

  lemma SavedField(key: Key, i: nat, j: nat, w: Var, q: Var, lo: nat, f: Slots.Field)
    requires VarSealed(key, i, j, w, q, lo)
    ensures IsSealOf(key, Slots.VarField(i, j, f), FieldOf(w, f), FieldOf(q, f), lo)
  {
    hide SealedAs, IsSealOf;
    SealedIsSealOf(key, Slots.VarField(i, j, f), FieldOf(w, f), FieldOf(q, f), lo);
  }

  /** Every source, bag, key and mapping is in the file, and every parameter and mapping heading with it. */
  lemma SavedFileIsComplete(key: Key, c: Config, ids: Ids, nm: NameMap, o: Config, lo: nat)
    requires EncryptsTo(key, c, ids, nm, o, lo)
    ensures forall n | n in c.sources ::
      && n in ids.src && ids.src[n] in o.sources && o.sources[ids.src[n]].typ == c.sources[n].typ
      && o.sources[ids.src[n]].params.Keys == c.sources[n].params.Keys
    ensures forall n | n in c.secrets :: n in ids.bag && ids.bag[n] in o.secrets && ids.bag[n] in ids.key
    ensures forall n, k | n in c.secrets && k in c.secrets[n] ::
      k in ids.key[ids.bag[n]] && ids.key[ids.bag[n]][k] in o.secrets[ids.bag[n]]
    ensures |o.mappings| == |c.mappings|
    ensures forall i | 0 <= i < |c.mappings| ::
      && o.mappings[i].path == c.mappings[i].path && o.mappings[i].glob == c.mappings[i].glob
      && o.mappings[i].cwdGlob == c.mappings[i].cwdGlob && o.mappings[i].commands == c.mappings[i].commands
      && |o.mappings[i].vars| == |c.mappings[i].vars|
    ensures o.version == c.version && o.migratedAt == c.migratedAt
  {
    hide NameMapSealed, SealedAs, ParamSealed, VarSealed;
    forall n, k | n in c.secrets && k in c.secrets[n]
      ensures k in ids.key[ids.bag[n]] && ids.key[ids.bag[n]][k] in o.secrets[ids.bag[n]]
    {
      var b := ids.bag[n];
      assert BagSealed(key, b, nm.keys[b], c.secrets[n], o.secrets[b], lo);
    }
    forall i | 0 <= i < |c.mappings| ensures o.mappings[i].(vars := c.mappings[i].vars) == c.mappings[i] {
      assert MappingSealed(key, c.sources, ids, i, c.mappings[i], o.mappings[i], lo);
    }
    forall i | 0 <= i < |c.mappings| ensures |o.mappings[i].vars| == |c.mappings[i].vars| {
      assert MappingSealed(key, c.sources, ids, i, c.mappings[i], o.mappings[i], lo);
    }
  }

  /** References are by ID: a source always, a bag and a key of a local source where they resolve; the rest of a var is
      as it was. */
  lemma ReferencesBecomeIds(c: Config, ids: Ids, nm: NameMap, v: Var)
    requires DictionaryOf(c, ids, nm) && VarIsPlain(v) && ValidVar(v) && SourceDefined(c, v)
    ensures var w := ToIds(c.sources, ids, v);
            && w.name == v.name && w.value == v.value && w.extra == v.extra
            && (v.source == Text("") ==> w == v)
            && (v.source != Text("") ==> v.source.s in ids.src && w.source == Text(ids.src[v.source.s]))
            && (v.source != Text("") && c.sources[v.source.s].typ != "local" ==> w.ref == v.ref && w.key == v.key)
            && (v.source != Text("") && c.sources[v.source.s].typ == "local" ==>
                  if v.ref == Text("") || v.ref.s !in c.secrets then w.ref == v.ref && w.key == v.key
                  else
                    && v.ref.s in ids.bag && w.ref == Text(ids.bag[v.ref.s]) && ids.bag[v.ref.s] in ids.key
                    && (if v.key == Text("") || v.key.s !in c.secrets[v.ref.s] then w.key == v.key
                        else v.key.s in ids.key[ids.bag[v.ref.s]]
                             && w.key == Text(ids.key[ids.bag[v.ref.s]][v.key.s])))
  {
    hide Inverse;
    if v.source != Text("") && v.ref.s in c.secrets {
      IdOfBag(c, ids, nm, v.ref.s);
    }
  }

  // ----- nothing in clear -----------------------------------------------------------------------------------------

  predicate VarUnreadable(v: Var) {
    && Unreadable(v.name) && Unreadable(v.source) && Unreadable(v.ref) && Unreadable(v.key) && Unreadable(v.value)
    && forall k | k in v.extra :: Unreadable(v.extra[k])
  }

  lemma SealIsUnreadable(key: Key, s: Slots.Slot, text: Value, out: Value, lo: nat)
    requires IsSealOf(key, s, text, out, lo)
    ensures Unreadable(out)
  {
  }

  lemma VarIsUnreadable(key: Key, c: Config, ids: Ids, nm: NameMap, o: Config, lo: nat, i: nat, j: nat)
    requires EncryptsTo(key, c, ids, nm, o, lo) && i < |o.mappings| && j < |o.mappings[i].vars|
    ensures VarUnreadable(o.mappings[i].vars[j])
  {
    hide EncryptsTo, ToIds, IsSealOf, Unreadable;
    SavedVar(key, c, ids, nm, o, lo, i, j);
    forall s, text, out | IsSealOf(key, s, text, out, lo) ensures Unreadable(out) {
      SealIsUnreadable(key, s, text, out, lo);
    }
  }

  /** Nothing stays in clear: whatever the config, no parameter, secret, var field or extra of a saved file can be
      read. */
  lemma NothingInClear(key: Key, c: Config, ids: Ids, nm: NameMap, o: Config, lo: nat)
    requires EncryptsTo(key, c, ids, nm, o, lo)
    ensures forall id, k | id in o.sources && k in o.sources[id].params && o.sources[id].params[k].Str? ::
      Unreadable(o.sources[id].params[k].v)
    ensures forall b, k | b in o.secrets && k in o.secrets[b] :: Unreadable(o.secrets[b][k])
    ensures forall i, j | 0 <= i < |o.mappings| && 0 <= j < |o.mappings[i].vars| :: VarUnreadable(o.mappings[i].vars[j])
    ensures o.nameMap.SealedNames?
  {
    assert o.nameMap.SealedNames? by { DictionaryUnderOwnName(key, c, ids, nm, o, lo); }
    hide EncryptsTo, Unreadable, IsSealOf, VarUnreadable;
    forall id, k | id in o.sources && k in o.sources[id].params && o.sources[id].params[k].Str?
      ensures Unreadable(o.sources[id].params[k].v)
    {
      SavedParam(key, c, ids, nm, o, lo, id, k);
      var p, q := c.sources[nm.sources[id]].params[k], o.sources[id].params[k];
      SealIsUnreadable(key, Slots.SourceParam(id, k), p.v, q.v, lo);
    }
    forall b, k | b in o.secrets && k in o.secrets[b] ensures Unreadable(o.secrets[b][k]) {
      SavedSecret(key, c, ids, nm, o, lo, b, k);
      SealIsUnreadable(key, Slots.Secret(b, k), c.secrets[nm.bags[b]][nm.keys[b][k]], o.secrets[b][k], lo);
    }
    forall i, j | 0 <= i < |o.mappings| && 0 <= j < |o.mappings[i].vars| ensures VarUnreadable(o.mappings[i].vars[j]) {
      VarIsUnreadable(key, c, ids, nm, o, lo, i, j);
    }
  }

  lemma IdSecretIs(c: Config, nm: NameMap, b: string, k: string)
    requires KnowsBags(c, nm) && b in nm.bags && k in nm.keys[b]
    ensures b in IdSecrets(c, nm) && k in IdSecrets(c, nm)[b]
    ensures IdSecrets(c, nm)[b][k] == c.secrets[nm.bags[b]][nm.keys[b][k]]
  {
  }

  /** The same slot by slot: what the file holds in a slot is the seal of what the config by ID has there. */
  lemma EverySlotIsSealed(key: Key, c: Config, ids: Ids, nm: NameMap, o: Config, lo: nat, s: Slots.Slot)
    requires EncryptsTo(key, c, ids, nm, o, lo) && SlotValue(o, s).Some? && Domains(c, nm)
    ensures var text := SlotValue(IdForm(c, ids, nm, o.nameMap), s);
            text.Some? && IsSealOf(key, s, text.value, SlotValue(o, s).value, lo)
  {
    hide EncryptsTo, IsSealOf, ToIds;
    match s
    case SourceParam(id, k) => SavedParam(key, c, ids, nm, o, lo, id, k);
    case Secret(b, k) =>
      SavedSecret(key, c, ids, nm, o, lo, b, k);
      IdSecretIs(c, nm, b, k);
    case VarField(i, j, f) => SavedVar(key, c, ids, nm, o, lo, i, j);
    case VarExtra(i, j, k) => SavedVar(key, c, ids, nm, o, lo, i, j);
    case NameMapSlot =>
  }

  /** The dictionary speaks of names of the config only. */
  ghost predicate Domains(c: Config, nm: NameMap) {
    (forall id | id in nm.sources :: nm.sources[id] in c.sources) && KnowsBags(c, nm)
  }

  lemma SavedDomains(key: Key, c: Config, ids: Ids, nm: NameMap, o: Config, lo: nat)
    requires EncryptsTo(key, c, ids, nm, o, lo)
    ensures Domains(c, nm)
  {
    BagsAreKnown(c, ids, nm);
  }

  /** For plain configs: what is not blank is an envelope of this save, under the name of its slot. */
  lemma PlainSlotIsSealed(key: Key, c: Config, ids: Ids, nm: NameMap, o: Config, lo: nat, s: Slots.Slot)
    requires EncryptsTo(key, c, ids, nm, o, lo) && WellShaped(nm) && AllPlain(c) && SlotValue(o, s).Some?
    requires SlotValue(o, s).value != Text("")
    ensures Domains(c, nm)
    ensures var v := SlotValue(o, s).value;
            && v.Sealed? && v.key == key && v.ad == Slots.SlotName(s) && v.nonce >= lo
            && SlotValue(IdForm(c, ids, nm, o.nameMap), s) == Some(Text(v.body))
  {
    hide EncryptsTo, WellShaped, AllPlain, Domains, IdForm, Slots.SlotName;
    SavedDomains(key, c, ids, nm, o, lo);
    EverySlotIsSealed(key, c, ids, nm, o, lo, s);
    if IsEnvelope(SlotValue(o, s).value) {
      SealedUnderOwnName(key, c, ids, nm, o, lo, s);
      SlotTextIsPlain(key, c, ids, nm, o, lo, s);
    }
  }

  lemma SlotTextIsPlain(key: Key, c: Config, ids: Ids, nm: NameMap, o: Config, lo: nat, s: Slots.Slot)
    requires EncryptsTo(key, c, ids, nm, o, lo) && WellShaped(nm) && AllPlain(c) && Domains(c, nm)
    requires SlotValue(o, s).Some? && SlotValue(IdForm(c, ids, nm, o.nameMap), s).Some?
    ensures !IsEnvelope(SlotValue(IdForm(c, ids, nm, o.nameMap), s).value)
  {
    hide SourcesSealed, SecretsSealed, NameMapSealed, IsEnvelope, ToIds, Slots.IsId;
    match s
    case SourceParam(id, k) => assert ParamIsPlain(c.sources[nm.sources[id]].params[k]);
    case Secret(b, k) => IdSecretIs(c, nm, b, k);
    case VarField(i, j, f) => VarSealedUnderOwnName(key, c, ids, nm, o, lo, i, j);
    case VarExtra(i, j, k) => VarSealedUnderOwnName(key, c, ids, nm, o, lo, i, j);
    case NameMapSlot =>
  }

  // ----- the dictionary -------------------------------------------------------------------------------------------

  /** The dictionary field opens when it is absent, to nothing, or sealed under the key and its own name, to what was
      sealed; a field that was tampered with never passes for an empty one, and no file with such a field loads. */
  lemma DictionaryOpensExactly(key: Key, f: NameMapField, o: Config)
    ensures match f
            case Blank => OpenNameMap(key, f) == Ok(NameMap(map[], map[], map[]))
            case SealedNames(k, ad, _, names) =>
              if k == key && ad == "meta.name_map" then OpenNameMap(key, f) == Ok(names) else OpenNameMap(key, f).Err?
            case Corrupt(_) => OpenNameMap(key, f).Err?
    ensures o.nameMap == f && OpenNameMap(key, f).Err? ==> !DecryptSucceeds(key, o)
    ensures o.nameMap == f && OpenNameMap(key, f).Err? ==> forall nm, d :: !DecryptsTo(key, o, nm, d)
  {
  }
}
