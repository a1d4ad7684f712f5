/** IDs are stable and fresh: what a save does to the dictionary it starts from (internal/config/encrypt.go:71-149). */
module Identity {
  import opened Wrappers
  import opened Envelope
  import opened ConfigModel
  import opened EncryptSpec
  import opened Encrypt
  import opened RoundTrip
  import Slots

  ghost predicate UniqueNames(m: map<string, string>) {
    forall id, id' | id in m && id' in m && m[id] == m[id'] :: id == id'
  }

  /** Names are unique within each kind, and key names within each bag. */
  ghost predicate UniqueDictionary(nm: NameMap) {
    UniqueNames(nm.sources) && UniqueNames(nm.bags) && forall b | b in nm.keys :: UniqueNames(nm.keys[b])
  }

  /** after is before with exactly the entries of vanished names dropped and, for every further name, a new ID that was
      not used in the prior dictionary. */
  ghost predicate Evolves(before: map<string, string>, used: set<string>, names: set<string>,
                          after: map<string, string>) {
    && after.Values == names
    && (forall id | id in before :: id in after <==> before[id] in names)
    && (forall id | id in before && id in after :: after[id] == before[id])
    && (forall id | id in after && id !in before :: id !in used)
  }

  lemma KindEvolves(before: map<string, string>, used: set<string>, ids: map<string, string>,
                    after: map<string, string>, prefix: string)
    requires before.Keys <= used && UniqueNames(before)
    requires Inverse(ids, after) && Stable(before, used, ids, prefix)
    ensures Evolves(before, used, ids.Keys, after) && UniqueNames(after)
  {
    forall n | n in ids ensures n in after.Values {
      assert after[ids[n]] == n;
    }
    forall id | id in after
      ensures id in before ==> after[id] == before[id]
      ensures id !in before ==> id !in used
    {
      assert Assigned(before, used, after[id], id, prefix);
    }
    forall id | id in before && before[id] in ids ensures id in after {
      assert Assigned(before, used, before[id], ids[before[id]], prefix);
    }
  }

  /** The dictionary after a save, kind by kind, and for every bag that kept its ID, key by key. */
  ghost predicate DictionaryEvolves(prev: NameMap, c: Config, nm: NameMap) {
    && Evolves(prev.sources, AllIds(prev), c.sources.Keys, nm.sources)
    && Evolves(prev.bags, AllIds(prev), c.secrets.Keys, nm.bags)
    && nm.keys.Keys == nm.bags.Keys
    && forall b | b in nm.bags ::
      nm.bags[b] in c.secrets && Evolves(KeyNames(prev, b), AllIds(prev), c.secrets[nm.bags[b]].Keys, nm.keys[b])
  }

  /** From a dictionary with unique names a save keeps the ID of every surviving source, bag and key, drops exactly the
      entries of deleted ones, and mints IDs that occur nowhere in the prior dictionary. */
  lemma IdsAreStable(c: Config, prev: NameMap, ids: Ids, nm: NameMap)
    requires DictionaryOf(c, ids, nm) && StableIds(prev, ids) && UniqueDictionary(prev)
    ensures DictionaryEvolves(prev, c, nm) && UniqueDictionary(nm)
  {
    hide Stable, Inverse, UniqueNames, Evolves;
    SourcesAreUsed(prev);
    assert prev.bags.Keys <= AllIds(prev);
    KindEvolves(prev.sources, AllIds(prev), ids.src, nm.sources, Slots.SOURCE_PREFIX);
    KindEvolves(prev.bags, AllIds(prev), ids.bag, nm.bags, Slots.BAG_PREFIX);
    forall b | b in nm.bags
      ensures nm.bags[b] in c.secrets && UniqueNames(nm.keys[b])
      ensures Evolves(KeyNames(prev, b), AllIds(prev), c.secrets[nm.bags[b]].Keys, nm.keys[b])
    {
      EveryBagHasKeys(c, ids, nm);
      KeyNamesAreUsed(prev, b);
      assert UniqueNames(KeyNames(prev, b)) by { NoNamesAreUnique(); }
      KindEvolves(KeyNames(prev, b), AllIds(prev), ids.key[b], nm.keys[b], Slots.KEY_PREFIX);
    }
  }

  /** The ID occurs somewhere in the dictionary. */
  predicate Occurs(nm: NameMap, id: string) {
    id in nm.sources || id in nm.bags || exists b | b in nm.keys :: id in nm.keys[b]
  }

  /** An ID that its own table did not hold before a save did not occur in any other table either. */
  lemma NewIdsAreNew(c: Config, prev: NameMap, ids: Ids, nm: NameMap)
    requires DictionaryOf(c, ids, nm) && StableIds(prev, ids) && UniqueDictionary(prev)
    ensures forall id | id in nm.sources && id !in prev.sources :: !Occurs(prev, id)
    ensures forall id | id in nm.bags && id !in prev.bags :: !Occurs(prev, id)
    ensures forall b, id | b in nm.keys && id in nm.keys[b] && (b !in prev.keys || id !in prev.keys[b]) ::
      !Occurs(prev, id)
  {
    hide DictionaryOf, StableIds, UniqueDictionary, UniqueNames, Occurs, AllIds, Evolves;
    IdsAreStable(c, prev, ids, nm);
    forall id | id in nm.sources && id !in prev.sources ensures !Occurs(prev, id) {
      NewIsUnused(prev, prev.sources, c.sources.Keys, nm.sources, id);
    }
    forall id | id in nm.bags && id !in prev.bags ensures !Occurs(prev, id) {
      NewIsUnused(prev, prev.bags, c.secrets.Keys, nm.bags, id);
    }
    forall b, id | b in nm.keys && id in nm.keys[b] && (b !in prev.keys || id !in prev.keys[b])
      ensures !Occurs(prev, id)
    {
      NewIsUnused(prev, KeyNames(prev, b), c.secrets[nm.bags[b]].Keys, nm.keys[b], id);
    }
  }

  lemma NewIsUnused(prev: NameMap, before: map<string, string>, names: set<string>, after: map<string, string>,
                    id: string)
    requires Evolves(before, AllIds(prev), names, after) && id in after && id !in before
    ensures !Occurs(prev, id)
  {
    AllIdsOccur(prev);
    hide AllIds, Occurs;
  }

  lemma AllIdsOccur(nm: NameMap)
    ensures forall id :: id in AllIds(nm) <==> Occurs(nm, id)
  {
  }

  lemma NoNamesAreUnique()
    ensures UniqueNames(map[])
  {
  }

  lemma KindStaysShaped(before: map<string, string>, used: set<string>, ids: map<string, string>,
                        after: map<string, string>, prefix: string)
    requires Inverse(ids, after) && Stable(before, used, ids, prefix)
    requires forall id | id in before :: Slots.IsId(id, prefix)
    ensures forall id | id in after :: Slots.IsId(id, prefix)
  {
    forall id | id in after ensures Slots.IsId(id, prefix) {
      assert Assigned(before, used, after[id], id, prefix);
    }
  }

  /** Well-formed IDs stay well-formed. */
  lemma DictionaryStaysShaped(c: Config, prev: NameMap, ids: Ids, nm: NameMap)
    requires DictionaryOf(c, ids, nm) && StableIds(prev, ids) && WellShaped(prev)
    ensures WellShaped(nm)
  {
    hide Stable, Inverse, Slots.IsId;
    KindStaysShaped(prev.sources, AllIds(prev), ids.src, nm.sources, Slots.SOURCE_PREFIX);
    KindStaysShaped(prev.bags, AllIds(prev), ids.bag, nm.bags, Slots.BAG_PREFIX);
    forall b | b in nm.keys ensures forall id | id in nm.keys[b] :: Slots.IsKeyId(id) {
      KindStaysShaped(KeyNames(prev, b), AllIds(prev), ids.key[b], nm.keys[b], Slots.KEY_PREFIX);
    }
  }

  /** A save whose prior dictionary already is the dictionary of the config keeps it to the letter, and therefore leaves
      the sealed field untouched: no edits, no new name_map envelope. */
  lemma NoEditsNoReseal(key: Key, c: Config, prev: NameMap, ids0: Ids, ids: Ids, nm: NameMap, o: Config, lo: nat)
    requires DictionaryOf(c, ids0, prev)
    requires EncryptsTo(key, c, ids, nm, o, lo) && StableIds(prev, ids)
    requires OpenNameMap(key, c.nameMap) == Ok(prev) && !c.nameMap.Blank?
    ensures ids == ids0 && nm == prev && o.nameMap == c.nameMap
  {
    hide Stable, Inverse, SourcesSealed, SecretsSealed, MappingsSealed;
    SameKind(prev.sources, AllIds(prev), ids0.src, ids.src, nm.sources, Slots.SOURCE_PREFIX);
    SameKind(prev.bags, AllIds(prev), ids0.bag, ids.bag, nm.bags, Slots.BAG_PREFIX);
    forall b | b in nm.bags ensures b in prev.keys && nm.keys[b] == prev.keys[b] && ids.key[b] == ids0.key[b] {
      SameKind(KeyNames(prev, b), AllIds(prev), ids0.key[b], ids.key[b], nm.keys[b], Slots.KEY_PREFIX);
    }
    assert nm.keys == prev.keys && ids.key == ids0.key;
  }

  lemma SameKind(prev: map<string, string>, used: set<string>, ids0: map<string, string>, ids: map<string, string>,
                 names: map<string, string>, prefix: string)
    requires Inverse(ids0, prev) && Inverse(ids, names) && ids.Keys == ids0.Keys
    requires Stable(prev, used, ids, prefix)
    ensures names == prev && ids == ids0
  {
    forall n | n in ids ensures ids[n] == ids0[n] {
      assert prev[ids0[n]] == n;
      assert Assigned(prev, used, n, ids[n], prefix);
    }
    forall id | id in names ensures id in prev && prev[id] == names[id] {
      assert ids[names[id]] == id;
    }
    forall id | id in prev ensures id in names {
      assert ids[prev[id]] == id;
    }
    assert names.Keys == prev.Keys;
  }

  // ----- envelopes are bound to their slots -----------------------------------------------------------------------

  /** The string held in a slot of a file, if there is one. */
  function SlotValue(o: Config, s: Slots.Slot): Option<Value> {
    match s
    case SourceParam(id, p) =>
      if id in o.sources && p in o.sources[id].params && o.sources[id].params[p].Str?
      then Some(o.sources[id].params[p].v) else None
    case Secret(b, k) => if b in o.secrets && k in o.secrets[b] then Some(o.secrets[b][k]) else None
    case VarField(i, j, f) =>
      if i < |o.mappings| && j < |o.mappings[i].vars| then Some(FieldOf(o.mappings[i].vars[j], f)) else None
    case VarExtra(i, j, k) =>
      if i < |o.mappings| && j < |o.mappings[i].vars| && k in o.mappings[i].vars[j].extra
      then Some(o.mappings[i].vars[j].extra[k]) else None
    case NameMapSlot => None
  }

  /** What an enc:v2 envelope was sealed with, whatever it holds. */
  datatype Seal = Seal(key: Key, ad: string, nonce: nat)

  /** The seal of the envelope in a slot of a file, the name_map included. */
  function SlotSeal(o: Config, s: Slots.Slot): Option<Seal> {
    if s.NameMapSlot? then
      if o.nameMap.SealedNames? then Some(Seal(o.nameMap.key, o.nameMap.ad, o.nameMap.nonce)) else None
    else
      match SlotValue(o, s)
      case Some(Sealed(k, ad, nonce, _)) => Some(Seal(k, ad, nonce))
      case _ => None
  }

  /** A plain value that became an envelope carries the name it was sealed under. */
  lemma SealedUnderAad(key: Key, s: Slots.Slot, plain: Value, out: Value, lo: nat)
    requires !s.NameMapSlot? && SealedAs(key, Slots.SlotAad(s), plain, out, lo) && !IsEnvelope(plain) && IsEnvelope(out)
    ensures out.Sealed? && out.ad == Slots.SlotName(s)
  {
    Slots.SlotAadIsSlotName(s);
  }

  lemma VarSealedUnderOwnName(key: Key, c: Config, ids: Ids, nm: NameMap, o: Config, lo: nat, i: nat, j: nat)
    requires EncryptsTo(key, c, ids, nm, o, lo) && WellShaped(nm) && AllPlain(c)
    requires i < |o.mappings| && j < |o.mappings[i].vars|
    ensures j < |c.mappings[i].vars|
    ensures var w := ToIds(c.sources, ids, c.mappings[i].vars[j]);
            VarIsPlain(w) && VarSealed(key, i, j, w, o.mappings[i].vars[j], lo)
  {
    assert MappingSealed(key, c.sources, ids, i, c.mappings[i], o.mappings[i], lo);
    var v := c.mappings[i].vars[j];
    assert c.mappings[i] in c.mappings && v in c.mappings[i].vars;
    ToIdsIsPlain(c, ids, nm, v);
  }

  lemma ParamUnderOwnName(key: Key, c: Config, ids: Ids, nm: NameMap, o: Config, lo: nat, id: string, p: string)
    requires EncryptsTo(key, c, ids, nm, o, lo) && WellShaped(nm) && AllPlain(c)
    requires id in o.sources && p in o.sources[id].params && o.sources[id].params[p].Str?
    requires IsEnvelope(o.sources[id].params[p].v)
    ensures var out, s := o.sources[id].params[p].v, Slots.SourceParam(id, p);
            out.Sealed? && out.ad == Slots.SlotName(s) && Slots.IdShaped(s)
  {
    hide Slots.SlotName, SealedAs, IsEnvelope, SecretsSealed, MappingsSealed, Slots.IsId;
    var plain := c.sources[nm.sources[id]].params[p];
    assert ParamSealed(key, id, p, plain, o.sources[id].params[p], lo) && ParamIsPlain(plain);
    SealedUnderAad(key, Slots.SourceParam(id, p), plain.v, o.sources[id].params[p].v, lo);
  }

  lemma SecretUnderOwnName(key: Key, c: Config, ids: Ids, nm: NameMap, o: Config, lo: nat, b: string, k: string)
    requires EncryptsTo(key, c, ids, nm, o, lo) && WellShaped(nm) && AllPlain(c)
    requires b in o.secrets && k in o.secrets[b] && IsEnvelope(o.secrets[b][k])
    ensures var out, s := o.secrets[b][k], Slots.Secret(b, k);
            out.Sealed? && out.ad == Slots.SlotName(s) && Slots.IdShaped(s)
  {
    hide Slots.SlotName, SealedAs, IsEnvelope, SourcesSealed, MappingsSealed, Slots.IsId;
    var kv := c.secrets[nm.bags[b]];
    assert BagSealed(key, b, nm.keys[b], kv, o.secrets[b], lo);
    SealedUnderAad(key, Slots.Secret(b, k), kv[nm.keys[b][k]], o.secrets[b][k], lo);
  }

  lemma FieldUnderOwnName(key: Key, c: Config, ids: Ids, nm: NameMap, o: Config, lo: nat, i: nat, j: nat,
                          f: Slots.Field)
    requires EncryptsTo(key, c, ids, nm, o, lo) && WellShaped(nm) && AllPlain(c)
    requires i < |o.mappings| && j < |o.mappings[i].vars| && IsEnvelope(FieldOf(o.mappings[i].vars[j], f))
    ensures var out, s := FieldOf(o.mappings[i].vars[j], f), Slots.VarField(i, j, f);
            out.Sealed? && out.ad == Slots.SlotName(s) && Slots.IdShaped(s)
  {
    hide Slots.SlotName, ToIds, SealedAs, IsEnvelope, SourcesSealed, SecretsSealed;
    VarSealedUnderOwnName(key, c, ids, nm, o, lo, i, j);
    SealedUnderAad(key, Slots.VarField(i, j, f), FieldOf(ToIds(c.sources, ids, c.mappings[i].vars[j]), f),
                   FieldOf(o.mappings[i].vars[j], f), lo);
  }

  lemma ExtraUnderOwnName(key: Key, c: Config, ids: Ids, nm: NameMap, o: Config, lo: nat, i: nat, j: nat, k: string)
    requires EncryptsTo(key, c, ids, nm, o, lo) && WellShaped(nm) && AllPlain(c)
    requires i < |o.mappings| && j < |o.mappings[i].vars| && k in o.mappings[i].vars[j].extra
    requires IsEnvelope(o.mappings[i].vars[j].extra[k])
    ensures var out, s := o.mappings[i].vars[j].extra[k], Slots.VarExtra(i, j, k);
            out.Sealed? && out.ad == Slots.SlotName(s) && Slots.IdShaped(s)
  {
    hide Slots.SlotName, ToIds, SealedAs, IsEnvelope, SourcesSealed, SecretsSealed;
    VarSealedUnderOwnName(key, c, ids, nm, o, lo, i, j);
    SealedUnderAad(key, Slots.VarExtra(i, j, k), ToIds(c.sources, ids, c.mappings[i].vars[j]).extra[k],
                   o.mappings[i].vars[j].extra[k], lo);
  }

  /** Every envelope a save of plaintext wrote carries the name of its own slot. */
  lemma SealedUnderOwnName(key: Key, c: Config, ids: Ids, nm: NameMap, o: Config, lo: nat, s: Slots.Slot)
    requires EncryptsTo(key, c, ids, nm, o, lo) && WellShaped(nm) && AllPlain(c)
    requires SlotValue(o, s).Some? && IsEnvelope(SlotValue(o, s).value)
    ensures SlotValue(o, s).value.Sealed? && SlotValue(o, s).value.ad == Slots.SlotName(s) && Slots.IdShaped(s)
  {
    hide Slots.SlotName, Slots.IdShaped, IsEnvelope, EncryptsTo, AllPlain, WellShaped;
    match s
    case SourceParam(id, p) => ParamUnderOwnName(key, c, ids, nm, o, lo, id, p);
    case Secret(b, k) => SecretUnderOwnName(key, c, ids, nm, o, lo, b, k);
    case VarField(i, j, f) => FieldUnderOwnName(key, c, ids, nm, o, lo, i, j, f);
    case VarExtra(i, j, k) => ExtraUnderOwnName(key, c, ids, nm, o, lo, i, j, k);
    case NameMapSlot =>
  }

  lemma SealsAreUnderOwnName(key: Key, c: Config, ids: Ids, nm: NameMap, o: Config, lo: nat, s: Slots.Slot)
    requires EncryptsTo(key, c, ids, nm, o, lo) && WellShaped(nm) && AllPlain(c)
    requires SlotSeal(o, s).Some?
    ensures SlotSeal(o, s).value.ad == Slots.SlotName(s) && Slots.IdShaped(s)
  {
    hide EncryptsTo, Slots.IdShaped;
    if s.NameMapSlot? {
      DictionaryUnderOwnName(key, c, ids, nm, o, lo);
    } else {
      SealedUnderOwnName(key, c, ids, nm, o, lo, s);
    }
  }

  lemma DictionaryUnderOwnName(key: Key, c: Config, ids: Ids, nm: NameMap, o: Config, lo: nat)
    requires EncryptsTo(key, c, ids, nm, o, lo)
    ensures o.nameMap.SealedNames? && o.nameMap.ad == Slots.SlotName(Slots.NameMapSlot)
    ensures Slots.IdShaped(Slots.NameMapSlot)
  {
  }

  lemma ValueOpensUnderOwnName(key: Key, o: Config, p: Config, s: Slots.Slot)
    requires OpensTo(key, o, p)
    requires SlotValue(o, s).Some? && IsEnvelope(SlotValue(o, s).value)
    ensures var v := SlotValue(o, s).value;
            (v.SealedV1? && v.key == key) || (v.Sealed? && v.key == key && v.ad == Slots.SlotName(s))
  {
    match s
    case SourceParam(id, k) =>
      assert SourceOpens(key, id, o.sources[id], p.sources[id]);
      assert ParamOpens(key, id, k, o.sources[id].params[k], p.sources[id].params[k]);
    case Secret(b, k) =>
      assert BagOpens(key, b, o.secrets[b], p.secrets[b]);
      Slots.SlotAadIsSlotName(s);
    case VarField(i, j, f) =>
      assert MappingOpens(key, i, o.mappings[i], p.mappings[i]);
      assert Open(key, FieldOf(o.mappings[i].vars[j], f), Slots.VarFieldAad(i, j, f)).Ok?;
      Slots.SlotAadIsSlotName(s);
    case VarExtra(i, j, k) =>
      assert MappingOpens(key, i, o.mappings[i], p.mappings[i]);
      assert VarOpens(key, i, j, o.mappings[i].vars[j], p.mappings[i].vars[j]);
      Slots.SlotAadIsSlotName(s);
    case NameMapSlot =>
  }

  /** In a file that loads, every envelope is of the loading key and carries the name of its own slot, unless it is one
      of the legacy format, which is bound to no slot. */
  lemma OpensOnlyUnderOwnName(key: Key, o: Config, s: Slots.Slot)
    requires DecryptSucceeds(key, o)
    ensures SlotSeal(o, s).Some? ==> SlotSeal(o, s).value.key == key && SlotSeal(o, s).value.ad == Slots.SlotName(s)
    ensures SlotValue(o, s).Some? && IsEnvelope(SlotValue(o, s).value) ==>
      SlotSeal(o, s).Some? || (SlotValue(o, s).value.SealedV1? && SlotValue(o, s).value.key == key)
  {
    hide OpensTo;
    var p :| OpensTo(key, o, p);
    if SlotValue(o, s).Some? && IsEnvelope(SlotValue(o, s).value) {
      ValueOpensUnderOwnName(key, o, p, s);
    }
  }

  /** An envelope of a saved file that turns up in a slot of another name makes the load fail, whatever else happens to
      the file; the name_map is one of the slots, and a move may be an exchange or a copy. */
  lemma OtherNameFails(key: Key, c: Config, ids: Ids, nm: NameMap, o: Config, lo: nat, o': Config, s: Slots.Slot,
                       t: Slots.Slot)
    requires EncryptsTo(key, c, ids, nm, o, lo) && WellShaped(nm) && AllPlain(c)
    requires SlotSeal(o, t).Some? && SlotSeal(o', s) == SlotSeal(o, t)
    requires Slots.SlotName(s) != Slots.SlotName(t)
    ensures !DecryptSucceeds(key, o')
  {
    SealsAreUnderOwnName(key, c, ids, nm, o, lo, t);
    if DecryptSucceeds(key, o') {
      OpensOnlyUnderOwnName(key, o', s);
    }
  }

  /** Slots over ID-shaped coordinates, which are all that a save writes, have different names: there, moving any
      envelope into any other slot makes the load fail. */
  lemma TransplantFails(key: Key, c: Config, ids: Ids, nm: NameMap, o: Config, lo: nat, o': Config,
                        s: Slots.Slot, t: Slots.Slot)
    requires EncryptsTo(key, c, ids, nm, o, lo) && WellShaped(nm) && AllPlain(c)
    requires SlotSeal(o, t).Some?
    requires s != t && Slots.IdShaped(s) && SlotSeal(o', s) == SlotSeal(o, t)
    ensures !DecryptSucceeds(key, o')
  {
    SealsAreUnderOwnName(key, c, ids, nm, o, lo, t);
    if Slots.SlotName(s) == Slots.SlotName(t) {
      Slots.SlotNamesAreInjective(s, t);
    } else {
      OtherNameFails(key, c, ids, nm, o, lo, o', s, t);
    }
  }

  // ----- slots that share a name ----------------------------------------------------------------------------------

  /** The file with one more string parameter under a source ID that is no ID. */
  function WithParam(o: Config, id: string, k: string, v: Value): Config {
    o.(sources := o.sources[id := Source("", map[k := Str(v)])])
  }

  /** A parameter named with a dot shares its slot name with a parameter of a source whose ID has that dot. */
  lemma NamesMayBeShared()
    ensures var s, t := Slots.SourceParam("s_aaaaaa.a", "b"), Slots.SourceParam("s_aaaaaa", "a.b");
            s != t && Slots.SlotName(s) == Slots.SlotName(t) && Slots.IdShaped(t)
  {
    assert "s_aaaaaa" + "." + "a.b" == "s_aaaaaa.a" + "." + "b";
  }

  /** Only such slots share the name of one a save writes. */
  lemma SharedNamesAreParams(s: Slots.Slot, t: Slots.Slot)
    requires s != t && Slots.IdShaped(t) && Slots.SlotName(s) == Slots.SlotName(t)
    ensures s.SourceParam? && t.SourceParam? && !Slots.IsSourceId(s.sourceId) && s.sourceId != ""
  {
    Slots.SharedName(s, t);
  }

  lemma SavedFileOpens(key: Key, c: Config, ids: Ids, nm: NameMap, o: Config, lo: nat)
    requires EncryptsTo(key, c, ids, nm, o, lo) && WellShaped(nm) && AllPlain(c)
    ensures DecryptSucceeds(key, o)
  {
    hide OpensTo;
    FileOpens(key, c, ids, nm, o, lo);
    FieldOpensToDictionary(key, c.nameMap, nm, o.nameMap, lo);
  }

  lemma OneMoreParamOpens(key: Key, o: Config, p: Config, id: string, k: string, v: Value)
    requires OpensTo(key, o, p) && id != ""
    requires v.Sealed? && v.key == key && v.ad == ParamAd(id, k)
    ensures OpensTo(key, WithParam(o, id, k, v), WithParam(p, id, k, Text(v.body)))
  {
    hide BagOpens, MappingOpens;
    var o', p' := WithParam(o, id, k, v), WithParam(p, id, k, Text(v.body));
    forall n | n in o'.sources ensures SourceOpens(key, n, o'.sources[n], p'.sources[n]) {
      if n != id {
        assert SourceOpens(key, n, o.sources[n], p.sources[n]);
      }
    }
  }

  /** A copy of an envelope in a slot of the same name opens: the file with the copy loads. */
  lemma SharedNameLoads(key: Key, c: Config, ids: Ids, nm: NameMap, o: Config, lo: nat, s: Slots.Slot, t: Slots.Slot)
    returns (o': Config)
    requires EncryptsTo(key, c, ids, nm, o, lo) && WellShaped(nm) && AllPlain(c)
    requires SlotSeal(o, t).Some? && s != t && Slots.SlotName(s) == Slots.SlotName(t)
    ensures SlotSeal(o', s) == SlotSeal(o, t) && DecryptSucceeds(key, o')
  {
    hide EncryptsTo, OpensTo, WellShaped, AllPlain, Slots.IdShaped, Slots.SlotName, WithParam;
    SavedFileOpens(key, c, ids, nm, o, lo);
    SealsAreUnderOwnName(key, c, ids, nm, o, lo, t);
    SharedNamesAreParams(s, t);
    OpensOnlyUnderOwnName(key, o, t);
    var v := SlotValue(o, t).value;
    var p :| OpensTo(key, o, p);
    ParamNameIs(s);
    OneMoreParamOpens(key, o, p, s.sourceId, s.param, v);
    o' := WithParam(o, s.sourceId, s.param, v);
    AddedParamIs(o, s.sourceId, s.param, v);
  }

  lemma ParamNameIs(s: Slots.Slot)
    requires s.SourceParam?
    ensures ParamAd(s.sourceId, s.param) == Slots.SlotName(s)
  {
  }

  lemma AddedParamIs(o: Config, id: string, k: string, v: Value)
    ensures SlotValue(WithParam(o, id, k, v), Slots.SourceParam(id, k)) == Some(v)
    ensures WithParam(o, id, k, v).nameMap == o.nameMap
  {
  }

  /** An envelope may turn up in another slot of a file that loads if and only if the two slots have one name. */
  lemma TransplantFailsExactly(key: Key, c: Config, ids: Ids, nm: NameMap, o: Config, lo: nat, s: Slots.Slot,
                               t: Slots.Slot)
    requires EncryptsTo(key, c, ids, nm, o, lo) && WellShaped(nm) && AllPlain(c)
    requires SlotSeal(o, t).Some? && s != t
    ensures (forall o' | SlotSeal(o', s) == SlotSeal(o, t) :: !DecryptSucceeds(key, o'))
            <==> Slots.SlotName(s) != Slots.SlotName(t)
  {
    hide EncryptsTo, WellShaped, AllPlain, DecryptSucceeds, SlotSeal, Slots.SlotName;
    if Slots.SlotName(s) == Slots.SlotName(t) {
      var o' := SharedNameLoads(key, c, ids, nm, o, lo, s, t);
    } else {
      forall o' | SlotSeal(o', s) == SlotSeal(o, t) ensures !DecryptSucceeds(key, o') {
        OtherNameFails(key, c, ids, nm, o, lo, o', s, t);
      }
    }
  }
}
