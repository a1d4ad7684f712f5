/** Whether a config will load back, told before the save from the config and the prior dictionary alone: a minted ID
    may be any unused one, so a reference is safe only if no ID a save may use reads like it
    (internal/config/encrypt.go:71-149, internal/config/decrypt.go:152-193). */
module Foreseen {
  import opened Wrappers
  import opened Envelope
  import opened ConfigModel
  import opened EncryptSpec
  import opened Encrypt
  import opened RoundTrip
  import opened Identity
  import Slots
  import Text

  // ----- one kind of names ----------------------------------------------------------------------------------------

  /** Some name may get this ID: the one it has already, or, when some name is new, any that is unused. */
  ghost predicate MayBeGiven(before: map<string, string>, used: set<string>, names: set<string>, id: string,
                             prefix: string) {
    || (id in before && before[id] in names)
    || (id !in used && Slots.IsId(id, prefix) && exists n :: n in names && n !in before.Values)
  }

  lemma GivenMayBeGiven(before: map<string, string>, used: set<string>, ids: map<string, string>,
                        after: map<string, string>, prefix: string, id: string)
    requires Inverse(ids, after) && Stable(before, used, ids, prefix) && id in after
    ensures MayBeGiven(before, used, ids.Keys, id, prefix)
  {
    assert Assigned(before, used, after[id], id, prefix);
  }

  /** The name n moved from the ID it has to another. */
  function Moved(after: map<string, string>, from: string, to: string, n: string): map<string, string> {
    (after - {from})[to := n]
  }

  lemma MoveKeepsInverse(before: map<string, string>, used: set<string>, ids: map<string, string>,
                         after: map<string, string>, prefix: string, n: string, id: string)
    requires Inverse(ids, after) && Stable(before, used, ids, prefix)
    requires n in ids && id !in after && Assigned(before, used, n, id, prefix)
    ensures Inverse(ids[n := id], Moved(after, ids[n], id, n)) && Stable(before, used, ids[n := id], prefix)
  {
  }

  /** The name that may be given the ID, when no name has it. */
  lemma WhoMayBeGiven(before: map<string, string>, used: set<string>, ids: map<string, string>,
                      after: map<string, string>, prefix: string, id: string)
    returns (n: string)
    requires before.Keys <= used && Inverse(ids, after) && Stable(before, used, ids, prefix)
    requires MayBeGiven(before, used, ids.Keys, id, prefix) && id !in after
    ensures n in ids && Assigned(before, used, n, id, prefix)
    ensures id !in before ==> n !in before.Values
  {
    if id in before && before[id] in ids.Keys {
      n := before[id];
    } else {
      n :| n in ids.Keys && n !in before.Values;
    }
  }

  // ----- references -----------------------------------------------------------------------------------------------

  /** The key names the dictionary has for the bag of this name. */
  ghost function PriorKeys(prev: NameMap, bag: string): map<string, string> {
    if b :| b in prev.bags && prev.bags[b] == bag then KeyNames(prev, b) else map[]
  }

  /** Bag names are unique and only bags have keys, as in every dictionary that a save made. */
  ghost predicate Settled(prev: NameMap) {
    UniqueNames(prev.bags) && prev.keys.Keys <= prev.bags.Keys
  }

  lemma SavesSettle(c: Config, ids: Ids, nm: NameMap)
    requires DictionaryOf(c, ids, nm)
    ensures Settled(nm)
  {
  }

  lemma PriorKeysAre(prev: NameMap, bags: map<string, string>, names: map<string, string>, b: string)
    requires Inverse(bags, names) && Stable(prev.bags, AllIds(prev), bags, Slots.BAG_PREFIX) && b in names
    requires Settled(prev)
    ensures PriorKeys(prev, names[b]) == KeyNames(prev, b)
  {
    BagsAreUsed(prev);
    hide AllIds;
    assert Assigned(prev.bags, AllIds(prev), names[b], b, Slots.BAG_PREFIX);
  }

  /** A save may mistake the bag or the key of this var for one of the IDs it uses. */
  ghost predicate MayBeCaptured(c: Config, prev: NameMap, v: Var) {
    && IsLocalVar(c, v) && v.ref.Text?
    && if IsBlank(v.ref) || v.ref.s !in c.secrets
       then MayBeGiven(prev.bags, AllIds(prev), c.secrets.Keys, v.ref.s, Slots.BAG_PREFIX)
       else
         && v.key.Text? && !IsBlank(v.key) && v.key.s !in c.secrets[v.ref.s]
         && MayBeGiven(PriorKeys(prev, v.ref.s), AllIds(prev), c.secrets[v.ref.s].Keys, v.key.s, Slots.KEY_PREFIX)
  }

  ghost predicate NothingMayBeCaptured(c: Config, prev: NameMap) {
    forall m | m in c.mappings :: forall v | v in m.vars :: !MayBeCaptured(c, prev, v)
  }

  /** What is captured might have been foreseen. */
  lemma CapturedWasForeseen(c: Config, prev: NameMap, ids: Ids, nm: NameMap, v: Var)
    requires DictionaryOf(c, ids, nm) && StableIds(prev, ids) && Settled(prev)
    requires !NotCaptured(c, nm, v)
    ensures MayBeCaptured(c, prev, v)
  {
    hide Stable, Inverse, AllIds, MayBeGiven, Settled;
    if IsBlank(v.ref) || v.ref.s !in c.secrets {
      GivenMayBeGiven(prev.bags, AllIds(prev), ids.bag, nm.bags, Slots.BAG_PREFIX, v.ref.s);
    } else {
      var b :| b in nm.bags && nm.bags[b] == v.ref.s && v.key.s in KeyNames(nm, b);
      PriorKeysAre(prev, ids.bag, nm.bags, b);
      GivenMayBeGiven(KeyNames(prev, b), AllIds(prev), ids.key[b], nm.keys[b], Slots.KEY_PREFIX, v.key.s);
    }
  }

  // ----- another choice of IDs ------------------------------------------------------------------------------------

  /** The bag n under another ID, with its keys. */
  function MovedBag(ids: Ids, n: string, id: string): Ids
    requires n in ids.bag && ids.bag[n] in ids.key
  {
    var from := ids.bag[n];
    ids.(bag := ids.bag[n := id], key := (ids.key - {from})[id := ids.key[from]])
  }

  function MovedBagNames(nm: NameMap, from: string, to: string, n: string): NameMap
    requires from in nm.keys
  {
    nm.(bags := Moved(nm.bags, from, to, n), keys := (nm.keys - {from})[to := nm.keys[from]])
  }

  lemma MovedBagIsDictionary(c: Config, ids: Ids, nm: NameMap, n: string, id: string)
    requires DictionaryOf(c, ids, nm) && n in ids.bag && ids.bag[n] in nm.bags && id !in nm.bags
    requires Inverse(ids.bag[n := id], Moved(nm.bags, ids.bag[n], id, n))
    ensures DictionaryOf(c, MovedBag(ids, n, id), MovedBagNames(nm, ids.bag[n], id, n))
  {
    hide Inverse;
    assert nm.bags[ids.bag[n]] == n by { IdNames(ids.bag, nm.bags, n); }
  }

  lemma IdNames(ids: map<string, string>, names: map<string, string>, n: string)
    requires Inverse(ids, names) && n in ids
    ensures ids[n] in names && names[ids[n]] == n
  {
  }

  /** A new bag may be given any unused ID. */
  lemma MovedBagIsStable(prev: NameMap, ids: Ids, nm: NameMap, n: string, id: string)
    requires StableIds(prev, ids) && Settled(prev) && n in ids.bag && ids.bag[n] in ids.key
    requires n !in prev.bags.Values && id !in AllIds(prev)
    requires Stable(prev.bags, AllIds(prev), ids.bag[n := id], Slots.BAG_PREFIX)
    ensures StableIds(prev, MovedBag(ids, n, id))
  {
    hide Stable;
    assert KeyNames(prev, id) == KeyNames(prev, ids.bag[n]) by {
      UnusedHasNoKeys(prev, id);
      assert Assigned(prev.bags, AllIds(prev), n, ids.bag[n], Slots.BAG_PREFIX) by { StableAt(prev, ids, n); }
      UnusedHasNoKeys(prev, ids.bag[n]);
    }
  }

  lemma StableAt(prev: NameMap, ids: Ids, n: string)
    requires StableIds(prev, ids) && n in ids.bag
    ensures Assigned(prev.bags, AllIds(prev), n, ids.bag[n], Slots.BAG_PREFIX)
  {
  }

  lemma UnusedHasNoKeys(prev: NameMap, b: string)
    requires Settled(prev) && b !in AllIds(prev)
    ensures KeyNames(prev, b) == map[]
  {
  }

  /** A bag ID that may be given is given by some choice of IDs. */
  lemma SomeBagGetsId(c: Config, prev: NameMap, ids: Ids, nm: NameMap, id: string) returns (ids': Ids, nm': NameMap)
    requires DictionaryOf(c, ids, nm) && StableIds(prev, ids) && Settled(prev)
    requires MayBeGiven(prev.bags, AllIds(prev), c.secrets.Keys, id, Slots.BAG_PREFIX)
    ensures DictionaryOf(c, ids', nm') && StableIds(prev, ids') && id in nm'.bags
  {
    hide Stable, AllIds, UniqueNames, MayBeGiven;
    if id in nm.bags {
      return ids, nm;
    }
    BagsAreUsed(prev);
    var n := WhoMayBeGiven(prev.bags, AllIds(prev), ids.bag, nm.bags, Slots.BAG_PREFIX, id);
    if id in prev.bags {
      KnownBagHasId(prev, ids, nm, n, id);
    }
    MoveKeepsInverse(prev.bags, AllIds(prev), ids.bag, nm.bags, Slots.BAG_PREFIX, n, id);
    MovedBagIsDictionary(c, ids, nm, n, id);
    MovedBagIsStable(prev, ids, nm, n, id);
    ids', nm' := MovedBag(ids, n, id), MovedBagNames(nm, ids.bag[n], id, n);
  }

  /** A bag of the dictionary has its ID whatever the choice. */
  lemma KnownBagHasId(prev: NameMap, ids: Ids, nm: NameMap, n: string, id: string)
    requires Inverse(ids.bag, nm.bags) && Stable(prev.bags, AllIds(prev), ids.bag, Slots.BAG_PREFIX)
    requires UniqueNames(prev.bags) && n in ids.bag && id in prev.bags && prev.bags[id] == n
    ensures id in nm.bags
  {
    assert Assigned(prev.bags, AllIds(prev), n, ids.bag[n], Slots.BAG_PREFIX);
  }

  /** A key ID that may be given is given by some choice of IDs. */
  lemma SomeKeyGetsId(c: Config, prev: NameMap, ids: Ids, nm: NameMap, b: string, id: string)
    returns (ids': Ids, nm': NameMap)
    requires DictionaryOf(c, ids, nm) && StableIds(prev, ids) && b in nm.bags
    requires MayBeGiven(KeyNames(prev, b), AllIds(prev), c.secrets[nm.bags[b]].Keys, id, Slots.KEY_PREFIX)
    ensures DictionaryOf(c, ids', nm') && StableIds(prev, ids')
    ensures nm'.bags == nm.bags && id in KeyNames(nm', b)
  {
    hide Stable, Inverse, AllIds, MayBeGiven;
    if id in nm.keys[b] {
      return ids, nm;
    }
    KeyNamesAreUsed(prev, b);
    var n := WhoMayBeGiven(KeyNames(prev, b), AllIds(prev), ids.key[b], nm.keys[b], Slots.KEY_PREFIX, id);
    MoveKeepsInverse(KeyNames(prev, b), AllIds(prev), ids.key[b], nm.keys[b], Slots.KEY_PREFIX, n, id);
    var keyIds, keyNames := ids.key[b][n := id], Moved(nm.keys[b], ids.key[b][n], id, n);
    OtherKeys(c, prev, ids, nm, b, keyIds, keyNames);
    ids', nm' := ids.(key := ids.key[b := keyIds]), nm.(keys := nm.keys[b := keyNames]);
  }

  lemma OtherKeys(c: Config, prev: NameMap, ids: Ids, nm: NameMap, b: string, keyIds: map<string, string>,
                  keyNames: map<string, string>)
    requires DictionaryOf(c, ids, nm) && StableIds(prev, ids) && b in nm.bags
    requires keyIds.Keys == ids.key[b].Keys && Inverse(keyIds, keyNames)
    requires Stable(KeyNames(prev, b), AllIds(prev), keyIds, Slots.KEY_PREFIX)
    ensures DictionaryOf(c, ids.(key := ids.key[b := keyIds]), nm.(keys := nm.keys[b := keyNames]))
    ensures StableIds(prev, ids.(key := ids.key[b := keyIds]))
  {
    hide Stable, Inverse, AllIds, KeyNames;
    var key, keys := ids.key[b := keyIds], nm.keys[b := keyNames];
    assert key.Keys == ids.key.Keys && keys.Keys == nm.keys.Keys;
    assert forall b' | b' in nm.bags :: nm.bags[b'] in c.secrets by { EveryBagHasKeys(c, ids, nm); }
    forall b' | b' in nm.bags
      ensures key[b'].Keys == c.secrets[nm.bags[b']].Keys && Inverse(key[b'], keys[b'])
      ensures Stable(KeyNames(prev, b'), AllIds(prev), key[b'], Slots.KEY_PREFIX)
    {
      if b' != b {
        assert key[b'] == ids.key[b'] && keys[b'] == nm.keys[b'];
      }
    }
  }

  lemma ForeseenMayHappen(c: Config, prev: NameMap, ids: Ids, nm: NameMap, v: Var) returns (ids': Ids, nm': NameMap)
    requires DictionaryOf(c, ids, nm) && StableIds(prev, ids) && Settled(prev)
    requires MayBeCaptured(c, prev, v)
    ensures DictionaryOf(c, ids', nm') && StableIds(prev, ids') && !NotCaptured(c, nm', v)
  {
    hide Stable, AllIds, MayBeGiven, Settled;
    if IsBlank(v.ref) || v.ref.s !in c.secrets {
      ids', nm' := SomeBagGetsId(c, prev, ids, nm, v.ref.s);
    } else {
      var b := ids.bag[v.ref.s];
      PriorKeysAre(prev, ids.bag, nm.bags, b);
      ids', nm' := SomeKeyGetsId(c, prev, ids, nm, b, v.key.s);
    }
  }

  /** Of all the dictionaries a save from prev may make, none captures a reference, if and only if none may be. */
  lemma SafeForEveryChoice(c: Config, prev: NameMap, ids0: Ids, nm0: NameMap)
    requires DictionaryOf(c, ids0, nm0) && StableIds(prev, ids0) && Settled(prev)
    ensures (forall ids, nm | DictionaryOf(c, ids, nm) && StableIds(prev, ids) :: NoCapture(c, nm))
            <==> NothingMayBeCaptured(c, prev)
  {
    hide DictionaryOf, StableIds, NotCaptured, MayBeCaptured, Settled;
    forall ids, nm, m, v | DictionaryOf(c, ids, nm) && StableIds(prev, ids) && m in c.mappings && v in m.vars
      ensures !MayBeCaptured(c, prev, v) ==> NotCaptured(c, nm, v)
    {
      if !NotCaptured(c, nm, v) {
        CapturedWasForeseen(c, prev, ids, nm, v);
      }
    }
    if m, v :| m in c.mappings && v in m.vars && MayBeCaptured(c, prev, v) {
      var ids, nm := ForeseenMayHappen(c, prev, ids0, nm0, v);
    }
  }

  // ----- a file for every choice ----------------------------------------------------------------------------------

  /** What a save writes for v, with the nonce lo. */
  function SealedOrKept(key: Key, ad: Result<string, Failure>, v: Value, lo: nat): Value {
    if IsSkipped(v) || ad.Err? then v else Sealed(key, ad.value, lo, v.s)
  }

  lemma SealsIfNamed(key: Key, ad: Result<string, Failure>, v: Value, lo: nat)
    requires IsSkipped(v) || (ad.Ok? && ad.value != "")
    ensures SealedAs(key, ad, v, SealedOrKept(key, ad, v, lo), lo)
  {
  }

  function ParamFile(key: Key, id: string, k: string, p: ParamValue, lo: nat): ParamValue {
    match p
    case Other(_) => p
    case Str(v) => Str(SealedOrKept(key, Slots.SourceParamAad(id, k), v, lo))
  }

  function SourceFile(key: Key, id: string, src: Source, lo: nat): Source {
    src.(params := map k | k in src.params :: ParamFile(key, id, k, src.params[k], lo))
  }

  function BagFile(key: Key, b: string, names: map<string, string>, kv: map<string, Value>, lo: nat): map<string, Value>
    requires forall k | k in names :: names[k] in kv
  {
    map k | k in names :: SealedOrKept(key, Slots.SecretAad(b, k), kv[names[k]], lo)
  }

  function VarFile(key: Key, i: nat, j: nat, v: Var, lo: nat): Var {
    Var(SealedOrKept(key, Slots.VarFieldAad(i, j, Slots.Name), v.name, lo),
        SealedOrKept(key, Slots.VarFieldAad(i, j, Slots.Source), v.source, lo),
        SealedOrKept(key, Slots.VarFieldAad(i, j, Slots.Ref), v.ref, lo),
        SealedOrKept(key, Slots.VarFieldAad(i, j, Slots.Key), v.key, lo),
        SealedOrKept(key, Slots.VarFieldAad(i, j, Slots.Value), v.value, lo),
        map k | k in v.extra :: SealedOrKept(key, Slots.VarExtraAad(i, j, k), v.extra[k], lo))
  }

  function MappingFile(key: Key, sources: map<string, Source>, ids: Ids, i: nat, m: Mapping, lo: nat): Mapping {
    m.(vars := seq(|m.vars|, j requires 0 <= j < |m.vars| => VarFile(key, i, j, ToIds(sources, ids, m.vars[j]), lo)))
  }

  function FieldFile(key: Key, before: NameMapField, nm: NameMap, lo: nat): NameMapField {
    if before.Blank? || OpenNameMap(key, before) != Ok(nm) then SealedNames(key, Slots.NAME_MAP_AAD, lo, nm) else before
  }

  /** The config has a name for every value a save has to seal, since one save sealed it. */
  ghost predicate Nameable(c: Config) {
    && (forall n, k | n in c.sources && k in c.sources[n].params && c.sources[n].params[k].Str? ::
          k != "" || IsSkipped(c.sources[n].params[k].v))
    && (forall m, v, k | m in c.mappings && v in m.vars && k in v.extra :: k != "" || IsSkipped(v.extra[k]))
  }

  lemma SavedIsNameable(key: Key, c: Config, ids: Ids, nm: NameMap, o: Config, lo: nat)
    requires EncryptsTo(key, c, ids, nm, o, lo)
    ensures Nameable(c)
  {
    hide EncryptsTo, IsSkipped;
    forall n, k | n in c.sources && k in c.sources[n].params && c.sources[n].params[k].Str?
      ensures k != "" || IsSkipped(c.sources[n].params[k].v)
    {
      ParamIsNamed(key, c, ids, nm, o, lo, n, k);
    }
    forall m, v, k | m in c.mappings && v in m.vars && k in v.extra ensures k != "" || IsSkipped(v.extra[k]) {
      var i :| 0 <= i < |c.mappings| && c.mappings[i] == m;
      var j :| 0 <= j < |m.vars| && m.vars[j] == v;
      assert i < |o.mappings| && MappingSealed(key, c.sources, ids, i, m, o.mappings[i], lo) by {
        MappingOfSave(key, c, ids, nm, o, lo, i);
      }
      ExtraIsNamed(key, c, ids, i, j, o.mappings[i], lo, k);
    }
  }

  lemma MappingOfSave(key: Key, c: Config, ids: Ids, nm: NameMap, o: Config, lo: nat, i: nat)
    requires EncryptsTo(key, c, ids, nm, o, lo) && i < |c.mappings|
    ensures i < |o.mappings| && MappingSealed(key, c.sources, ids, i, c.mappings[i], o.mappings[i], lo)
  {
  }

  lemma ParamIsNamed(key: Key, c: Config, ids: Ids, nm: NameMap, o: Config, lo: nat, n: string, k: string)
    requires EncryptsTo(key, c, ids, nm, o, lo) && n in c.sources
    requires k in c.sources[n].params && c.sources[n].params[k].Str?
    ensures k != "" || IsSkipped(c.sources[n].params[k].v)
  {
    hide SecretsSealed, NameMapSealed, MappingsSealed, IsSkipped;
    var id := ids.src[n];
    assert ParamSealed(key, id, k, c.sources[n].params[k], o.sources[id].params[k], lo);
    assert k == "" ==> k in ["src", id, k];
  }

  lemma ExtraIsNamed(key: Key, c: Config, ids: Ids, i: nat, j: nat, o: Mapping, lo: nat, k: string)
    requires i < |c.mappings| && MappingSealed(key, c.sources, ids, i, c.mappings[i], o, lo)
    requires j < |c.mappings[i].vars| && k in c.mappings[i].vars[j].extra
    ensures k != "" || IsSkipped(c.mappings[i].vars[j].extra[k])
  {
    var w := ToIds(c.sources, ids, c.mappings[i].vars[j]);
    assert VarSealed(key, i, j, w, o.vars[j], lo);
    assert k == "" ==> k in ["var", Text.Decimal(i), Text.Decimal(j), "extra", k];
  }

  /** A file for the given choice of IDs. */
  function FileFor(key: Key, c: Config, ids: Ids, nm: NameMap, lo: nat): Config
    requires forall id | id in nm.sources :: nm.sources[id] in c.sources
    requires forall b | b in nm.bags :: b in nm.keys && nm.bags[b] in c.secrets
    requires forall b | b in nm.bags :: forall k | k in nm.keys[b] :: nm.keys[b][k] in c.secrets[nm.bags[b]]
  {
    Config(
      c.version, c.migratedAt,
      map id | id in nm.sources :: SourceFile(key, id, c.sources[nm.sources[id]], lo),
      map b | b in nm.bags :: BagFile(key, b, nm.keys[b], c.secrets[nm.bags[b]], lo),
      seq(|c.mappings|, i requires 0 <= i < |c.mappings| => MappingFile(key, c.sources, ids, i, c.mappings[i], lo)),
      FieldFile(key, c.nameMap, nm, lo))
  }

  lemma AadOfNames(parts: seq<string>)
    requires |parts| > 0 && "" !in parts
    ensures Aad(parts).Ok? && Aad(parts).value != ""
  {
    AadIsNotEmpty(parts);
  }

  lemma SourceIsSealed(key: Key, id: string, src: Source, lo: nat)
    requires Slots.IsSourceId(id)
    requires forall k | k in src.params && src.params[k].Str? :: k != "" || IsSkipped(src.params[k].v)
    ensures ParamsSealed(key, id, src.params, SourceFile(key, id, src, lo).params, lo)
  {
    hide IsSkipped, SealedAs;
    Slots.IdHasNoDot(id, Slots.SOURCE_PREFIX);
    forall k | k in src.params
      ensures ParamSealed(key, id, k, src.params[k], ParamFile(key, id, k, src.params[k], lo), lo)
    {
      if src.params[k].Str? {
        if k != "" {
          AadOfNames(["src", id, k]);
        }
        SealsIfNamed(key, Slots.SourceParamAad(id, k), src.params[k].v, lo);
      }
    }
  }

  lemma BagIsSealedIn(key: Key, b: string, names: map<string, string>, kv: map<string, Value>, lo: nat)
    requires Slots.IsBagId(b) && forall k | k in names :: Slots.IsKeyId(k) && names[k] in kv
    ensures BagSealed(key, b, names, kv, BagFile(key, b, names, kv, lo), lo)
  {
    hide SealedAs, IsSkipped;
    Slots.IdHasNoDot(b, Slots.BAG_PREFIX);
    forall k | k in names
      ensures SealedAs(key, Slots.SecretAad(b, k), kv[names[k]], BagFile(key, b, names, kv, lo)[k], lo)
    {
      Slots.IdHasNoDot(k, Slots.KEY_PREFIX);
      AadOfNames(["secret", b, k]);
      SealsIfNamed(key, Slots.SecretAad(b, k), kv[names[k]], lo);
    }
  }

  lemma VarIsSealed(key: Key, i: nat, j: nat, v: Var, lo: nat)
    requires forall k | k in v.extra :: k != "" || IsSkipped(v.extra[k])
    ensures VarSealed(key, i, j, v, VarFile(key, i, j, v, lo), lo)
  {
    hide SealedAs, IsSkipped, SealedOrKept, Slots.VarFieldAad, Slots.VarExtraAad;
    var o := VarFile(key, i, j, v, lo);
    forall f ensures SealedAs(key, Slots.VarFieldAad(i, j, f), FieldOf(v, f), FieldOf(o, f), lo) {
      FieldAadIsOk(i, j, f);
      SealsIfNamed(key, Slots.VarFieldAad(i, j, f), FieldOf(v, f), lo);
    }
    forall k | k in v.extra ensures SealedAs(key, Slots.VarExtraAad(i, j, k), v.extra[k], o.extra[k], lo) {
      ExtraAadIsOk(i, j, k);
      SealsIfNamed(key, Slots.VarExtraAad(i, j, k), v.extra[k], lo);
    }
  }

  lemma MappingIsSealed(key: Key, c: Config, ids: Ids, i: nat, lo: nat)
    requires i < |c.mappings| && Nameable(c)
    ensures MappingSealed(key, c.sources, ids, i, c.mappings[i],
                          MappingFile(key, c.sources, ids, i, c.mappings[i], lo), lo)
  {
    hide IsSkipped, VarSealed, VarFile, ToIds;
    var m := c.mappings[i];
    forall j: nat | j < |m.vars|
      ensures VarSealed(key, i, j, ToIds(c.sources, ids, m.vars[j]),
                        VarFile(key, i, j, ToIds(c.sources, ids, m.vars[j]), lo), lo)
    {
      assert m in c.mappings && m.vars[j] in m.vars;
      ToIdsKeepsExtra(c.sources, ids, m.vars[j]);
      VarIsSealed(key, i, j, ToIds(c.sources, ids, m.vars[j]), lo);
    }
  }

  lemma ToIdsKeepsExtra(sources: map<string, Source>, ids: Ids, v: Var)
    ensures ToIds(sources, ids, v).extra == v.extra
  {
  }

  lemma ChoiceOfSources(key: Key, c: Config, nm: NameMap, o: map<string, Source>, lo: nat)
    requires WellShaped(nm) && Nameable(c) && forall id | id in nm.sources :: nm.sources[id] in c.sources
    requires o == map id | id in nm.sources :: SourceFile(key, id, c.sources[nm.sources[id]], lo)
    ensures SourcesSealed(key, c, nm, o, lo)
  {
    hide Slots.IsId, IsSkipped, ParamsSealed, SourceFile;
    forall id | id in nm.sources
      ensures o[id].typ == c.sources[nm.sources[id]].typ
      ensures ParamsSealed(key, id, c.sources[nm.sources[id]].params, o[id].params, lo)
    {
      SourceKeepsType(key, id, c.sources[nm.sources[id]], lo);
      SourceIsSealed(key, id, c.sources[nm.sources[id]], lo);
    }
  }

  lemma ChoiceOfSecrets(key: Key, c: Config, nm: NameMap, o: map<string, map<string, Value>>, lo: nat)
    requires WellShaped(nm) && KnowsBags(c, nm)
    requires o == map b | b in nm.bags :: BagFile(key, b, nm.keys[b], c.secrets[nm.bags[b]], lo)
    ensures SecretsSealed(key, c, nm, o, lo)
  {
    hide Slots.IsId, BagSealed, BagFile;
    forall b | b in nm.bags ensures BagSealed(key, b, nm.keys[b], c.secrets[nm.bags[b]], o[b], lo) {
      BagIsSealedIn(key, b, nm.keys[b], c.secrets[nm.bags[b]], lo);
    }
  }

  /** Every well-formed choice of IDs for a config that can be saved at all is that of some save. */
  lemma EveryChoiceIsSaved(key: Key, c: Config, ids: Ids, nm: NameMap, lo: nat) returns (o: Config)
    requires DictionaryOf(c, ids, nm) && WellShaped(nm) && Nameable(c)
    ensures EncryptsTo(key, c, ids, nm, o, lo)
  {
    hide DictionaryOf, WellShaped, Nameable, MappingSealed, SourcesSealed, SecretsSealed;
    hide SourceFile, BagFile, MappingFile;
    SourceIds(c, ids, nm);
    EveryBagHasKeys(c, ids, nm);
    o := FileFor(key, c, ids, nm, lo);
    ChoiceOfSources(key, c, nm, o.sources, lo);
    ChoiceOfSecrets(key, c, nm, o.secrets, lo);
    forall i: nat | i < |c.mappings| ensures MappingSealed(key, c.sources, ids, i, c.mappings[i], o.mappings[i], lo) {
      MappingIsSealed(key, c, ids, i, lo);
    }
  }

  lemma SourceKeepsType(key: Key, id: string, src: Source, lo: nat)
    ensures SourceFile(key, id, src, lo).typ == src.typ
  {
  }

  // ----- the round trip, foreseen ---------------------------------------------------------------------------------

  /** o is a file that a save of c from the dictionary prev may write. */
  ghost predicate MayWrite(key: Key, c: Config, prev: NameMap, o: Config, lo: nat) {
    exists ids, nm :: EncryptsTo(key, c, ids, nm, o, lo) && StableIds(prev, ids)
  }

  /** Before the save: whatever IDs and nonces are drawn, the file loads back as the config, if and only if no plaintext
      has the form of an envelope and no unresolved local reference reads like an ID the save may use. */
  lemma RoundTripForeseen(key: Key, c: Config, prev: NameMap, o0: Config, lo: nat)
    requires MayWrite(key, c, prev, o0, lo) && WellShaped(prev) && Settled(prev) && Validate(c)
    ensures (forall o | MayWrite(key, c, prev, o, lo) :: LoadsBackAs(key, o, c))
            <==> AllPlain(c) && NothingMayBeCaptured(c, prev)
  {
    hide EncryptsTo, StableIds, DictionaryOf, WellShaped, Settled, Validate, LoadsBackAs, AllPlain;
    hide NothingMayBeCaptured;
    hide NoCapture;
    var ids0, nm0 :| EncryptsTo(key, c, ids0, nm0, o0, lo) && StableIds(prev, ids0);
    SaveHasDictionary(key, c, ids0, nm0, o0, lo);
    SafeForEveryChoice(c, prev, ids0, nm0);
    SavedIsNameable(key, c, ids0, nm0, o0, lo);
    forall o | MayWrite(key, c, prev, o, lo) && AllPlain(c) && NothingMayBeCaptured(c, prev)
      ensures LoadsBackAs(key, o, c)
    {
      var ids, nm :| EncryptsTo(key, c, ids, nm, o, lo) && StableIds(prev, ids);
      SaveHasDictionary(key, c, ids, nm, o, lo);
      DictionaryStaysShaped(c, prev, ids, nm);
      RoundTripExactly(key, c, ids, nm, o, lo);
    }
    if forall o | MayWrite(key, c, prev, o, lo) :: LoadsBackAs(key, o, c) {
      forall ids, nm | DictionaryOf(c, ids, nm) && StableIds(prev, ids) ensures AllPlain(c) && NoCapture(c, nm) {
        DictionaryStaysShaped(c, prev, ids, nm);
        var o := EveryChoiceIsSaved(key, c, ids, nm, lo);
        assert MayWrite(key, c, prev, o, lo);
        RoundTripExactly(key, c, ids, nm, o, lo);
      }
    }
  }

  lemma SaveHasDictionary(key: Key, c: Config, ids: Ids, nm: NameMap, o: Config, lo: nat)
    requires EncryptsTo(key, c, ids, nm, o, lo)
    ensures DictionaryOf(c, ids, nm)
  {
  }

  /** The unresolved references of a local var, the ones a load may mistake, read like IDs. */
  predicate ReadsLikeId(c: Config, v: Var) {
    && IsLocalVar(c, v) && v.ref.Text?
    && if IsBlank(v.ref) || v.ref.s !in c.secrets then Slots.IsBagId(v.ref.s)
       else v.key.Text? && v.key.s !in c.secrets[v.ref.s] && Slots.IsKeyId(v.key.s)
  }

  /** References that do not read like IDs are safe. */
  lemma OnlyIdsMayBeCaptured(c: Config, prev: NameMap, v: Var)
    requires WellShaped(prev)
    ensures MayBeCaptured(c, prev, v) ==> ReadsLikeId(c, v)
  {
    hide Slots.IsId;
  }

  /** At a first save, when every name is new, the others are all at risk, given a bag or key to mint an ID for. */
  lemma FirstSaveMayCaptureAnyId(c: Config, v: Var)
    requires ReadsLikeId(c, v)
    ensures MayBeCaptured(c, EMPTY_NAME_MAP, v) <==>
            if IsBlank(v.ref) || v.ref.s !in c.secrets then c.secrets != map[] else c.secrets[v.ref.s] != map[]
  {
    var names := if IsBlank(v.ref) || v.ref.s !in c.secrets then c.secrets.Keys else c.secrets[v.ref.s].Keys;
    if n :| n in names {
      assert n !in EMPTY_NAME_MAP.bags.Values;
    }
  }
}
