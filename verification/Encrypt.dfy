/** EncryptInPlace: the live, name-keyed config is rewritten into its ID-keyed, sealed form
    (internal/config/encrypt.go). */
module Encrypt {
  import opened Wrappers
  import opened Envelope
  import opened ConfigModel
  import opened EncryptSpec
  import opened NameId
  import opened Live
  import Slots
  import Text

  // ----- step 1: the dictionary -----------------------------------------------------------------------------------

  function AllIds(prev: NameMap): set<string> {
    prev.sources.Keys + prev.bags.Keys + (set b, k | b in prev.keys && k in prev.keys[b] :: k)
  }

  /** A name the prior dictionary knows keeps an ID that had this name; any other name gets an ID that no part of the
      prior dictionary uses. */
  ghost predicate Assigned(prevNames: map<string, string>, used: set<string>, name: string, id: string,
                           prefix: string) {
    if name in prevNames.Values then id in prevNames && prevNames[id] == name
    else id !in used && Slots.IsId(id, prefix)
  }

  ghost predicate Stable(prevNames: map<string, string>, used: set<string>, ids: map<string, string>, prefix: string) {
    forall n | n in ids :: Assigned(prevNames, used, n, ids[n], prefix)
  }

  ghost predicate StableIds(prev: NameMap, ids: Ids) {
    && Stable(prev.sources, AllIds(prev), ids.src, Slots.SOURCE_PREFIX)
    && Stable(prev.bags, AllIds(prev), ids.bag, Slots.BAG_PREFIX)
    && forall b | b in ids.key :: Stable(KeyNames(prev, b), AllIds(prev), ids.key[b], Slots.KEY_PREFIX)
  }

  /** Reuses the prior ID of a name or mints one. */
  method AssignId(name: string, ghost prevNames: map<string, string>, prevIds: map<string, string>, prefix: string,
                  ghost used: set<string>, taken: set<string>, rng: Entropy, ghost lo: nat)
    returns (r: Result<string, Failure>, taken': set<string>)
    requires SomeInverse(prevNames, prevIds) && prevNames.Keys <= used <= taken && prefix in PREFIXES
    requires lo <= rng.next && TakenOnly(taken, used, rng.tape, lo, rng.next)
    modifies rng
    ensures taken <= taken' && rng.next >= old(rng.next)
    ensures r.Ok? ==> TakenOnly(taken', used, rng.tape, lo, rng.next)
    ensures r.Err? ==> r.error == NoFreeId && Exhausted(used, rng.tape, lo, rng.next)
    ensures r.Ok? ==> r.value in taken' && Assigned(prevNames, used, name, r.value, prefix)
    ensures r.Ok? && name !in prevNames.Values ==> r.value !in taken
  {
    taken' := taken;
    if name in prevIds {
      r := Ok(prevIds[name]);
    } else {
      r := NewId(prefix, taken, rng);
      if r.Ok? {
        taken' := taken + {r.value};
        MintedIsDrawn(prefix, taken, used, rng.tape, lo, old(rng.next), rng.next);
      } else {
        AllDrawsTaken(prefix, taken, used, rng.tape, lo, rng.next);
      }
    }
  }

  lemma MintedIsDrawn(prefix: string, taken: set<string>, used: set<string>, tape: nat -> nat, lo: nat, hi: nat,
                      hi': nat)
    requires prefix in PREFIXES && TakenOnly(taken, used, tape, lo, hi) && lo <= hi < hi'
    ensures TakenOnly(taken + {Candidate(prefix, tape(hi' - 1))}, used, tape, lo, hi')
  {
    MoreDraws(taken, used, tape, lo, hi, hi');
    assert Candidate(prefix, tape(hi' - 1)) in Drawn(tape, lo, hi');
  }

  lemma AllDrawsTaken(prefix: string, taken: set<string>, used: set<string>, tape: nat -> nat, lo: nat, hi: nat)
    requires lo + ATTEMPTS <= hi && prefix in PREFIXES && TakenOnly(taken, used, tape, lo, hi - ATTEMPTS)
    requires forall k | hi - ATTEMPTS <= k < hi :: Candidate(prefix, tape(k)) in taken
    ensures Exhausted(used, tape, lo, hi)
  {
  }

  /** An ID given to a further name is not the ID of an earlier one. */
  lemma NextIdIsNew(prevNames: map<string, string>, used: set<string>, ids: map<string, string>,
                    idToName: map<string, string>, prefix: string, taken: set<string>, name: string, id: string)
    requires prevNames.Keys <= used && idToName.Keys <= taken
    requires Inverse(ids, idToName) && Stable(prevNames, used, ids, prefix) && name !in ids
    requires Assigned(prevNames, used, name, id, prefix) && (name !in prevNames.Values ==> id !in taken)
    ensures id !in idToName
    ensures Inverse(ids[name := id], idToName[id := name]) && Stable(prevNames, used, ids[name := id], prefix)
  {
    assert id in idToName ==> Assigned(prevNames, used, idToName[id], id, prefix);
  }

  lemma NothingAssigned(prevNames: map<string, string>, used: set<string>, prefix: string)
    ensures Inverse(map[], map[]) && Stable(prevNames, used, map[], prefix)
  {
  }

  /** Gives every name an ID, reusing the prior one where there is one. */
  method AssignIds(names: set<string>, prevNames: map<string, string>, prefix: string, ghost used: set<string>,
                   taken: set<string>, rng: Entropy, ghost lo: nat)
    returns (r: Result<(), Failure>, ids: map<string, string>, idToName: map<string, string>, taken': set<string>)
    requires prevNames.Keys <= used <= taken && prefix in PREFIXES
    requires lo <= rng.next && TakenOnly(taken, used, rng.tape, lo, rng.next)
    modifies rng
    ensures taken <= taken' && rng.next >= old(rng.next)
    ensures r.Ok? ==> TakenOnly(taken', used, rng.tape, lo, rng.next)
    ensures r.Err? ==> r.error == NoFreeId && Exhausted(used, rng.tape, lo, rng.next)
    ensures r.Ok? ==> ids.Keys == names && Inverse(ids, idToName) && Stable(prevNames, used, ids, prefix)
    ensures r.Ok? ==> idToName.Keys <= taken'
  {
    hide TakenOnly, Exhausted, Inverse, Stable, Assigned, SomeInverse;
    ids, idToName, taken' := map[], map[], taken;
    NothingAssigned(prevNames, used, prefix);
    var prevIds := NameToId(prevNames);
    var todo := names;
    while todo != {}
      invariant todo <= names && ids.Keys == names - todo
      invariant taken <= taken' && idToName.Keys <= taken' && rng.next >= old(rng.next)
      invariant TakenOnly(taken', used, rng.tape, lo, rng.next)
      invariant Inverse(ids, idToName) && Stable(prevNames, used, ids, prefix)
      decreases todo
    {
      var name :| name in todo;
      todo := todo - {name};
      var r', taken'' := AssignId(name, prevNames, prevIds, prefix, used, taken', rng, lo);
      if r'.Err? {
        return Err(r'.error), ids, idToName, taken';
      }
      NextIdIsNew(prevNames, used, ids, idToName, prefix, taken', name, r'.value);
      ids, idToName, taken' := ids[name := r'.value], idToName[r'.value := name], taken'';
    }
    return Ok(()), ids, idToName, taken';
  }

  /** What is known of one bag's keys. */
  ghost predicate BagDone(keys: set<string>, prev: NameMap, b: string, keyIds: map<string, string>,
                          keyNames: map<string, string>) {
    && keyIds.Keys == keys && Inverse(keyIds, keyNames)
    && Stable(KeyNames(prev, b), AllIds(prev), keyIds, Slots.KEY_PREFIX)
  }

  /** What is known of the bags done so far; keysOf gives the key names of every bag. */
  ghost predicate BagsDone(keysOf: map<string, set<string>>, done: set<string>, prev: NameMap, ids: Ids, nm: NameMap) {
    && ids.bag.Keys == done <= keysOf.Keys && Inverse(ids.bag, nm.bags)
    && ids.key.Keys == nm.keys.Keys == nm.bags.Keys
    && forall b | b in nm.bags :: BagDone(keysOf[nm.bags[b]], prev, b, ids.key[b], nm.keys[b])
  }

  lemma OneMoreBag(keysOf: map<string, set<string>>, done: set<string>, prev: NameMap, ids: Ids, nm: NameMap,
                   bag: string, bagId: string, keyIds: map<string, string>, keyNames: map<string, string>)
    requires BagsDone(keysOf, done, prev, ids, nm)
    requires bag in keysOf && bag !in done && bagId !in nm.bags
    requires BagDone(keysOf[bag], prev, bagId, keyIds, keyNames)
    ensures BagsDone(keysOf, done + {bag}, prev, ids.(bag := ids.bag[bag := bagId], key := ids.key[bagId := keyIds]),
                     nm.(bags := nm.bags[bagId := bag], keys := nm.keys[bagId := keyNames]))
  {
    hide BagDone;
  }

  /** The ID of one bag, and those of its keys. */
  method AssignBag(bag: string, names: set<string>, prev: NameMap, prevIds: map<string, string>, taken: set<string>,
                   rng: Entropy, ghost lo: nat)
    returns (r: Result<string, Failure>, keyIds: map<string, string>, keyNames: map<string, string>,
             taken': set<string>)
    requires SomeInverse(prev.bags, prevIds) && AllIds(prev) <= taken
    requires lo <= rng.next && TakenOnly(taken, AllIds(prev), rng.tape, lo, rng.next)
    modifies rng
    ensures taken <= taken' && rng.next >= old(rng.next)
    ensures r.Ok? ==> TakenOnly(taken', AllIds(prev), rng.tape, lo, rng.next) && r.value in taken'
    ensures r.Ok? ==> Assigned(prev.bags, AllIds(prev), bag, r.value, Slots.BAG_PREFIX)
    ensures r.Ok? && bag !in prev.bags.Values ==> r.value !in taken
    ensures r.Ok? ==> BagDone(names, prev, r.value, keyIds, keyNames)
    ensures r.Err? ==> r.error == NoFreeId && Exhausted(AllIds(prev), rng.tape, lo, rng.next)
  {
    hide BagDone, Stable, Assigned, Inverse, SomeInverse, TakenOnly, Exhausted, AllIds;
    ghost var used := AllIds(prev);
    keyIds, keyNames := map[], map[];
    BagsAreUsed(prev);
    r, taken' := AssignId(bag, prev.bags, prevIds, Slots.BAG_PREFIX, used, taken, rng, lo);
    if r.Ok? {
      KeyNamesAreUsed(prev, r.value);
      var r';
      r', keyIds, keyNames, taken' := AssignIds(names, KeyNames(prev, r.value), Slots.KEY_PREFIX, used, taken', rng,
                                                lo);
      if r'.Err? {
        return Err(r'.error), keyIds, keyNames, taken';
      }
      OneBag(names, prev, r.value, keyIds, keyNames);
    }
  }

  lemma BagsAreUsed(prev: NameMap)
    ensures prev.bags.Keys <= AllIds(prev)
  {
  }

  method BuildBags(secrets: map<string, StrMap>, prev: NameMap, taken: set<string>, rng: Entropy, src: Ids,
                   nm0: NameMap, ghost keysOf: map<string, set<string>>, ghost lo: nat)
    returns (r: Result<(), Failure>, ids: Ids, nm: NameMap)
    requires AllIds(prev) <= taken && lo <= rng.next && TakenOnly(taken, AllIds(prev), rng.tape, lo, rng.next)
    requires keysOf.Keys == secrets.Keys && forall b | b in secrets :: keysOf[b] == secrets[b].m.Keys
    requires src.bag == map[] && src.key == map[] && nm0.bags == map[] && nm0.keys == map[]
    modifies rng
    ensures rng.next >= old(rng.next)
    ensures r.Err? ==> r.error == NoFreeId && Exhausted(AllIds(prev), rng.tape, lo, rng.next)
    ensures ids.src == src.src && nm.sources == nm0.sources
    ensures r.Ok? ==> BagsDone(keysOf, secrets.Keys, prev, ids, nm)
    ensures r.Ok? ==> Stable(prev.bags, AllIds(prev), ids.bag, Slots.BAG_PREFIX)
  {
    hide BagDone, Stable, Assigned, Inverse, SomeInverse, TakenOnly, Exhausted, AllIds;
    ghost var used := AllIds(prev);
    ids, nm := src, nm0;
    var taken' := taken;
    var prevIds := NameToId(prev.bags);
    NothingDone(keysOf, prev, ids, nm);
    BagsAreUsed(prev);
    var todo := secrets.Keys;
    while todo != {}
      invariant todo <= secrets.Keys && used <= taken'
      invariant rng.next >= old(rng.next) && TakenOnly(taken', used, rng.tape, lo, rng.next)
      invariant ids.src == src.src && nm.sources == nm0.sources
      invariant nm.bags.Keys <= taken'
      invariant BagsDone(keysOf, secrets.Keys - todo, prev, ids, nm)
      invariant Stable(prev.bags, used, ids.bag, Slots.BAG_PREFIX)
      decreases todo
    {
      var bag :| bag in todo;
      ghost var done := secrets.Keys - todo;
      todo := todo - {bag};
      assert secrets.Keys - todo == done + {bag};
      var r', keyIds, keyNames, taken1 := AssignBag(bag, secrets[bag].m.Keys, prev, prevIds, taken', rng, lo);
      if r'.Err? {
        return Err(r'.error), ids, nm;
      }
      var bagId := r'.value;
      NextIdIsNew(prev.bags, used, ids.bag, nm.bags, Slots.BAG_PREFIX, taken', bag, bagId);
      taken' := taken1;
      OneMoreBag(keysOf, done, prev, ids, nm, bag, bagId, keyIds, keyNames);
      ids := ids.(bag := ids.bag[bag := bagId], key := ids.key[bagId := keyIds]);
      nm := nm.(bags := nm.bags[bagId := bag], keys := nm.keys[bagId := keyNames]);
    }
    assert secrets.Keys - todo == secrets.Keys;
    return Ok(()), ids, nm;
  }

  lemma NothingDone(keysOf: map<string, set<string>>, prev: NameMap, ids: Ids, nm: NameMap)
    requires ids.bag == map[] && ids.key == map[] && nm.bags == map[] && nm.keys == map[]
    ensures BagsDone(keysOf, {}, prev, ids, nm)
    ensures forall names, used, prefix :: Stable(names, used, ids.bag, prefix)
  {
  }

  lemma OneBag(keys: set<string>, prev: NameMap, b: string, keyIds: map<string, string>, keyNames: map<string, string>)
    requires keyIds.Keys == keys && Inverse(keyIds, keyNames)
    requires Stable(KeyNames(prev, b), AllIds(prev), keyIds, Slots.KEY_PREFIX)
    ensures BagDone(keys, prev, b, keyIds, keyNames)
  {
  }

  lemma KeyNamesAreUsed(prev: NameMap, b: string)
    ensures KeyNames(prev, b).Keys <= AllIds(prev)
  {
  }

  lemma DictionaryIsComplete(c: Config, prev: NameMap, ids: Ids, nm: NameMap)
    requires ids.src.Keys == c.sources.Keys && Inverse(ids.src, nm.sources)
    requires BagsDone(map b | b in c.secrets :: c.secrets[b].Keys, c.secrets.Keys, prev, ids, nm)
    ensures DictionaryOf(c, ids, nm)
    ensures forall b | b in ids.key :: Stable(KeyNames(prev, b), AllIds(prev), ids.key[b], Slots.KEY_PREFIX)
  {
    hide Inverse, Stable;
    var keysOf := map b | b in c.secrets :: c.secrets[b].Keys;
    forall b | b in nm.bags
      ensures nm.bags[b] in c.secrets
      ensures ids.key[b].Keys == c.secrets[nm.bags[b]].Keys && Inverse(ids.key[b], nm.keys[b])
      ensures Stable(KeyNames(prev, b), AllIds(prev), ids.key[b], Slots.KEY_PREFIX)
    {
      assert nm.bags[b] in keysOf by {
        BagNamesAreBags(ids.bag, nm.bags, keysOf.Keys, b);
      }
      assert BagDone(keysOf[nm.bags[b]], prev, b, ids.key[b], nm.keys[b]);
    }
  }

  lemma BagNamesAreBags(bags: map<string, string>, names: map<string, string>, all: set<string>, b: string)
    requires bags.Keys <= all && Inverse(bags, names) && b in names
    ensures names[b] in all
  {
  }

  /** A dictionary of exactly the sources, bags and keys of c. */
  method BuildDictionary(c: LiveConfig, prev: NameMap, rng: Entropy)
    returns (r: Result<(), Failure>, ids: Ids, nm: NameMap)
    modifies rng
    ensures rng.next >= old(rng.next)
    ensures r.Err? ==> r.error == NoFreeId && Exhausted(AllIds(prev), rng.tape, old(rng.next), rng.next)
    ensures r.Ok? ==> DictionaryOf(c.Content(), ids, nm) && StableIds(prev, ids)
  {
    hide Stable, Inverse, BagsDone, AllIds, SomeInverse, Assigned, DictionaryOf, Exhausted;
    ghost var used, lo := AllIds(prev), rng.next;
    assert prev.sources.Keys <= used by { SourcesAreUsed(prev); }
    var all := AllIds(prev);
    var r', src, sources, taken := AssignIds(c.sources.Keys, prev.sources, Slots.SOURCE_PREFIX, used, all, rng, lo);
    ids, nm := Ids(src, map[], map[]), NameMap(sources, map[], map[]);
    if r'.Err? {
      return Err(r'.error), ids, nm;
    }
    ghost var keysOf := map b | b in c.secrets :: c.secrets[b].m.Keys;
    r, ids, nm := BuildBags(c.secrets, prev, taken, rng, ids, nm, keysOf, lo);
    if r.Ok? {
      ghost var content := c.Content();
      assert keysOf == map b | b in content.secrets :: content.secrets[b].Keys;
      DictionaryIsComplete(content, prev, ids, nm);
    }
  }

  lemma SourcesAreUsed(prev: NameMap)
    ensures prev.sources.Keys <= AllIds(prev)
  {
  }

  // ----- step 2: sealing the values -------------------------------------------------------------------------------

  /** Seals one string in the slot whose associated data is ad. An empty part of ad panics in the source. */
  method SealValue(key: Key, v: Value, ad: Result<string, Failure>, rng: Entropy, ghost lo: nat)
    returns (r: Result<Value, Failure>)
    requires lo <= rng.next
    requires ad.Ok? ==> ad.value != ""
    modifies rng
    ensures rng.next >= old(rng.next)
    ensures r.Ok? ==> SealedAs(key, ad, v, r.value, lo)
    ensures r.Ok? && !IsSkipped(v) ==> r.value.nonce == old(rng.next) && rng.next == old(rng.next) + 1
    ensures r.Err? <==> !IsSkipped(v) && ad.Err?
    ensures r.Err? ==> r.error == ad.error
  {
    if IsSkipped(v) {
      return Ok(v);
    }
    if ad.Err? {
      return Err(ad.error);
    }
    r := EncryptField(key, v.s, ad.value, rng);
  }

  lemma AadIsNotEmpty(parts: seq<string>)
    requires |parts| > 0 && Aad(parts).Ok?
    ensures Aad(parts).value != ""
  {
    assert parts[0] in parts;
  }

  method SealParams(p: ParamMap, id: string, key: Key, rng: Entropy, ghost lo: nat) returns (r: Result<(), Failure>)
    requires lo <= rng.next
    modifies p, rng
    ensures rng.next >= old(rng.next)
    ensures r.Ok? ==> ParamsSealed(key, id, old(p.m), p.m, lo)
    ensures r.Err? ==> r.error == EmptyAadPart && (id == "" || "" in old(p.m))
  {
    var todo := p.m.Keys;
    while todo != {}
      invariant todo <= p.m.Keys == old(p.m.Keys) && rng.next >= old(rng.next)
      invariant forall k | k in todo :: p.m[k] == old(p.m[k])
      invariant forall k | k in p.m && k !in todo :: ParamSealed(key, id, k, old(p.m[k]), p.m[k], lo)
      decreases todo
    {
      var k :| k in todo;
      todo := todo - {k};
      if p.m[k].Str? {
        var ad := Slots.SourceParamAad(id, k);
        if ad.Ok? {
          AadIsNotEmpty(["src", id, k]);
        }
        var env := SealValue(key, p.m[k].v, ad, rng, lo);
        if env.Err? {
          return Err(env.error);
        }
        p.m := p.m[k := Str(env.value)];
      }
    }
    return Ok(());
  }

  /** Rekeys the sources by ID and seals their parameters in place. */
  method SealSources(c: LiveConfig, src: map<string, string>, ghost names: map<string, string>, key: Key, rng: Entropy,
                     ghost lo: nat)
    returns (r: Result<(), Failure>)
    requires lo <= rng.next && ParamsApart(c.sources)
    requires src.Keys == c.sources.Keys && Inverse(src, names)
    modifies c`sources, ParamObjs(c.sources), rng
    ensures rng.next >= old(rng.next)
    ensures r.Ok? ==> c.sources.Keys == names.Keys
    ensures r.Ok? ==> forall id | id in names ::
      && c.sources[id] == old(c.sources)[names[id]]
      && ParamsSealed(key, id, old(c.sources[names[id]].params.m), c.sources[id].params.m, lo)
    ensures r.Err? ==>
      (r.error == EmptyAadPart && exists n | n in old(c.sources) :: src[n] == "" || "" in old(c.sources[n].params.m))
    ensures r.Err? ==> c.sources == old(c.sources)
  {
    hide ParamsSealed, Inverse, SomeSealed;
    ghost var plain := map n | n in c.sources :: c.sources[n].params.m;
    var byId;
    r, byId := SealBySource(c.sources, src, names, plain, key, rng, lo);
    if r.Ok? {
      c.sources := byId;
    }
  }

  /** The loop over the sources. */
  method SealBySource(sources: map<string, SourceRec>, src: map<string, string>, ghost names: map<string, string>,
                      ghost plain: map<string, map<string, ParamValue>>, key: Key, rng: Entropy, ghost lo: nat)
    returns (r: Result<(), Failure>, byId: map<string, SourceRec>)
    requires lo <= rng.next && ParamsApart(sources) && src.Keys == sources.Keys == plain.Keys && Inverse(src, names)
    requires forall n | n in sources :: sources[n].params.m == plain[n]
    modifies ParamObjs(sources), rng
    ensures rng.next >= old(rng.next)
    ensures r.Ok? ==> byId.Keys == names.Keys && forall id | id in names ::
      && names[id] in sources && byId[id] == sources[names[id]]
      && ParamsSealed(key, id, plain[names[id]], sources[names[id]].params.m, lo)
    ensures r.Err? ==> r.error == EmptyAadPart && exists n | n in sources :: src[n] == "" || "" in plain[n]
  {
    InverseCovers(src, names);
    hide ParamsSealed, SomeSealed, Inverse, ByIdBut, ParamsApart;
    byId := map[];
    NoneById(sources, names);
    var todo := sources.Keys;
    NoneSealed(key, sources, names, todo, plain, lo);
    while todo != {}
      invariant todo <= sources.Keys && rng.next >= old(rng.next)
      invariant SomeSealed(key, sources, names, todo, plain, lo)
      invariant ByIdBut(sources, names, todo, byId)
      decreases todo
    {
      var n :| n in todo;
      ghost var was := todo;
      todo := todo - {n};
      assert todo + {n} == was && sources[n].params in ParamObjs(sources);
      r := SealOneSource(sources, n, todo, src, names, plain, key, rng, lo);
      if r.Err? {
        return;
      }
      OneMoreById(sources, src, names, todo, byId, n);
      byId := byId[src[n] := sources[n]];
    }
    AllById(sources, names, byId);
    AllSealed(key, sources, names, plain, lo);
    return Ok(()), byId;
  }

  /** The records outside todo are under their IDs. */
  ghost predicate ByIdBut(sources: map<string, SourceRec>, names: map<string, string>, todo: set<string>,
                          byId: map<string, SourceRec>) {
    && (forall id | id in byId ::
          id in names && names[id] !in todo && names[id] in sources && byId[id] == sources[names[id]])
    && (forall id | id in names && names[id] !in todo :: id in byId)
  }

  lemma NoneById(sources: map<string, SourceRec>, names: map<string, string>)
    requires forall id | id in names :: names[id] in sources
    ensures ByIdBut(sources, names, sources.Keys, map[])
  {
  }

  lemma OneMoreById(sources: map<string, SourceRec>, src: map<string, string>, names: map<string, string>,
                    todo: set<string>, byId: map<string, SourceRec>, n: string)
    requires Inverse(src, names) && n in src && n in sources && n !in todo
    requires ByIdBut(sources, names, todo + {n}, byId)
    ensures ByIdBut(sources, names, todo, byId[src[n] := sources[n]])
  {
    InverseAt(src, names, n);
    hide Inverse;
  }

  lemma AllById(sources: map<string, SourceRec>, names: map<string, string>, byId: map<string, SourceRec>)
    requires ByIdBut(sources, names, {}, byId)
    ensures byId.Keys == names.Keys
    ensures forall id | id in names :: names[id] in sources && byId[id] == sources[names[id]]
  {
  }

  lemma InverseAt(src: map<string, string>, names: map<string, string>, n: string)
    requires Inverse(src, names) && n in src
    ensures src[n] in names && names[src[n]] == n && forall id | id in names && names[id] == n :: id == src[n]
  {
  }

  lemma InverseCovers(src: map<string, string>, names: map<string, string>)
    requires Inverse(src, names)
    ensures forall id | id in names :: names[id] in src
  {
  }

  /** The sources outside todo have their parameters sealed, the others still have them plain. */
  ghost predicate SomeSealed(key: Key, sources: map<string, SourceRec>, names: map<string, string>, todo: set<string>,
                             plain: map<string, map<string, ParamValue>>, lo: nat)
    reads ParamObjs(sources)
  {
    && (forall n | n in todo :: n in sources && n in plain && sources[n].params.m == plain[n])
    && forall id | id in names && names[id] !in todo ::
      && names[id] in sources && names[id] in plain
      && ParamsSealed(key, id, plain[names[id]], sources[names[id]].params.m, lo)
  }

  lemma NoneSealed(key: Key, sources: map<string, SourceRec>, names: map<string, string>, todo: set<string>,
                   plain: map<string, map<string, ParamValue>>, lo: nat)
    requires todo == sources.Keys == plain.Keys && forall n | n in sources :: sources[n].params.m == plain[n]
    requires forall id | id in names :: names[id] in sources
    ensures SomeSealed(key, sources, names, todo, plain, lo)
  {
  }

  lemma AllSealed(key: Key, sources: map<string, SourceRec>, names: map<string, string>,
                  plain: map<string, map<string, ParamValue>>, lo: nat)
    requires SomeSealed(key, sources, names, {}, plain, lo)
    ensures forall id | id in names ::
      && names[id] in sources && names[id] in plain
      && ParamsSealed(key, id, plain[names[id]], sources[names[id]].params.m, lo)
  {
    hide ParamsSealed;
  }

  /** One round of the loop over the sources. */
  method SealOneSource(sources: map<string, SourceRec>, n: string, ghost todo: set<string>, src: map<string, string>,
                       ghost names: map<string, string>, ghost plain: map<string, map<string, ParamValue>>, key: Key,
                       rng: Entropy, ghost lo: nat)
    returns (r: Result<(), Failure>)
    requires lo <= rng.next && ParamsApart(sources) && n in sources && n !in todo && todo <= sources.Keys
    requires Inverse(src, names) && n in src
    requires SomeSealed(key, sources, names, todo + {n}, plain, lo)
    modifies sources[n].params, rng
    ensures rng.next >= old(rng.next)
    ensures r.Ok? ==> SomeSealed(key, sources, names, todo, plain, lo)
    ensures r.Err? ==> r.error == EmptyAadPart && n in plain && (src[n] == "" || "" in plain[n])
  {
    hide ParamsSealed;
    assert n in todo + {n};
    r := SealParams(sources[n].params, src[n], key, rng, lo);
    assert forall m | m in sources && m != n :: sources[m].params.m == old(sources[m].params.m);
  }

  /** A fresh, ID-keyed and sealed copy of one bag. */
  method SealBag(kv: StrMap, bagId: string, keyIds: map<string, string>, ghost names: map<string, string>, key: Key,
                 rng: Entropy, ghost lo: nat)
    returns (r: Result<(), Failure>, bag: StrMap)
    requires lo <= rng.next
    requires keyIds.Keys == kv.m.Keys && Inverse(keyIds, names)
    modifies rng
    ensures rng.next >= old(rng.next)
    ensures fresh(bag)
    ensures r.Ok? ==> BagSealed(key, bagId, names, kv.m, bag.m, lo)
    ensures r.Err? ==> r.error == EmptyAadPart && (bagId == "" || exists k | k in keyIds :: keyIds[k] == "")
  {
    bag := new StrMap(map[]);
    var todo := kv.m.Keys;
    while todo != {}
      invariant todo <= kv.m.Keys && rng.next >= old(rng.next)
      invariant forall id | id in bag.m ::
        id in names && names[id] !in todo && SealedAs(key, Slots.SecretAad(bagId, id), kv.m[names[id]], bag.m[id], lo)
      invariant forall id | id in names && names[id] !in todo :: id in bag.m
      decreases todo
    {
      var k :| k in todo;
      todo := todo - {k};
      var ad := Slots.SecretAad(bagId, keyIds[k]);
      if ad.Ok? {
        AadIsNotEmpty(["secret", bagId, keyIds[k]]);
      }
      var env := SealValue(key, kv.m[k], ad, rng, lo);
      if env.Err? {
        return Err(env.error), bag;
      }
      bag.m := bag.m[keyIds[k] := env.value];
    }
    return Ok(()), bag;
  }

  lemma IdOfBag(content: Config, ids: Ids, nm: NameMap, bag: string)
    requires DictionaryOf(content, ids, nm) && bag in content.secrets
    ensures bag in ids.bag && ids.bag[bag] in nm.bags && nm.bags[ids.bag[bag]] == bag
    ensures forall b | b in nm.bags && nm.bags[b] == bag :: b == ids.bag[bag]
    ensures ids.bag[bag] in ids.key && ids.bag[bag] in nm.keys
    ensures ids.key[ids.bag[bag]].Keys == content.secrets[bag].Keys
    ensures Inverse(ids.key[ids.bag[bag]], nm.keys[ids.bag[bag]])
  {
  }

  lemma EveryBagHasKeys(content: Config, ids: Ids, nm: NameMap)
    requires DictionaryOf(content, ids, nm)
    ensures forall b | b in nm.bags :: b in nm.keys && nm.bags[b] in content.secrets
    ensures forall b | b in nm.bags :: forall k | k in nm.keys[b] :: nm.keys[b][k] in content.secrets[nm.bags[b]]
  {
  }

  /** The bags and bag keys of the dictionary are ones of the config. */
  ghost predicate KnowsBags(content: Config, nm: NameMap) {
    && (forall b | b in nm.bags :: b in nm.keys && nm.bags[b] in content.secrets)
    && (forall b | b in nm.bags :: forall k | k in nm.keys[b] :: nm.keys[b][k] in content.secrets[nm.bags[b]])
  }

  /** Every bag but the ones to do is sealed under its ID. */
  ghost predicate SealedBut(key: Key, content: Config, nm: NameMap, todo: set<string>,
                            o: map<string, map<string, Value>>, lo: nat)
    requires KnowsBags(content, nm)
  {
    && (forall b | b in o :: b in nm.bags && nm.bags[b] !in todo)
    && (forall b | b in o :: BagSealed(key, b, nm.keys[b], content.secrets[nm.bags[b]], o[b], lo))
    && (forall b | b in nm.bags && nm.bags[b] !in todo :: b in o)
  }

  /** The bag is sealed under its one ID. */
  ghost predicate BagIsSealed(key: Key, content: Config, ids: Ids, nm: NameMap, bag: string, o: map<string, Value>,
                              lo: nat) {
    && bag in content.secrets && bag in ids.bag
    && var b := ids.bag[bag];
       && b in nm.bags && nm.bags[b] == bag && b in nm.keys
       && (forall b' | b' in nm.bags && nm.bags[b'] == bag :: b' == b)
       && (forall k | k in nm.keys[b] :: nm.keys[b][k] in content.secrets[bag])
       && BagSealed(key, b, nm.keys[b], content.secrets[bag], o, lo)
  }

  lemma BagsAreKnown(content: Config, ids: Ids, nm: NameMap)
    requires DictionaryOf(content, ids, nm)
    ensures KnowsBags(content, nm)
  {
    EveryBagHasKeys(content, ids, nm);
  }

  lemma OneMoreSealed(key: Key, content: Config, ids: Ids, nm: NameMap, todo: set<string>,
                      o: map<string, map<string, Value>>, lo: nat, bag: string, sealed: map<string, Value>)
    requires KnowsBags(content, nm)
    requires SealedBut(key, content, nm, todo, o, lo)
    requires BagIsSealed(key, content, ids, nm, bag, sealed, lo)
    ensures SealedBut(key, content, nm, todo - {bag}, o[ids.bag[bag] := sealed], lo)
  {
    hide BagSealed;
  }

  lemma NothingSealed(key: Key, content: Config, nm: NameMap, lo: nat)
    requires KnowsBags(content, nm)
    ensures SealedBut(key, content, nm, content.secrets.Keys, map[], lo)
    ensures BagsApart(map[]) && HaveContent(map[], map[])
  {
  }

  lemma AllBagsSealed(key: Key, content: Config, nm: NameMap, o: map<string, map<string, Value>>, lo: nat)
    requires KnowsBags(content, nm)
    requires SealedBut(key, content, nm, {}, o, lo)
    ensures SecretsSealed(key, content, nm, o, lo)
  {
    hide BagSealed;
  }

  predicate HaveContent(bags: map<string, StrMap>, content: map<string, map<string, Value>>)
    reads bags.Values
  {
    bags.Keys == content.Keys && forall b | b in bags :: bags[b].m == content[b]
  }

  lemma OneMoreContent(bags: map<string, StrMap>, content: map<string, map<string, Value>>, b: string, bag: StrMap)
    requires BagsApart(bags) && bag !in bags.Values && HaveContent(bags, content)
    ensures BagsApart(bags[b := bag]) && HaveContent(bags[b := bag], content[b := bag.m])
  {
  }

  lemma ContentIs(bags: map<string, StrMap>, content: map<string, map<string, Value>>)
    requires HaveContent(bags, content)
    ensures SecretsContent(bags) == content
  {
  }

  /** Fresh ID-keyed, sealed copies of all bags; the maps it reads stay as they are. */
  method SealSecrets(secrets: map<string, StrMap>, ids: Ids, ghost nm: NameMap, ghost content: Config, key: Key,
                     rng: Entropy, ghost lo: nat)
    returns (r: Result<(), Failure>, byId: map<string, StrMap>)
    requires lo <= rng.next
    requires DictionaryOf(content, ids, nm) && content.secrets == SecretsContent(secrets)
    modifies rng
    ensures rng.next >= old(rng.next)
    ensures fresh(BagObjs(byId)) && BagsApart(byId)
    ensures r.Ok? ==> SecretsSealed(key, content, nm, SecretsContent(byId), lo)
    ensures r.Err? ==> r.error == EmptyAadPart && ("" in nm.bags || exists b | b in nm.keys :: "" in nm.keys[b])
  {
    hide DictionaryOf, Inverse, BagSealed, SecretsSealed, BagsApart, SealedBut, HaveContent;
    hide KnowsBags, BagIsSealed;
    BagsAreKnown(content, ids, nm);
    ghost var done: map<string, map<string, Value>> := map[];
    byId := map[];
    NothingSealed(key, content, nm, lo);
    var todo := secrets.Keys;
    assert content.secrets.Keys == secrets.Keys && forall b | b in secrets :: content.secrets[b] == secrets[b].m;
    hide SecretsContent;
    while todo != {}
      invariant todo <= secrets.Keys && rng.next >= old(rng.next)
      invariant forall b | b in byId :: fresh(byId[b])
      invariant BagsApart(byId) && HaveContent(byId, done) && SealedBut(key, content, nm, todo, done, lo)
      decreases todo
    {
      var bag :| bag in todo;
      var r', bagId, sealed := SealOneBag(secrets[bag], bag, ids, nm, content, key, rng, lo);
      if r'.Err? {
        return Err(r'.error), byId;
      }
      OneMoreContent(byId, done, bagId, sealed);
      OneMoreSealed(key, content, ids, nm, todo, done, lo, bag, sealed.m);
      todo := todo - {bag};
      byId, done := byId[bagId := sealed], done[bagId := sealed.m];
    }
    AllBagsSealed(key, content, nm, done, lo);
    ContentIs(byId, done);
    return Ok(()), byId;
  }

  /** One round of the loop over the bags. */
  method SealOneBag(kv: StrMap, bag: string, ids: Ids, ghost nm: NameMap, ghost content: Config, key: Key, rng: Entropy,
                    ghost lo: nat)
    returns (r: Result<(), Failure>, bagId: string, sealed: StrMap)
    requires lo <= rng.next
    requires DictionaryOf(content, ids, nm) && bag in content.secrets && content.secrets[bag] == kv.m
    modifies rng
    ensures rng.next >= old(rng.next) && fresh(sealed)
    ensures bag in ids.bag && bagId == ids.bag[bag]
    ensures r.Ok? ==> BagIsSealed(key, content, ids, nm, bag, sealed.m, lo)
    ensures r.Err? ==> r.error == EmptyAadPart && ("" in nm.bags || exists b | b in nm.keys :: "" in nm.keys[b])
  {
    hide DictionaryOf, Inverse, BagSealed;
    EveryBagHasKeys(content, ids, nm);
    IdOfBag(content, ids, nm, bag);
    bagId := ids.bag[bag];
    r, sealed := SealBag(kv, bagId, ids.key[bagId], nm.keys[bagId], key, rng, lo);
    if r.Err? {
      assert bagId != "" ==> "" in nm.keys[bagId] by { EmptyKeyId(ids.key[bagId], nm.keys[bagId]); }
    }
  }

  lemma EmptyKeyId(keys: map<string, string>, names: map<string, string>)
    requires Inverse(keys, names)
    ensures (exists k | k in keys :: keys[k] == "") ==> "" in names
  {
  }

  // ----- step 3: vars ---------------------------------------------------------------------------------------------

  /** translateVarNamesToIDs: c.sources is already keyed by ID here, so the type is looked up by ID. */
  method TranslateToIds(sources: map<string, SourceRec>, v: VarCell, ids: Ids, ghost named: map<string, Source>)
    requires ids.src.Keys == named.Keys
    requires forall n | n in ids.src :: ids.src[n] in sources && sources[ids.src[n]].typ == named[n].typ
    modifies v
    ensures v.Content() == ToIds(named, ids, old(v.Content()))
  {
    if IsSkipped(v.source) {
      return;
    }
    if v.source.s !in ids.src {
      return;
    }
    var srcId := ids.src[v.source.s];
    var isLocal := srcId in sources && sources[srcId].typ == LOCAL;
    v.source := Text(srcId);
    if !isLocal {
      return;
    }
    if !IsSkipped(v.ref) && v.ref.s in ids.bag {
      var bagId := ids.bag[v.ref.s];
      if !IsSkipped(v.key) && bagId in ids.key && v.key.s in ids.key[bagId] {
        v.key := Text(ids.key[bagId][v.key.s]);
      }
      v.ref := Text(bagId);
    }
  }

  /** Seals the five scalar fields of a var. */
  method SealFields(v: VarCell, i: nat, j: nat, key: Key, rng: Entropy, ghost lo: nat)
    requires lo <= rng.next
    modifies v, rng
    ensures rng.next >= old(rng.next)
    ensures forall f :: SealedAs(key, Slots.VarFieldAad(i, j, f), old(v.Get(f)), v.Get(f), lo)
  {
    for n := 0 to |Slots.FIELDS|
      invariant rng.next >= old(rng.next)
      invariant forall f | f in Slots.FIELDS[..n] ::
        SealedAs(key, Slots.VarFieldAad(i, j, f), old(v.Get(f)), v.Get(f), lo)
      invariant forall f | f !in Slots.FIELDS[..n] :: v.Get(f) == old(v.Get(f))
    {
      var f := Slots.FIELDS[n];
      assert f !in Slots.FIELDS[..n] && Slots.FIELDS[..n + 1] == Slots.FIELDS[..n] + [f];
      FieldAadIsOk(i, j, f);
      var env := SealValue(key, v.Get(f), Slots.VarFieldAad(i, j, f), rng, lo);
      v.Set(f, env.value);
    }
    forall f ensures f in Slots.FIELDS[..|Slots.FIELDS|] {
      Slots.FieldsAreAll(f);
    }
  }

  lemma FieldAadIsOk(i: nat, j: nat, f: Slots.Field)
    ensures Slots.VarFieldAad(i, j, f).Ok? && Slots.VarFieldAad(i, j, f).value != ""
  {
    Text.DecimalReadsBack(i);
    Text.DecimalReadsBack(j);
    var parts := ["var", Text.Decimal(i), Text.Decimal(j), Slots.FieldName(f)];
    assert parts[0] != "" && parts[1] != "" && parts[2] != "" && parts[3] != "";
    AadIsNotEmpty(parts);
  }

  method SealExtra(extra: StrMap, i: nat, j: nat, key: Key, rng: Entropy, ghost lo: nat)
    returns (r: Result<(), Failure>)
    requires lo <= rng.next
    modifies extra, rng
    ensures rng.next >= old(rng.next)
    ensures r.Ok? ==> ExtraSealed(key, i, j, old(extra.m), extra.m, lo)
    ensures r.Err? ==> r.error == EmptyAadPart && "" in old(extra.m)
  {
    var todo := extra.m.Keys;
    while todo != {}
      invariant todo <= extra.m.Keys == old(extra.m.Keys) && rng.next >= old(rng.next)
      invariant forall k | k in todo :: extra.m[k] == old(extra.m[k])
      invariant forall k | k in extra.m && k !in todo ::
        SealedAs(key, Slots.VarExtraAad(i, j, k), old(extra.m[k]), extra.m[k], lo)
      decreases todo
    {
      var k :| k in todo;
      todo := todo - {k};
      ExtraAadIsOk(i, j, k);
      var env := SealValue(key, extra.m[k], Slots.VarExtraAad(i, j, k), rng, lo);
      if env.Err? {
        return Err(env.error);
      }
      extra.m := extra.m[k := env.value];
    }
    return Ok(());
  }

  lemma ExtraAadIsOk(i: nat, j: nat, k: string)
    ensures Slots.VarExtraAad(i, j, k).Ok? <==> k != ""
    ensures k != "" ==> Slots.VarExtraAad(i, j, k).value != ""
    ensures k == "" ==> Slots.VarExtraAad(i, j, k) == Err(EmptyAadPart)
  {
    Text.DecimalReadsBack(i);
    Text.DecimalReadsBack(j);
    var parts := ["var", Text.Decimal(i), Text.Decimal(j), "extra", k];
    assert parts[0] != "" && parts[1] != "" && parts[2] != "" && parts[3] != "" && parts[4] == k;
    if k != "" {
      AadIsNotEmpty(parts);
    } else {
      assert k in parts;
    }
  }

  /** Translates one var and seals it in place. */
  method SealVar(sources: map<string, SourceRec>, v: VarCell, ids: Ids, ghost named: map<string, Source>, i: nat,
                 j: nat, key: Key, rng: Entropy, ghost lo: nat)
    returns (r: Result<(), Failure>)
    requires lo <= rng.next && ids.src.Keys == named.Keys
    requires forall n | n in ids.src :: ids.src[n] in sources && sources[ids.src[n]].typ == named[n].typ
    modifies v, v.extra, rng
    ensures rng.next >= old(rng.next)
    ensures r.Ok? ==> VarSealed(key, i, j, ToIds(named, ids, old(v.Content())), v.Content(), lo)
    ensures r.Err? ==> r.error == EmptyAadPart && "" in old(v.extra.m)
  {
    TranslateToIds(sources, v, ids, named);
    ghost var w := v.Content();
    assert forall f :: v.Get(f) == FieldOf(w, f);
    SealFields(v, i, j, key, rng, lo);
    r := SealExtra(v.extra, i, j, key, rng, lo);
    assert forall f :: v.Get(f) == FieldOf(v.Content(), f);
    assert ToIds(named, ids, old(v.Content())).extra == old(v.extra.m);
  }

  /** Some var has an extra with an empty name, for which no slot name can be built. */
  ghost predicate HasEmptyExtra(m: Mapping) {
    exists j | 0 <= j < |m.vars| :: "" in m.vars[j].extra
  }

  method SealMapping(sources: map<string, SourceRec>, m: MappingRec, ids: Ids, ghost named: map<string, Source>, i: nat,
                     key: Key, rng: Entropy, ghost lo: nat)
    returns (r: Result<(), Failure>)
    requires lo <= rng.next && ids.src.Keys == named.Keys && CellsApart(m.vars)
    requires forall n | n in ids.src :: ids.src[n] in sources && sources[ids.src[n]].typ == named[n].typ
    modifies CellObjs(m.vars), rng
    ensures rng.next >= old(rng.next)
    ensures r.Ok? ==> MappingSealed(key, named, ids, i, old(MappingContent(m)), MappingContent(m), lo)
    ensures r.Err? ==> r.error == EmptyAadPart && HasEmptyExtra(old(MappingContent(m)))
  {
    hide ToIds, VarSealed;
    for j := 0 to |m.vars|
      invariant rng.next >= old(rng.next)
      invariant forall k | 0 <= k < j ::
        VarSealed(key, i, k, ToIds(named, ids, old(m.vars[k].Content())), m.vars[k].Content(), lo)
      invariant forall k | j <= k < |m.vars| :: m.vars[k].Content() == old(m.vars[k].Content())
    {
      assert m.vars[j] in m.vars;
      r := SealVar(sources, m.vars[j], ids, named, i, j, key, rng, lo);
      if r.Err? {
        assert old(MappingContent(m)).vars[j] == old(m.vars[j].Content());
        return;
      }
    }
    return Ok(());
  }

  /** Seals the vars of every mapping in place; the mappings themselves keep their order and match fields. */
  method SealMappings(sources: map<string, SourceRec>, ms: seq<MappingRec>, ids: Ids, ghost named: map<string, Source>,
                      key: Key, rng: Entropy, ghost lo: nat)
    returns (r: Result<(), Failure>)
    requires lo <= rng.next && ids.src.Keys == named.Keys && MappingsApart(ms)
    requires forall n | n in ids.src :: ids.src[n] in sources && sources[ids.src[n]].typ == named[n].typ
    modifies VarObjs(ms), rng
    ensures rng.next >= old(rng.next)
    ensures r.Ok? ==> forall i | 0 <= i < |ms| ::
      MappingSealed(key, named, ids, i, old(MappingContent(ms[i])), MappingContent(ms[i]), lo)
    ensures r.Err? ==> r.error == EmptyAadPart && exists i | 0 <= i < |ms| :: HasEmptyExtra(old(MappingContent(ms[i])))
  {
    hide MappingSealed;
    for i := 0 to |ms|
      invariant rng.next >= old(rng.next)
      invariant forall k | 0 <= k < i ::
        MappingSealed(key, named, ids, k, old(MappingContent(ms[k])), MappingContent(ms[k]), lo)
      invariant forall k | i <= k < |ms| :: MappingContent(ms[k]) == old(MappingContent(ms[k]))
    {
      assert ms[i] in ms;
      r := SealMapping(sources, ms[i], ids, named, i, key, rng, lo);
      if r.Err? {
        return;
      }
    }
    return Ok(());
  }

  // ----- the whole save -------------------------------------------------------------------------------------------

  /** The dictionary a save starts from: the live one if there is one, else the sealed one. */
  function PriorNames(key: Key, live: Option<NameMap>, field: NameMapField): Result<NameMap, Failure> {
    match live
    case Some(names) => Ok(names)
    case None => OpenNameMap(key, field)
  }

  /** The dictionary a config carries goes before the one in its sealed field. */
  lemma CarriedNamesComeFirst(key: Key, names: NameMap, field: NameMapField)
    ensures PriorNames(key, Some(names), field) == Ok(names)
    ensures PriorNames(key, None, Blank) == Ok(NameMap(map[], map[], map[]))
    ensures forall ad, n | field == SealedNames(key, ad, n, names) && ad == "meta.name_map" ::
      PriorNames(key, None, field) == Ok(names)
  {
  }

  ghost function LiveNames(c: LiveConfig): Option<NameMap>
    reads c, c.idMap
  {
    if c.idMap == null then None else Some(c.idMap.names)
  }

  /** Some coordinate of a slot is the empty string, for which the source's name builder panics. */
  ghost predicate EmptyCoordinate(c: Config, prev: NameMap) {
    || "" in AllIds(prev)
    || (exists n | n in c.sources :: "" in c.sources[n].params)
    || (exists m | m in c.mappings :: HasEmptyExtra(m))
  }

  lemma EmptyIdIsPrior(prevNames: map<string, string>, used: set<string>, ids: map<string, string>, prefix: string,
                       n: string)
    requires Stable(prevNames, used, ids, prefix) && prevNames.Keys <= used
    requires n in ids && ids[n] == "" && prefix != ""
    ensures "" in used
  {
    assert Assigned(prevNames, used, n, ids[n], prefix);
  }

  lemma EmptySourceId(prev: NameMap, ids: Ids, n: string)
    requires StableIds(prev, ids) && n in ids.src && ids.src[n] == ""
    ensures "" in AllIds(prev)
  {
    SourcesAreUsed(prev);
    EmptyIdIsPrior(prev.sources, AllIds(prev), ids.src, Slots.SOURCE_PREFIX, n);
  }

  lemma EmptyBagOrKeyId(c: Config, prev: NameMap, ids: Ids, nm: NameMap)
    requires StableIds(prev, ids) && DictionaryOf(c, ids, nm)
    requires "" in nm.bags || exists b | b in nm.keys :: "" in nm.keys[b]
    ensures "" in AllIds(prev)
  {
    if "" in nm.bags {
      assert prev.bags.Keys <= AllIds(prev);
      EmptyIdIsPrior(prev.bags, AllIds(prev), ids.bag, Slots.BAG_PREFIX, nm.bags[""]);
    } else {
      var b :| b in nm.keys && "" in nm.keys[b];
      KeyNamesAreUsed(prev, b);
      EmptyIdIsPrior(KeyNames(prev, b), AllIds(prev), ids.key[b], Slots.KEY_PREFIX, nm.keys[b][""]);
    }
  }

  /** The source records keyed by ID. */
  ghost predicate KeyedById(before: map<string, SourceRec>, names: map<string, string>, o: map<string, SourceRec>) {
    o.Keys == names.Keys && forall id | id in names :: names[id] in before && o[id] == before[names[id]]
  }

  lemma TypesById(c: Config, ids: Ids, nm: NameMap, o: map<string, SourceRec>, before: map<string, SourceRec>)
    requires DictionaryOf(c, ids, nm)
    requires before.Keys == c.sources.Keys && forall n | n in before :: before[n].typ == c.sources[n].typ
    requires KeyedById(before, nm.sources, o)
    ensures ids.src.Keys == c.sources.Keys
    ensures forall n | n in ids.src :: ids.src[n] in o && o[ids.src[n]].typ == c.sources[n].typ
  {
  }

  lemma RekeyedParamsApart(c: Config, ids: Ids, nm: NameMap, o: map<string, SourceRec>, before: map<string, SourceRec>)
    requires DictionaryOf(c, ids, nm) && before.Keys == c.sources.Keys && ParamsApart(before)
    requires KeyedById(before, nm.sources, o)
    ensures ParamsApart(o) && ParamObjs(o) <= ParamObjs(before)
  {
    forall id, id' | id in o && id' in o && id != id' ensures o[id].params != o[id'].params {
      assert nm.sources[id] != nm.sources[id'];
    }
    forall id | id in o ensures o[id].params in ParamObjs(before) {
      assert nm.sources[id] in before;
    }
  }

  lemma SourceIds(c: Config, ids: Ids, nm: NameMap)
    requires DictionaryOf(c, ids, nm)
    ensures ids.src.Keys == c.sources.Keys && Inverse(ids.src, nm.sources)
    ensures forall id | id in nm.sources :: nm.sources[id] in c.sources
  {
  }

  lemma SourcesAreSealed(key: Key, c: Config, nm: NameMap, before: map<string, SourceRec>, o: map<string, Source>,
                         lo: nat)
    requires forall id | id in nm.sources :: nm.sources[id] in c.sources
    requires before.Keys == c.sources.Keys && forall n | n in before :: before[n].typ == c.sources[n].typ
    requires o.Keys == nm.sources.Keys
    requires forall id | id in nm.sources ::
      && o[id].typ == before[nm.sources[id]].typ
      && ParamsSealed(key, id, c.sources[nm.sources[id]].params, o[id].params, lo)
    ensures SourcesSealed(key, c, nm, o, lo)
  {
  }

  /** The extra reason for a panic in SealAll: some ID or name that is part of a slot name is empty. */
  ghost predicate EmptyPart(c: Config, ids: Ids, nm: NameMap) {
    || (exists n | n in ids.src :: ids.src[n] == "")
    || "" in nm.bags || (exists b | b in nm.keys :: "" in nm.keys[b])
    || (exists n | n in c.sources :: "" in c.sources[n].params)
    || (exists i | 0 <= i < |c.mappings| :: HasEmptyExtra(c.mappings[i]))
  }

  lemma EmptyIdIsEmptyPart(c: Config, ids: Ids, nm: NameMap)
    requires "" in nm.bags || exists b | b in nm.keys :: "" in nm.keys[b]
    ensures EmptyPart(c, ids, nm)
  {
  }

  /** The random source is no part of a config. */
  lemma RngIsApart(c: LiveConfig, rng: Entropy)
    ensures {c, rng} !! ParamObjs(c.sources) && {c, rng} !! BagObjs(c.secrets) && {c, rng} !! VarObjs(c.mappings)
    ensures ParamObjs(c.sources) !! BagObjs(c.secrets) && ParamObjs(c.sources) !! VarObjs(c.mappings)
  {
    KindsApart(c);
  }

  /** SealSources leaves the rest of the config alone. */
  method SealSourcesOf(c: LiveConfig, src: map<string, string>, ghost names: map<string, string>, key: Key,
                       rng: Entropy, ghost lo: nat)
    returns (r: Result<(), Failure>)
    requires lo <= rng.next && ParamsApart(c.sources)
    requires src.Keys == c.sources.Keys && Inverse(src, names)
    modifies c`sources, ParamObjs(c.sources), rng
    ensures rng.next >= old(rng.next)
    ensures c.secrets == old(c.secrets) && c.mappings == old(c.mappings)
    ensures c.Content() == old(c.Content()).(sources := SourcesContent(c.sources))
    ensures r.Ok? ==> c.sources.Keys == names.Keys
    ensures r.Ok? ==> forall id | id in names ::
      && c.sources[id] == old(c.sources)[names[id]]
      && ParamsSealed(key, id, old(SourcesContent(c.sources))[names[id]].params, SourcesContent(c.sources)[id].params,
                      lo)
    ensures r.Err? ==> c.sources == old(c.sources)
    ensures r.Err? ==>
      (r.error == EmptyAadPart &&
       exists n | n in old(c.sources) :: src[n] == "" || "" in old(SourcesContent(c.sources))[n].params)
  {
    hide SecretsContent, MappingsContent, ParamsSealed, Inverse, ParamsApart;
    RngIsApart(c, rng);
    r := SealSources(c, src, names, key, rng, lo);
  }

  /** SealSources against the content of the whole config. */
  method RekeySources(c: LiveConfig, ids: Ids, ghost nm: NameMap, key: Key, rng: Entropy, ghost lo: nat)
    returns (r: Result<(), Failure>)
    requires lo <= rng.next && c.Apart() && DictionaryOf(c.Content(), ids, nm)
    modifies c`sources, ParamObjs(c.sources), rng
    ensures rng.next >= old(rng.next)
    ensures c.Apart() && ParamObjs(c.sources) <= old(ParamObjs(c.sources))
    ensures c.secrets == old(c.secrets) && c.mappings == old(c.mappings)
    ensures c.Content() == old(c.Content()).(sources := SourcesContent(c.sources))
    ensures r.Ok? ==> SourcesSealedFrom(key, old(c.Content()), nm, SourcesContent(c.sources), lo)
    ensures r.Ok? ==> KeyedById(old(c.sources), nm.sources, c.sources)
    ensures r.Err? ==> r.error == EmptyAadPart && EmptyPart(old(c.Content()), ids, nm)
  {
    hide DictionaryOf, SourcesSealedFrom, ParamsApart, BagsApart, MappingsApart, Inverse, ParamsSealed, KeyedById;
    hide EmptyPart;
    hide SourcesContent, SecretsContent, MappingsContent, ParamObjs, BagObjs, VarObjs;
    ghost var content := c.Content();
    ghost var before := c.sources;
    SourceTypes(before);
    RngIsApart(c, rng);
    SourceIds(content, ids, nm);
    r := SealSourcesOf(c, ids.src, nm.sources, key, rng, lo);
    if r.Err? {
      SourcePartIsEmpty(content, ids, nm);
      return;
    }
    SourceTypes(c.sources);
    AfterRekey(key, content, ids, nm, before, c.sources, SourcesContent(c.sources), lo);
  }

  lemma SourcePartIsEmpty(c: Config, ids: Ids, nm: NameMap)
    requires exists n | n in c.sources :: n in ids.src && (ids.src[n] == "" || "" in c.sources[n].params)
    ensures EmptyPart(c, ids, nm)
  {
  }

  lemma AfterRekey(key: Key, c: Config, ids: Ids, nm: NameMap, before: map<string, SourceRec>,
                   o: map<string, SourceRec>, content: map<string, Source>, lo: nat)
    requires DictionaryOf(c, ids, nm) && ParamsApart(before)
    requires before.Keys == c.sources.Keys && forall n | n in before :: before[n].typ == c.sources[n].typ
    requires content.Keys == o.Keys == nm.sources.Keys && forall id | id in o :: content[id].typ == o[id].typ
    requires forall id | id in nm.sources ::
      && nm.sources[id] in c.sources && o[id] == before[nm.sources[id]]
      && ParamsSealed(key, id, c.sources[nm.sources[id]].params, content[id].params, lo)
    ensures KeyedById(before, nm.sources, o)
    ensures ParamsApart(o) && ParamObjs(o) <= ParamObjs(before)
    ensures SourcesSealedFrom(key, c, nm, content, lo)
  {
    hide DictionaryOf, ParamsApart, ParamObjs, ParamsSealed;
    SourceIds(c, ids, nm);
    RekeyedParamsApart(c, ids, nm, o, before);
    SourcesAreSealed(key, c, nm, before, content, lo);
  }

  /** Installs the sealed bags. */
  method ReplaceSecrets(c: LiveConfig, ids: Ids, ghost nm: NameMap, ghost content: Config, key: Key, rng: Entropy,
                        ghost lo: nat)
    returns (r: Result<(), Failure>)
    requires lo <= rng.next && c.Apart()
    requires DictionaryOf(content, ids, nm) && content.secrets == SecretsContent(c.secrets)
    modifies c`secrets, rng
    ensures rng.next >= old(rng.next)
    ensures c.sources == old(c.sources) && c.mappings == old(c.mappings)
    ensures c.Apart() && c.Content() == old(c.Content()).(secrets := SecretsContent(c.secrets))
    ensures r.Ok? ==> fresh(BagObjs(c.secrets))
    ensures r.Ok? ==> SecretsSealedFrom(key, content, nm, SecretsContent(c.secrets), lo)
    ensures r.Err? ==> r.error == EmptyAadPart && EmptyPart(content, ids, nm)
  {
    hide DictionaryOf, SecretsSealed, ParamsApart, BagsApart, MappingsApart;
    hide SourcesContent, MappingsContent, SecretsContent, EmptyPart;
    EveryBagHasKeys(content, ids, nm);
    KindsApart(c);
    RngIsApart(c, rng);
    var r', byId := SealSecrets(c.secrets, ids, nm, content, key, rng, lo);
    if r'.Err? {
      EmptyIdIsEmptyPart(content, ids, nm);
      return r';
    }
    c.secrets := byId;
    assert c !in BagObjs(c.secrets);
    return Ok(());
  }

  /** Translates and seals the vars of the whole config. */
  method SealVars(c: LiveConfig, ids: Ids, ghost content: Config, key: Key, rng: Entropy, ghost lo: nat)
    returns (r: Result<(), Failure>)
    requires lo <= rng.next && c.Apart() && content.mappings == MappingsContent(c.mappings)
    requires ids.src.Keys == content.sources.Keys
    requires forall n | n in ids.src :: ids.src[n] in c.sources && c.sources[ids.src[n]].typ == content.sources[n].typ
    modifies VarObjs(c.mappings), rng
    ensures rng.next >= old(rng.next)
    ensures c.sources == old(c.sources) && c.secrets == old(c.secrets) && c.mappings == old(c.mappings)
    ensures c.Content() == old(c.Content()).(mappings := MappingsContent(c.mappings))
    ensures r.Ok? ==> MappingsSealed(key, content, ids, MappingsContent(c.mappings), lo)
    ensures r.Err? ==>
      r.error == EmptyAadPart && exists i | 0 <= i < |content.mappings| :: HasEmptyExtra(content.mappings[i])
  {
    hide MappingSealed, ParamsApart, BagsApart, MappingsApart, HasEmptyExtra, SourcesContent, SecretsContent;
    hide MappingContent;
    RngIsApart(c, rng);
    assert forall i | 0 <= i < |c.mappings| :: MappingContent(c.mappings[i]) == content.mappings[i];
    r := SealMappings(c.sources, c.mappings, ids, content.sources, key, rng, lo);
  }

  /** Rekeys and seals every value of c under the given dictionary. */
  method SealAll(c: LiveConfig, ids: Ids, ghost nm: NameMap, key: Key, rng: Entropy, ghost lo: nat)
    returns (r: Result<(), Failure>)
    requires lo <= rng.next && c.Apart() && DictionaryOf(c.Content(), ids, nm)
    modifies c`sources, c`secrets, ParamObjs(c.sources), VarObjs(c.mappings), rng
    ensures rng.next >= old(rng.next)
    ensures c.Apart() && ParamObjs(c.sources) <= old(ParamObjs(c.sources))
    ensures r.Ok? ==> fresh(BagObjs(c.secrets))
    ensures r.Ok? ==> ValuesSealed(key, old(c.Content()), ids, nm, c.Content(), lo)
    ensures r.Err? ==> r.error == EmptyAadPart && EmptyPart(old(c.Content()), ids, nm)
  {
    hide DictionaryOf, SourcesSealedFrom, SecretsSealedFrom, MappingsSealed, HasEmptyExtra;
    hide MappingsApart, ParamsApart, BagsApart, SourcesContent, SecretsContent, MappingsContent, KeyedById;
    ghost var content := c.Content();
    assert content.sources.Keys == c.sources.Keys
        && forall n | n in c.sources :: content.sources[n].typ == c.sources[n].typ by {
      SourceTypes(c.sources);
    }
    ghost var before := c.sources;
    r := RekeySources(c, ids, nm, key, rng, lo);
    if r.Err? {
      return;
    }
    TypesById(content, ids, nm, c.sources, before);
    r := ReplaceSecrets(c, ids, nm, content, key, rng, lo);
    if r.Err? {
      return;
    }
    r := SealVars(c, ids, content, key, rng, lo);
  }

  lemma SourceTypes(sources: map<string, SourceRec>)
    ensures SourcesContent(sources).Keys == sources.Keys
    ensures forall n | n in sources :: SourcesContent(sources)[n].typ == sources[n].typ
  {
  }

  /** Every value of o is the sealed value of c in its slot. */
  ghost predicate ValuesSealed(key: Key, c: Config, ids: Ids, nm: NameMap, o: Config, lo: nat) {
    && o.version == c.version && o.migratedAt == c.migratedAt && o.nameMap == c.nameMap
    && SourcesSealedFrom(key, c, nm, o.sources, lo) && SecretsSealedFrom(key, c, nm, o.secrets, lo)
    && MappingsSealed(key, c, ids, o.mappings, lo)
  }

  ghost predicate SourcesSealedFrom(key: Key, c: Config, nm: NameMap, o: map<string, Source>, lo: nat) {
    (forall id | id in nm.sources :: nm.sources[id] in c.sources) && SourcesSealed(key, c, nm, o, lo)
  }

  ghost predicate SecretsSealedFrom(key: Key, c: Config, nm: NameMap, o: map<string, map<string, Value>>, lo: nat) {
    && (forall b | b in nm.bags :: b in nm.keys && nm.bags[b] in c.secrets)
    && (forall b | b in nm.bags :: forall k | k in nm.keys[b] :: nm.keys[b][k] in c.secrets[nm.bags[b]])
    && SecretsSealed(key, c, nm, o, lo)
  }

  /** The save: c becomes its own ID-keyed, sealed form. Only c, its parameter maps, its vars and their extras change;
      bag maps and the prior dictionary object stay as they were. */
  method EncryptInPlace(c: LiveConfig, key: Key, rng: Entropy) returns (r: Result<(), Failure>, ghost ids: Ids)
    requires c.Apart()
    modifies c, ParamObjs(c.sources), VarObjs(c.mappings), rng
    ensures r.Ok? ==> c.idMap != null && fresh(c.idMap) && c.Apart()
    ensures r.Ok? ==> EncryptsTo(key, old(c.Content()), ids, c.idMap.names, c.Content(), old(rng.next))
    ensures r.Ok? ==> var prev := old(PriorNames(key, LiveNames(c), c.nameMap)); prev.Ok? && StableIds(prev.value, ids)
    ensures c.mappings == old(c.mappings) && ParamObjs(c.sources) <= old(ParamObjs(c.sources))
    ensures r.Ok? ==> fresh(BagObjs(c.secrets))
    ensures r.Err? ==> c.idMap == old(c.idMap) && c.nameMap == old(c.nameMap)
    ensures r.Err? ==>
      var prev := old(PriorNames(key, LiveNames(c), c.nameMap));
      match r.error
      case BadNameMap => old(OpenNameMap(key, c.nameMap)).Err?
      case NoFreeId => prev.Ok? && Exhausted(AllIds(prev.value), rng.tape, old(rng.next), rng.next)
      case EmptyAadPart => prev.Ok? && EmptyCoordinate(old(c.Content()), prev.value)
      case _ => false
  {
    hide DictionaryOf, StableIds, ValuesSealed, EncryptsTo, NameMapSealed, EmptyPart, EmptyCoordinate, AllIds;
    hide Exhausted;
    hide MappingsApart, ParamsApart, BagsApart, SourcesContent, SecretsContent, MappingsContent;
    ghost var content := c.Content();
    ghost var lo := rng.next;
    ids := Ids(map[], map[], map[]);
    var prev := PriorNames(key, if c.idMap == null then None else Some(c.idMap.names), c.nameMap);
    var sealedPrev := OpenNameMap(key, c.nameMap);
    if prev.Err? {
      return Err(prev.error), ids;
    }
    if sealedPrev.Err? {
      return Err(sealedPrev.error), ids;
    }
    var r', ids', nm := BuildDictionary(c, prev.value, rng);
    ids := ids';
    if r'.Err? {
      return r', ids;
    }
    r := SealAll(c, ids', nm, key, rng, lo);
    if r.Err? {
      EmptyPartIsCoordinate(content, prev.value, ids, nm);
      return;
    }
    ghost var sealed := c.Content();
    SealDictionary(c, sealedPrev.value, nm, key, rng, lo);
    Assemble(key, content, ids, nm, sealed, c.nameMap, lo);
  }

  /** Reseals the dictionary only when its content differs from what is sealed already, and carries it along. */
  method SealDictionary(c: LiveConfig, sealedPrev: NameMap, nm: NameMap, key: Key, rng: Entropy, ghost lo: nat)
    requires lo <= rng.next && OpenNameMap(key, c.nameMap) == Ok(sealedPrev) && c.Apart()
    modifies c`nameMap, c`idMap, rng
    ensures NameMapSealed(key, old(c.nameMap), nm, c.nameMap, lo)
    ensures c.idMap != null && fresh(c.idMap) && c.idMap.names == nm
    ensures c.Apart() && c.Content() == old(c.Content()).(nameMap := c.nameMap)
  {
    hide MappingsApart, ParamsApart, BagsApart, SourcesContent, SecretsContent, MappingsContent, LiveConfig.Content;
    RngIsApart(c, rng);
    var same := NameMapEqual(sealedPrev, nm);
    var field := c.nameMap;
    if c.nameMap.Blank? || !same {
      var nonce := rng.Nonce();
      field := SealedNames(key, Slots.NAME_MAP_AAD, nonce, nm);
    }
    SetNames(c, field, nm);
  }

  method SetNames(c: LiveConfig, field: NameMapField, nm: NameMap)
    modifies c`nameMap, c`idMap
    ensures c.nameMap == field && c.idMap != null && fresh(c.idMap) && c.idMap.names == nm
    ensures c.Content() == old(c.Content()).(nameMap := field)
  {
    hide SourcesContent, SecretsContent, MappingsContent;
    assert c !in ParamObjs(c.sources) && c !in BagObjs(c.secrets) && c !in VarObjs(c.mappings);
    c.nameMap := field;
    c.idMap := new IdMap(nm);
  }

  lemma Assemble(key: Key, c: Config, ids: Ids, nm: NameMap, sealed: Config, field: NameMapField, lo: nat)
    requires DictionaryOf(c, ids, nm) && ValuesSealed(key, c, ids, nm, sealed, lo)
    requires NameMapSealed(key, c.nameMap, nm, field, lo)
    ensures EncryptsTo(key, c, ids, nm, sealed.(nameMap := field), lo)
  {
    hide SourcesSealed, SecretsSealed, MappingsSealed, NameMapSealed;
  }

  lemma EmptyPartIsCoordinate(c: Config, prev: NameMap, ids: Ids, nm: NameMap)
    requires StableIds(prev, ids) && DictionaryOf(c, ids, nm) && EmptyPart(c, ids, nm)
    ensures EmptyCoordinate(c, prev)
  {
    if n :| n in ids.src && ids.src[n] == "" {
      EmptySourceId(prev, ids, n);
    } else if "" in nm.bags || exists b | b in nm.keys :: "" in nm.keys[b] {
      EmptyBagOrKeyId(c, prev, ids, nm);
    }
  }
}
