/** Whole editing sessions: a load, then any sequence of edits, renames and saves (internal/tui/save.go,
    internal/tui/references.go). */
module Session {
  import opened Wrappers
  import opened Envelope
  import opened ConfigModel
  import opened EncryptSpec
  import opened Encrypt
  import opened RoundTrip
  import opened Identity
  import opened References
  import Editor
  import Slots

  /** The live config, the dictionary it carries, and the file on disk. */
  datatype State = State(live: Config, dict: NameMap, file: Config)

  datatype Action =
    | Edit(c: Config)
    | RenameSource(o: string, n: string)
    | RenameBag(o: string, n: string)
    | EditKey(bag: string, o: string, n: string, val: Value)
    | Save(ids: Ids, nm: NameMap, out: Config, lo: nat)
    | FailedSave

  ghost predicate Loads(key: Key, s: State) {
    DecryptsTo(key, s.file, s.dict, s.live)
  }

  /** One action, as Editor's methods perform it. Edit stands for every change of the live config that does not touch
      its name_map field: adding, changing and deleting sources, bags, keys and mappings. */
  ghost predicate Next(key: Key, s: State, a: Action, s': State) {
    match a
    case Edit(c) => c.nameMap == s.live.nameMap && s' == s.(live := c)
    case RenameSource(o, n) =>
      && o in s.live.sources && Editor.RenameOutcome(s.live.sources.Keys, o, n).Done?
      && s' == State(SourceRenamed(s.live, o, n), s.dict.(sources := RenameEntries(s.dict.sources, o, n)), s.file)
    case RenameBag(o, n) =>
      && o in s.live.secrets && Editor.RenameOutcome(s.live.secrets.Keys, o, n).Done?
      && s' == State(BagRenamed(s.live, o, n), s.dict.(bags := RenameEntries(s.dict.bags, o, n)), s.file)
    case EditKey(bag, o, n, val) =>
      && bag in s.live.secrets && o in s.live.secrets[bag]
      && Editor.KeyOutcome(s.live.secrets[bag].Keys, o, n).Done?
      && s'.live == Editor.KeyEdited(s.live, bag, o, n, val) && s'.file == s.file
      && (if n == o then s'.dict == s.dict else Editor.KeyEntryRenamed(s.dict, bag, o, n, s'.dict))
    case Save(ids, nm, out, lo) =>
      && Validate(s.live) && EncryptsTo(key, s.live, ids, nm, out, lo) && StableIds(s.dict, ids)
      && s' == State(s.live, nm, out)
    case FailedSave => s' == s
  }

  ghost predicate Run(key: Key, ss: seq<State>, acts: seq<Action>) {
    && |ss| == |acts| + 1 && Loads(key, ss[0])
    && forall i | 0 <= i < |acts| :: Next(key, ss[i], acts[i], ss[i + 1])
  }

  // ----- every saved file is faithful -----------------------------------------------------------------------------

  /** The live name_map field is the one that was loaded, still opens, and the carried dictionary holds only IDs. */
  ghost predicate Sound(key: Key, field: NameMapField, s: State) {
    s.live.nameMap == field && OpenNameMap(key, field).Ok? && WellShaped(s.dict)
  }

  lemma LoadIsSound(key: Key, s: State)
    requires Loads(key, s) && WellShaped(s.dict)
    ensures Sound(key, s.file.nameMap, s)
  {
    var p :| OpensTo(key, s.file, p) && NamedAs(p, s.dict, s.live);
  }

  lemma RenamingKeepsShape(names: map<string, string>, o: string, n: string)
    ensures RenameEntries(names, o, n).Keys == names.Keys
  {
  }

  lemma NextIsSound(key: Key, field: NameMapField, s: State, a: Action, s': State)
    requires Sound(key, field, s) && Next(key, s, a, s')
    ensures Sound(key, field, s')
  {
    match a
    case RenameSource(o, n) => RenamingKeepsShape(s.dict.sources, o, n);
    case RenameBag(o, n) => RenamingKeepsShape(s.dict.bags, o, n);
    case EditKey(bag, o, n, val) =>
      if n != o && bag in s.dict.bags.Values {
        var b :| b in s.dict.bags && s.dict.bags[b] == bag && s'.dict == Editor.KeyEntryRenamedIn(s.dict, b, o, n);
        RenamingKeepsShape(KeyNames(s.dict, b), o, n);
      }
    case Save(ids, nm, out, lo) => DictionaryStaysShaped(s.live, s.dict, ids, nm);
    case _ =>
  }

  lemma {:induction false} RunIsSound(key: Key, ss: seq<State>, acts: seq<Action>, i: nat)
    requires Run(key, ss, acts) && WellShaped(ss[0].dict) && i < |ss|
    ensures Sound(key, ss[0].file.nameMap, ss[i])
  {
    hide Sound, Next, Loads;
    if i == 0 {
      LoadIsSound(key, ss[0]);
    } else {
      RunIsSound(key, ss, acts, i - 1);
      NextIsSound(key, ss[0].file.nameMap, ss[i - 1], acts[i - 1], ss[i]);
    }
  }

  /** The file's dictionary opens to exactly the IDs the file uses as keys. */
  ghost predicate NamesExactlyItsKeys(key: Key, o: Config, nm: NameMap) {
    && OpenNameMap(key, o.nameMap) == Ok(nm)
    && nm.sources.Keys == o.sources.Keys
    && nm.bags.Keys == nm.keys.Keys == o.secrets.Keys
    && forall b | b in o.secrets :: nm.keys[b].Keys == o.secrets[b].Keys
  }

  lemma SavedDictionaryIsExact(key: Key, c: Config, ids: Ids, nm: NameMap, o: Config, lo: nat)
    requires EncryptsTo(key, c, ids, nm, o, lo)
    ensures NamesExactlyItsKeys(key, o, nm)
  {
    FieldOpensToDictionary(key, c.nameMap, nm, o.nameMap, lo);
  }

  /** After any edits, each save of the session writes a file that loads back as the live config of that moment, exactly
      when no plaintext looks like an envelope and no unresolved local reference is a dictionary ID; and its dictionary
      opens to the IDs used in that very file, although the live name_map field is still the one once loaded. */
  lemma EverySaveIsFaithful(key: Key, ss: seq<State>, acts: seq<Action>, i: nat)
    requires Run(key, ss, acts) && WellShaped(ss[0].dict)
    requires i < |acts| && acts[i].Save?
    ensures LoadsBackAs(key, ss[i + 1].file, ss[i].live) <==> AllPlain(ss[i].live) && NoCapture(ss[i].live, acts[i].nm)
    ensures NamesExactlyItsKeys(key, ss[i + 1].file, acts[i].nm) && ss[i + 1].dict == acts[i].nm
    ensures ss[i].live.nameMap == ss[0].file.nameMap && ss[i + 1].live == ss[i].live
  {
    hide LoadsBackAs, AllPlain, NoCapture, EncryptsTo, NamesExactlyItsKeys, Validate, StableIds, WellShaped;
    RunIsSound(key, ss, acts, i);
    RunIsSound(key, ss, acts, i + 1);
    assert Next(key, ss[i], acts[i], ss[i + 1]);
    var Save(ids, nm, out, lo) := acts[i];
    SavedDictionaryIsExact(key, ss[i].live, ids, nm, out, lo);
    assert WellShaped(nm) by { assert Sound(key, ss[0].file.nameMap, ss[i + 1]); }
    RoundTripExactly(key, ss[i].live, ids, nm, out, lo);
  }

  lemma FileChangesOnSave(key: Key, s: State, a: Action, s': State)
    requires Next(key, s, a, s')
    ensures s'.file == if a.Save? then a.out else s.file
  {
    hide Validate, EncryptsTo, StableIds;
  }

  /** The latest of the first i actions that saved. */
  function LastSave(acts: seq<Action>, i: nat): (j: Option<nat>)
    requires i <= |acts|
    ensures j.Some? ==> j.value < i && acts[j.value].Save?
  {
    if i == 0 then None else if acts[i - 1].Save? then Some(i - 1) else LastSave(acts, i - 1)
  }

  lemma {:induction false} FileIsLastSave(key: Key, ss: seq<State>, acts: seq<Action>, i: nat)
    requires Run(key, ss, acts) && i < |ss|
    ensures ss[i].file == if LastSave(acts, i).None? then ss[0].file else ss[LastSave(acts, i).value + 1].file
  {
    hide Next, Loads;
    if i > 0 {
      FileIsLastSave(key, ss, acts, i - 1);
      FileChangesOnSave(key, ss[i - 1], acts[i - 1], ss[i]);
    }
  }

  /** So at every point of a session, whatever was edited, renamed or failed to save since, the file is the one that was
      loaded, or loads back as the live config of the latest save, under the exact conditions. */
  lemma FileIsAlwaysFaithful(key: Key, ss: seq<State>, acts: seq<Action>, i: nat)
    requires Run(key, ss, acts) && WellShaped(ss[0].dict) && i < |ss|
    ensures match LastSave(acts, i)
            case None => ss[i].file == ss[0].file
            case Some(j) =>
              && NamesExactlyItsKeys(key, ss[i].file, acts[j].nm)
              && (LoadsBackAs(key, ss[i].file, ss[j].live)
                  <==> AllPlain(ss[j].live) && NoCapture(ss[j].live, acts[j].nm))
  {
    hide Next, Loads, LoadsBackAs, AllPlain, NoCapture, NamesExactlyItsKeys, WellShaped;
    FileIsLastSave(key, ss, acts, i);
    if LastSave(acts, i).Some? {
      EverySaveIsFaithful(key, ss, acts, LastSave(acts, i).value);
    }
  }

  // ----- an entity keeps its ID -----------------------------------------------------------------------------------

  datatype Entity = ASource(n: string) | ABag(n: string) | AKey(bag: string, k: string)

  datatype Tag = One(id: string) | Two(bagId: string, keyId: string)

  predicate Present(c: Config, e: Entity) {
    match e
    case ASource(n) => n in c.sources
    case ABag(n) => n in c.secrets
    case AKey(bag, k) => bag in c.secrets && k in c.secrets[bag]
  }

  /** id is the one ID of the dictionary with this name. */
  ghost predicate OnlyId(names: map<string, string>, n: string, id: string) {
    id in names && forall i | i in names :: names[i] == n <==> i == id
  }

  ghost predicate Tagged(d: NameMap, e: Entity, t: Tag) {
    match e
    case ASource(n) => t.One? && OnlyId(d.sources, n, t.id)
    case ABag(n) => t.One? && OnlyId(d.bags, n, t.id)
    case AKey(bag, k) =>
      t.Two? && t.bagId != "" && OnlyId(d.bags, bag, t.bagId) && OnlyId(KeyNames(d, t.bagId), k, t.keyId)
  }

  function Moved(n: string, o: string, n': string): string {
    if n == o then n' else n
  }

  /** The entity under its name after the action. */
  function Follow(a: Action, e: Entity): Entity {
    match (a, e)
    case (RenameSource(o, n), ASource(x)) => ASource(Moved(x, o, n))
    case (RenameBag(o, n), ABag(x)) => ABag(Moved(x, o, n))
    case (RenameBag(o, n), AKey(bag, k)) => AKey(Moved(bag, o, n), k)
    case (EditKey(bag, o, n, _), AKey(b, k)) => if b == bag then AKey(b, Moved(k, o, n)) else e
    case _ => e
  }

  /** The rename gives the entity a name that the carried dictionary still has for something deleted since the last
      save. */
  predicate OntoStaleName(d: NameMap, a: Action, e: Entity) {
    match (a, e)
    case (RenameSource(o, n), ASource(x)) => x == o && n in d.sources.Values
    case (RenameBag(o, n), ABag(x)) => x == o && n in d.bags.Values
    case (RenameBag(o, n), AKey(bag, _)) => bag == o && n in d.bags.Values
    case (EditKey(bag, o, n, _), AKey(b, k)) =>
      b == bag && k == o && n != o && exists i :: i in d.bags && d.bags[i] == b && n in KeyNames(d, i).Values
    case _ => false
  }

  lemma OnlyIdMoves(names: map<string, string>, o: string, n: string, x: string, id: string)
    requires OnlyId(names, x, id) && (x == o ==> n !in names.Values) && (x != o ==> x != n)
    ensures OnlyId(RenameEntries(names, o, n), Moved(x, o, n), id)
  {
    if x == o {
      forall i | i in names ensures names[i] != n {
        assert names[i] in names.Values;
      }
    }
  }

  lemma OnlyIdSaved(before: map<string, string>, used: set<string>, ids: map<string, string>,
                    after: map<string, string>, prefix: string, n: string, id: string)
    requires Inverse(ids, after) && Stable(before, used, ids, prefix) && n in ids && OnlyId(before, n, id)
    ensures OnlyId(after, n, id)
  {
    assert before[id] in before.Values;
    assert Assigned(before, used, n, ids[n], prefix);
  }

  lemma SaveKeepsTag(c: Config, d: NameMap, ids: Ids, nm: NameMap, e: Entity, t: Tag)
    requires DictionaryOf(c, ids, nm) && StableIds(d, ids) && Present(c, e) && Tagged(d, e, t)
    ensures Tagged(nm, e, t)
  {
    hide Inverse, Stable, OnlyId;
    match e
    case ASource(n) => OnlyIdSaved(d.sources, AllIds(d), ids.src, nm.sources, Slots.SOURCE_PREFIX, n, t.id);
    case ABag(n) => OnlyIdSaved(d.bags, AllIds(d), ids.bag, nm.bags, Slots.BAG_PREFIX, n, t.id);
    case AKey(bag, k) =>
      OnlyIdSaved(d.bags, AllIds(d), ids.bag, nm.bags, Slots.BAG_PREFIX, bag, t.bagId);
      assert t.bagId in nm.bags && nm.bags[t.bagId] == bag by { OnlyIdIsHeld(nm.bags, bag, t.bagId); }
      OnlyIdSaved(KeyNames(d, t.bagId), AllIds(d), ids.key[t.bagId], nm.keys[t.bagId], Slots.KEY_PREFIX, k, t.keyId);
  }

  lemma OnlyIdIsHeld(names: map<string, string>, n: string, id: string)
    requires OnlyId(names, n, id)
    ensures id in names && names[id] == n
  {
  }

  lemma KeyRenameKeepsTag(d: NameMap, d': NameMap, bag: string, o: string, n: string, e: Entity, t: Tag)
    requires Editor.KeyEntryRenamed(d, bag, o, n, d') && Tagged(d, e, t)
    requires e.AKey? && e.bag == bag ==>
      if e.k == o then forall i | i in d.bags && d.bags[i] == bag :: n !in KeyNames(d, i).Values else e.k != n
    ensures Tagged(d', if e.AKey? && e.bag == bag then AKey(bag, Moved(e.k, o, n)) else e, t)
  {
    hide OnlyId;
    if e.AKey? {
      assert OnlyId(d.bags, e.bag, t.bagId) && OnlyId(KeyNames(d, t.bagId), e.k, t.keyId);
      OnlyIdIsHeld(d.bags, e.bag, t.bagId);
      OnlyIdIsHeld(KeyNames(d, t.bagId), e.k, t.keyId);
      if e.bag == bag {
        assert d.bags[t.bagId] in d.bags.Values;
        var b :| b in d.bags && d.bags[b] == bag && d' == Editor.KeyEntryRenamedIn(d, b, o, n);
        assert b == t.bagId by { OnlyIdIsOne(d.bags, bag, t.bagId, b); }
        OnlyIdMoves(KeyNames(d, b), o, n, e.k, t.keyId);
      } else if bag in d.bags.Values {
        var b :| b in d.bags && d.bags[b] == bag && d' == Editor.KeyEntryRenamedIn(d, b, o, n);
        assert KeyNames(d', t.bagId) == KeyNames(d, t.bagId);
      }
    }
  }

  lemma OnlyIdIsOne(names: map<string, string>, n: string, id: string, i: string)
    requires OnlyId(names, n, id) && i in names && names[i] == n
    ensures i == id
  {
  }

  lemma NextKeepsTag(key: Key, s: State, a: Action, s': State, e: Entity, t: Tag)
    requires Next(key, s, a, s') && Present(s.live, e) && Present(s'.live, Follow(a, e))
    requires Tagged(s.dict, e, t) && !OntoStaleName(s.dict, a, e)
    ensures Tagged(s'.dict, Follow(a, e), t)
  {
    hide OnlyId, EncryptsTo, Validate, StableIds, Editor.KeyEntryRenamed;
    match a
    case RenameSource(o, n) =>
      if e.ASource? {
        OnlyIdMoves(s.dict.sources, o, n, e.n, t.id);
      }
    case RenameBag(o, n) =>
      if e.ABag? {
        OnlyIdMoves(s.dict.bags, o, n, e.n, t.id);
      } else if e.AKey? {
        OnlyIdMoves(s.dict.bags, o, n, e.bag, t.bagId);
      }
    case EditKey(bag, o, n, val) =>
      if n != o {
        KeyRenameKeepsTag(s.dict, s'.dict, bag, o, n, e, t);
      }
    case Save(ids, nm, out, lo) =>
      assert EncryptsTo(key, s.live, ids, nm, out, lo);
      DictionaryIsOfConfig(key, s.live, ids, nm, out, lo);
      SaveKeepsTag(s.live, s.dict, ids, nm, e, t);
    case _ =>
  }

  lemma DictionaryIsOfConfig(key: Key, c: Config, ids: Ids, nm: NameMap, o: Config, lo: nat)
    requires EncryptsTo(key, c, ids, nm, o, lo)
    ensures DictionaryOf(c, ids, nm)
  {
  }

  /** The entity's name after the first i actions. */
  function FollowAll(acts: seq<Action>, e: Entity, i: nat): Entity
    requires i <= |acts|
  {
    if i == 0 then e else Follow(acts[i - 1], FollowAll(acts, e, i - 1))
  }

  /** Followed through every rename of the session and never deleted or renamed onto a stale name, a source, bag or key
      has one and the same ID in every state, and so in every saved file. */
  lemma {:induction false} IdsPersist(key: Key, ss: seq<State>, acts: seq<Action>, e: Entity, t: Tag, i: nat)
    requires Run(key, ss, acts) && i < |ss| && Tagged(ss[0].dict, e, t)
    requires forall j | 0 <= j <= i :: Present(ss[j].live, FollowAll(acts, e, j))
    requires forall j | 0 <= j < i :: !OntoStaleName(ss[j].dict, acts[j], FollowAll(acts, e, j))
    ensures Tagged(ss[i].dict, FollowAll(acts, e, i), t)
  {
    hide Next, Present, OntoStaleName, Tagged, Loads;
    if i > 0 {
      IdsPersist(key, ss, acts, e, t, i - 1);
      NextKeepsTag(key, ss[i - 1], acts[i - 1], ss[i], FollowAll(acts, e, i - 1), t);
    }
  }

  /** The condition is exact: with a prior dictionary that has the name twice, another assignment that meets everything
      a save promises gives the name another ID. It is stated for one kind, which may be the sources, the bags, or the
      keys of one bag. */
  lemma IdIsSettledExactly(before: map<string, string>, used: set<string>, ids: map<string, string>,
                           after: map<string, string>, prefix: string, n: string, id: string)
    requires Inverse(ids, after) && Stable(before, used, ids, prefix) && before.Keys <= used
    requires n in ids && id in before && before[id] == n
    ensures OnlyId(before, n, id) <==>
      (forall ids': map<string, string>, after' | ids'.Keys == ids.Keys && Inverse(ids', after') &&
        Stable(before, used, ids', prefix) :: ids'[n] == id)
  {
    if OnlyId(before, n, id) {
      forall ids': map<string, string>, after' |
        ids'.Keys == ids.Keys && Inverse(ids', after') && Stable(before, used, ids', prefix)
        ensures ids'[n] == id
      {
        assert Assigned(before, used, n, ids'[n], prefix);
      }
    } else {
      var i :| i in before && before[i] == n && i != id;
      assert n in before.Values;
      assert forall m | m in ids && m != n :: Assigned(before, used, m, ids[m], prefix);
      var ids' := ids[n := i];
      var after' := (after - {ids[n]})[i := n];
      assert Inverse(ids', after') && Stable(before, used, ids', prefix);
      assert ids'[n] != id;
    }
  }

  // ----- nothing gets lost ----------------------------------------------------------------------------------------

  /** A rename in a session neither drops nor merges anything: what had the old name has the new one, which nothing had,
      everything else is where it was, and no mapping comes or goes. */
  lemma RenameLosesNothing(key: Key, s: State, a: Action, s': State)
    requires Next(key, s, a, s')
    ensures a.RenameSource? ==>
      && a.o in s.live.sources && a.n != "" && a.n !in s.live.sources
      && s'.live.sources.Keys == s.live.sources.Keys - {a.o} + {a.n}
      && s'.live.sources[a.n] == s.live.sources[a.o]
      && (forall x | x in s.live.sources && x != a.o :: s'.live.sources[x] == s.live.sources[x])
      && s'.live.secrets == s.live.secrets && |s'.live.mappings| == |s.live.mappings|
    ensures a.RenameBag? ==>
      && a.o in s.live.secrets && a.n != "" && a.n !in s.live.secrets
      && s'.live.secrets.Keys == s.live.secrets.Keys - {a.o} + {a.n}
      && s'.live.secrets[a.n] == s.live.secrets[a.o]
      && (forall x | x in s.live.secrets && x != a.o :: s'.live.secrets[x] == s.live.secrets[x])
      && s'.live.sources == s.live.sources && |s'.live.mappings| == |s.live.mappings|
    ensures a.EditKey? ==>
      && a.bag in s.live.secrets && a.o in s.live.secrets[a.bag] && a.n != ""
      && (a.n == a.o || a.n !in s.live.secrets[a.bag])
      && s'.live.secrets.Keys == s.live.secrets.Keys && s'.live.secrets[a.bag][a.n] == a.val
      && s'.live.secrets[a.bag].Keys == s.live.secrets[a.bag].Keys - {a.o} + {a.n}
      && (forall k | k in s.live.secrets[a.bag] && k != a.o :: s'.live.secrets[a.bag][k] == s.live.secrets[a.bag][k])
      && (forall b | b in s.live.secrets && b != a.bag :: s'.live.secrets[b] == s.live.secrets[b])
      && s'.live.sources == s.live.sources && |s'.live.mappings| == |s.live.mappings|
  {
    hide Validate, EncryptsTo, StableIds;
    match a
    case EditKey(bag, o, n, val) => Editor.KeyEditedMeans(s.live, bag, o, n, val);
    case _ =>
  }
}
