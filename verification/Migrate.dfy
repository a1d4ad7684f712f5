/** The one-shot migration of a name-keyed config to opaque IDs (internal/config/migrate.go). */
module Migrate {
  import opened Wrappers
  import opened Envelope
  import opened ConfigModel
  import opened EncryptSpec
  import opened RoundTrip
  import opened NameId
  import opened Live
  import opened AtomicFile
  import Encrypt
  import Decrypt
  import Identity
  import Slots

  // ----- what a migration means -----------------------------------------------------------------------------------

  /** The intermediate values of one migration. */
  datatype Witness = Witness(nm0: NameMap, plain: Config, ids: Ids, nm: NameMap, sealed: Config, lo: nat)

  /** m is legacy decrypted, encrypted again, and stamped. */
  ghost predicate Migrates(key: Key, legacy: Config, w: Witness, m: Config) {
    && DecryptsTo(key, legacy, w.nm0, w.plain)
    && EncryptsTo(key, w.plain, w.ids, w.nm, w.sealed, w.lo) && Encrypt.StableIds(w.nm0, w.ids)
    && m.migratedAt.Some? && m == w.sealed.(migratedAt := m.migratedAt)
  }

  lemma StampedStillSealed(key: Key, legacy: Config, w: Witness, m: Config)
    requires Migrates(key, legacy, w, m)
    ensures EncryptsTo(key, w.plain.(migratedAt := m.migratedAt), w.ids, w.nm, m, w.lo)
  {
  }

  /** A migrated file loads back as the config the legacy file held, with the stamp, under exactly the conditions of any
      round trip. */
  lemma MigrationKeepsMeaning(key: Key, legacy: Config, w: Witness, m: Config)
    requires Migrates(key, legacy, w, m) && WellShaped(w.nm0) && Validate(w.plain)
    ensures LoadsBackAs(key, m, w.plain.(migratedAt := m.migratedAt)) <==> AllPlain(w.plain) && NoCapture(w.plain, w.nm)
  {
    hide EncryptsTo, LoadsBackAs, WellShaped, Encrypt.StableIds, AllPlain, NoCapture, Validate, DecryptsTo;
    ConditionsIgnoreStamp(w.plain, w.nm, m.migratedAt);
    StampedStillSealed(key, legacy, w, m);
    assert DictionaryOf(w.plain, w.ids, w.nm) by { SealedDictionary(key, w); }
    Identity.DictionaryStaysShaped(w.plain, w.nm0, w.ids, w.nm);
    RoundTripExactly(key, w.plain.(migratedAt := m.migratedAt), w.ids, w.nm, m, w.lo);
  }

  lemma ConditionsIgnoreStamp(c: Config, nm: NameMap, t: Option<nat>)
    ensures var s := c.(migratedAt := t);
            (AllPlain(s) <==> AllPlain(c)) && (NoCapture(s, nm) <==> NoCapture(c, nm)) && (Validate(s) <==> Validate(c))
  {
    var s := c.(migratedAt := t);
    assert forall v :: NotCaptured(s, nm, v) <==> NotCaptured(c, nm, v);
    assert forall v :: SourceDefined(s, v) <==> SourceDefined(c, v);
  }

  lemma SealedDictionary(key: Key, w: Witness)
    requires EncryptsTo(key, w.plain, w.ids, w.nm, w.sealed, w.lo)
    ensures DictionaryOf(w.plain, w.ids, w.nm) && w.sealed.sources.Keys == w.nm.sources.Keys
    ensures w.sealed.secrets.Keys == w.nm.bags.Keys == w.nm.keys.Keys
    ensures forall b | b in w.nm.bags :: w.sealed.secrets[b].Keys == w.nm.keys[b].Keys
  {
  }

  /** A migrated file needs no migration. */
  lemma MigratedOnce(key: Key, legacy: Config, w: Witness, m: Config)
    requires Migrates(key, legacy, w, m) && WellShaped(w.nm0)
    ensures !NeedsIdMigration(m)
  {
    hide EncryptsTo, DecryptsTo, Encrypt.StableIds;
    SealedDictionary(key, w);
    Identity.DictionaryStaysShaped(w.plain, w.nm0, w.ids, w.nm);
    hide Slots.IsSourceId, Slots.IsBagId, Slots.IsKeyId;
    var secrets := map b | b in m.secrets :: m.secrets[b].Keys;
    assert forall b | b in m.secrets :: secrets[b] == w.nm.keys[b].Keys;
  }

  /** A config without a dictionary, as every config before opaque IDs is, decrypts with its own names. */
  lemma LegacyNamesStay(key: Key, legacy: Config, nm0: NameMap, c: Config)
    requires DecryptsTo(key, legacy, nm0, c) && legacy.nameMap.Blank?
    ensures WellShaped(nm0)
    ensures c.sources.Keys == legacy.sources.Keys && c.secrets.Keys == legacy.secrets.Keys
    ensures forall b | b in c.secrets :: c.secrets[b].Keys == legacy.secrets[b].Keys
  {
    hide SourceOpens, MappingOpens, MappingNamed, SecretsRekeyed, Rekeyed;
    var p :| OpensTo(key, legacy, p) && NamedAs(p, nm0, c);
    SameNames(p.sources, c.sources);
    SameBagNames(p.secrets, c.secrets);
    assert forall b | b in legacy.secrets :: BagOpens(key, b, legacy.secrets[b], p.secrets[b]);
  }

  lemma SameBagNames(src: map<string, map<string, Value>>, dst: map<string, map<string, Value>>)
    requires SecretsRekeyed(src, EMPTY_NAME_MAP, dst)
    ensures dst.Keys == src.Keys && forall b | b in dst :: dst[b].Keys == src[b].Keys
  {
    hide Rekeyed;
    forall b ensures b in dst <==> b in src {
      assert b in src ==> Rename(map[], b) in dst;
    }
    forall b | b in dst ensures dst[b].Keys == src[b].Keys {
      SameNames(src[b], dst[b]);
    }
  }

  lemma SameNames<V>(src: map<string, V>, dst: map<string, V>)
    requires Rekeyed(src, map[], dst)
    ensures dst.Keys == src.Keys
  {
    forall n ensures n in dst <==> n in src {
      assert n in src ==> Rename(map[], n) in dst;
    }
  }

  // ----- the file format ------------------------------------------------------------------------------------------

  /** Encoding, written piece by piece, and decoding of configs. Only that the decoder reads back what was encoded is
      known; Load replaces version 0 by the current one, so such a config is not among those read back. */
  datatype Codec = Codec(encode: Config -> seq<Bytes>, decode: Bytes -> Option<Config>) {
    function Image(c: Config): Bytes {
      Joined(encode(c))
    }

    ghost predicate Faithful() {
      forall c: Config | c.version != 0 :: decode(Image(c)) == Some(c)
    }
  }

  /** A clock that never runs backwards, in seconds. */
  class Clock {
    const ticks: nat -> nat
    var asked: nat
    var now: nat

    constructor (ticks: nat -> nat)
      ensures this.ticks == ticks
    {
      this.ticks, asked, now := ticks, 0, 0;
    }

    method Now() returns (t: nat)
      modifies this
      ensures t == now >= old(now)
    {
      now := now + ticks(asked);
      asked := asked + 1;
      t := now;
    }
  }

  // ----- the migration, step by step ------------------------------------------------------------------------------

  datatype MigrateError =
    NotLoaded | NotBackedUp | NotDecrypted(reason: Failure) | NotEncrypted(reason: Failure) | NotSaved

  ghost predicate HoldsOriginal(original: Bytes, files: Files) {
    ConfigPath in files && files[ConfigPath] == original
  }

  /** A directory state in which a crash does no harm: the config file holds its original bytes, or all of the migrated
      ones and then, before the rollback window ends, some backup holds the original bytes. */
  ghost predicate CrashSafe(codec: Codec, original: Bytes, m: Config, now: nat, retention: int, files: Files) {
    || HoldsOriginal(original, files)
    || (&& ConfigPath in files && files[ConfigPath] == codec.Image(m)
        && (Expired(m.migratedAt, now, retention) || exists w :: Backup(w) in files && files[Backup(w)] == original))
  }

  /** Decrypts and encrypts the loaded config in memory. */
  method Recode(c: LiveConfig, key: Key, rng: Entropy) returns (r: Result<(), MigrateError>, ghost w: Witness)
    requires c.Apart()
    modifies c, ParamObjs(c.sources), BagObjs(c.secrets), VarObjs(c.mappings), rng
    ensures r.Ok? ==> w.sealed == c.Content() && DecryptsTo(key, old(c.Content()), w.nm0, w.plain)
    ensures r.Ok? ==> EncryptsTo(key, w.plain, w.ids, w.nm, w.sealed, w.lo) && Encrypt.StableIds(w.nm0, w.ids)
    ensures r.Err? ==> r.error.NotDecrypted? || r.error.NotEncrypted?
    ensures r.Err? && r.error.NotDecrypted? <==> !DecryptSucceeds(key, old(c.Content()))
  {
    hide SourcesContent, SecretsContent, MappingsContent, EncryptsTo, DecryptsTo, Encrypt.StableIds, DecryptSucceeds;
    hide Encrypt.EmptyCoordinate;
    ghost var legacy := c.Content();
    w := Witness(EMPTY_NAME_MAP, legacy, Ids(map[], map[], map[]), EMPTY_NAME_MAP, legacy, 0);
    var r1 := Decrypt.DecryptInPlace(c, key);
    if r1.Err? {
      return Err(NotDecrypted(r1.error)), w;
    }
    ghost var nm0, plain, lo := c.idMap.names, c.Content(), rng.next;
    label Decrypted:
    assert Encrypt.PriorNames(key, Encrypt.LiveNames(c), c.nameMap) == Ok(nm0);
    var r2, ids := Encrypt.EncryptInPlace(c, key, rng);
    if r2.Err? {
      return Err(NotEncrypted(r2.error)), w;
    }
    w := Witness(nm0, plain, ids, c.idMap.names, c.Content(), lo);
    return Ok(()), w;
  }

  /** Recode, then the stamp with the time of the migration. */
  method RecodeAndStamp(c: LiveConfig, key: Key, rng: Entropy, clock: Clock)
    returns (r: Result<(), MigrateError>, ghost w: Witness)
    requires c.Apart()
    modifies c, ParamObjs(c.sources), BagObjs(c.secrets), VarObjs(c.mappings), rng, clock
    ensures r.Ok? ==> Migrates(key, old(c.Content()), w, c.Content())
    ensures r.Ok? ==> c.migratedAt == Some(clock.now) && clock.now >= old(clock.now)
    ensures r.Err? ==> (r.error.NotDecrypted? || r.error.NotEncrypted?) && clock.now == old(clock.now)
    ensures r.Err? && r.error.NotDecrypted? <==> !DecryptSucceeds(key, old(c.Content()))
  {
    hide SourcesContent, SecretsContent, MappingsContent, EncryptsTo, DecryptsTo, Encrypt.StableIds, DecryptSucceeds;
    r, w := Recode(c, key, rng);
    if r.Err? {
      return;
    }
    KindsApart(c);
    var t := clock.Now();
    Stamp(c, t);
  }

  method Stamp(c: LiveConfig, t: nat)
    modifies c`migratedAt
    ensures c.Content() == old(c.Content()).(migratedAt := Some(t)) && c.migratedAt == Some(t)
  {
    hide SourcesContent, SecretsContent, MappingsContent;
    KindsApart(c);
    c.migratedAt := Some(t);
  }

  /** atomicSave: the write, then the retention sweep. */
  method AtomicSave(fs: Fs, chunks: seq<Bytes>, n: nat, migratedAt: Option<nat>, clock: Clock, retention: int)
    returns (ok: bool)
    requires fs.Valid()
    modifies fs, clock
    ensures fs.Valid() && old(fs.trace) <= fs.trace && clock.now >= old(clock.now)
    ensures !ok ==> DifferAt(old(fs.files), fs.files, Temp(n)) && (fs.removable ==> fs.files == old(fs.files))
    ensures ok ==> OnlyBackupsGone(old(fs.files)[ConfigPath := Joined(chunks)], fs.files)
    ensures ok && (retention < 0 || migratedAt.None? || clock.now < migratedAt.value + retention) ==>
      fs.files == old(fs.files)[ConfigPath := Joined(chunks)]
    ensures retention < 0 || migratedAt.None? || clock.now < migratedAt.value + retention ==>
      forall k | |old(fs.trace)| <= k < |fs.trace| :: OthersStay(old(fs.files), Temp(n), fs.trace[k])
    ensures forall k | |old(fs.trace)| <= k < |fs.trace| ::
      SaveState(old(fs.files), Joined(chunks), Temp(n), Expired(migratedAt, clock.now, retention), fs.trace[k])
  {
    ok := WriteFunc(fs, ConfigPath, chunks, n);
    ghost var written := fs.trace;
    forall k | |old(fs.trace)| <= k < |written| ensures OthersStay(old(fs.files), Temp(n), written[k]) {
      OldOrNewKeepsOthers(old(fs.files), Joined(chunks), Temp(n), written[k]);
    }
    if ok {
      var now := clock.Now();
      Sweep(fs, migratedAt, now, retention);
    }
  }

  /** Every file but the config and the temporary one is as it was. */
  ghost predicate OthersStay(before: Files, tmp: Path, after: Files) {
    forall p | p in before && p != ConfigPath && p != tmp :: p in after && after[p] == before[p]
  }

  lemma OldOrNewKeepsOthers(before: Files, data: Bytes, tmp: Path, after: Files)
    requires OldOrNew(before, ConfigPath, data, tmp, after)
    ensures OthersStay(before, tmp, after)
  {
    forall p | p in before && p != ConfigPath && p != tmp ensures p in after && after[p] == before[p] {
      if DifferAt(before, after, tmp) {
        assert p in before - {tmp} && (before - {tmp})[p] == (after - {tmp})[p];
      }
    }
  }

  /** Crash safety within the rollback window, in numbers. */
  lemma SafeInWindow(codec: Codec, original: Bytes, m: Config, now: nat, retention: int, files: Files)
    requires CrashSafe(codec, original, m, now, retention, files)
    requires ConfigPath in files && files[ConfigPath] != original
    requires retention < 0 || (m.migratedAt.Some? ==> now < m.migratedAt.value + retention)
    ensures exists when :: Backup(when) in files && files[Backup(when)] == original
  {
  }

  /** A state a crash during atomicSave can leave. */
  ghost predicate SaveState(base: Files, data: Bytes, tmp: Path, expired: bool, files: Files) {
    || OldOrNew(base, ConfigPath, data, tmp, files)
    || (expired && OnlyBackupsGone(base[ConfigPath := data], files))
  }

  lemma DiskApart(c: LiveConfig, fs: Fs, clock: Clock)
    ensures fs !in ParamObjs(c.sources) && fs !in BagObjs(c.secrets) && fs !in VarObjs(c.mappings) && fs as object != c
    ensures clock !in ParamObjs(c.sources) && clock !in BagObjs(c.secrets) && clock !in VarObjs(c.mappings)
    ensures clock as object != c
    ensures forall o | o in ParamObjs(c.sources) + BagObjs(c.secrets) + VarObjs(c.mappings) :: allocated(o)
  {
  }

  /** The final write of a migration whose backup is complete. */
  method SaveMigrated(fs: Fs, codec: Codec, c: LiveConfig, clock: Clock, n: nat, retention: int, ghost original: Bytes,
                      ghost when: nat)
    returns (saved: bool)
    requires fs.Valid() && HoldsOriginal(original, fs.files)
    requires Backup(when) in fs.files && fs.files[Backup(when)] == original
    modifies fs, clock
    ensures fs.Valid() && old(fs.trace) <= fs.trace && clock.now >= old(clock.now) && ConfigPath in fs.files
    ensures fs.files[ConfigPath] == if saved then codec.Image(old(c.Content())) else original
    ensures forall k | |old(fs.trace)| <= k < |fs.trace| ::
      CrashSafe(codec, original, old(c.Content()), clock.now, retention, fs.trace[k])
  {
    hide SourcesContent, SecretsContent, MappingsContent, SaveState, CrashSafe, Joined;
    ghost var before, start, m := fs.files, |fs.trace|, c.Content();
    saved := AtomicSave(fs, codec.encode(c.Content()), n, c.migratedAt, clock, retention);
    SaveIsSafe(codec, original, m, clock.now, retention, when, n, before, fs, start, saved);
  }

  /** The migration of a config that needs it: backup, re-encoding in memory, save. */
  method Rewrite(fs: Fs, codec: Codec, c: LiveConfig, key: Key, rng: Entropy, clock: Clock, n: nat, retention: int)
    returns (r: Result<(), MigrateError>, ghost m: Config, ghost w: Witness)
    requires fs.Valid() && ConfigPath in fs.files && c.Apart()
    modifies fs, clock, rng, c, ParamObjs(c.sources), BagObjs(c.secrets), VarObjs(c.mappings)
    ensures fs.Valid() && old(fs.trace) <= fs.trace && ConfigPath in fs.files
    ensures r.Err? ==> fs.files[ConfigPath] == old(fs.files[ConfigPath]) && r.error != NotLoaded
    ensures r.Ok? ==> fs.files[ConfigPath] == codec.Image(m) && Migrates(key, old(c.Content()), w, m)
    ensures r.Ok? ==> m.migratedAt.value >= old(clock.now)
    ensures forall k | |old(fs.trace)| <= k < |fs.trace| ::
      CrashSafe(codec, old(fs.files[ConfigPath]), m, clock.now, retention, fs.trace[k])
  {
    hide SourcesContent, SecretsContent, MappingsContent, DecryptSucceeds, Migrates, CrashSafe, Joined;
    DiskApart(c, fs, clock);
    m := c.Content();
    w := Witness(EMPTY_NAME_MAP, m, Ids(map[], map[], map[]), EMPTY_NAME_MAP, m, 0);
    ghost var original, start := fs.files[ConfigPath], |fs.trace|;
    var when := clock.Now();
    r := WriteBackup(fs, when);
    ghost var part := fs.trace;
    if r.Err? {
      OriginalIsSafe(codec, original, m, clock.now, retention, part, start);
      return;
    }
    assert c.Content() == m;
    var r1, w1 := RecodeAndStamp(c, key, rng, clock);
    w := w1;
    if r1.Err? {
      OriginalIsSafe(codec, original, m, clock.now, retention, part, start);
      return Err(r1.error), m, w;
    }
    m := c.Content();
    var saved := SaveMigrated(fs, codec, c, clock, n, retention, original, when);
    OriginalIsSafe(codec, original, m, clock.now, retention, part, start);
    return if saved then Ok(()) else Err(NotSaved), m, w;
  }

  /** MigrateToOpaqueIDsLocked. `loaded` is what Load decodes from the config file, null when it does not decode. The
      result Ok(true) means that the file was rewritten, Ok(false) that nothing was done; after an error the file still
      holds its original bytes; and every state the directory went through is crash-safe. */
  method MigrateLocked(fs: Fs, codec: Codec, loaded: LiveConfig?, key: Key, rng: Entropy, clock: Clock, n: nat,
                       retention: int)
    returns (r: Result<bool, MigrateError>, ghost m: Config, ghost w: Witness)
    requires fs.Valid() && ConfigPath in fs.files
    requires loaded == null <==> codec.decode(fs.files[ConfigPath]).None?
    requires loaded != null ==> loaded.Apart() && codec.decode(fs.files[ConfigPath]) == Some(loaded.Content())
    modifies fs, clock, rng
    modifies loaded, if loaded == null then {} else loaded.Objs()
    ensures fs.Valid() && old(fs.trace) <= fs.trace && ConfigPath in fs.files
    ensures r == Ok(false) <==> old(loaded != null && !NeedsIdMigration(loaded.Content()))
    ensures r == Ok(false) ==> fs.files == old(fs.files) && fs.trace == old(fs.trace)
    ensures r.Err? ==> fs.files[ConfigPath] == old(fs.files[ConfigPath])
    ensures r == Ok(true) ==> fs.files[ConfigPath] == codec.Image(m)
    ensures r == Ok(true) ==>
      loaded != null && Migrates(key, old(loaded.Content()), w, m) && m.migratedAt.value >= old(clock.now)
    ensures forall k | |old(fs.trace)| <= k < |fs.trace| ::
      CrashSafe(codec, old(fs.files[ConfigPath]), m, clock.now, retention, fs.trace[k])
    ensures retention < 0 || (m.migratedAt.Some? ==> clock.now < m.migratedAt.value + retention) ==>
      forall k | |old(fs.trace)| <= k < |fs.trace| ::
        && ConfigPath in fs.trace[k]
        && (fs.trace[k][ConfigPath] == old(fs.files[ConfigPath])
            || exists when :: Backup(when) in fs.trace[k]
                              && fs.trace[k][Backup(when)] == old(fs.files[ConfigPath]))
  {
    hide Migrates, CrashSafe, NeedsIdMigration;
    if loaded == null {
      m := Config(0, None, map[], map[], [], Blank);
      w := Witness(EMPTY_NAME_MAP, m, Ids(map[], map[], map[]), EMPTY_NAME_MAP, m, 0);
      return Err(NotLoaded), m, w;
    }
    if !NeedsIdMigration(loaded.Content()) {
      m := loaded.Content();
      w := Witness(EMPTY_NAME_MAP, m, Ids(map[], map[], map[]), EMPTY_NAME_MAP, m, 0);
      return Ok(false), m, w;
    }
    var r1;
    r1, m, w := Rewrite(fs, codec, loaded, key, rng, clock, n, retention);
    r := if r1.Ok? then Ok(true) else Err(r1.error);
    if retention < 0 || (m.migratedAt.Some? ==> clock.now < m.migratedAt.value + retention) {
      WindowKeepsBackup(codec, old(fs.files[ConfigPath]), m, clock.now, retention, fs.trace, |old(fs.trace)|);
    }
  }

  lemma WindowKeepsBackup(codec: Codec, original: Bytes, m: Config, now: nat, retention: int, trace: seq<Files>,
                          start: nat)
    requires forall k | start <= k < |trace| :: CrashSafe(codec, original, m, now, retention, trace[k])
    requires retention < 0 || (m.migratedAt.Some? ==> now < m.migratedAt.value + retention)
    ensures forall k | start <= k < |trace| :: OriginalKept(original, trace[k])
  {
    forall k | start <= k < |trace| ensures OriginalKept(original, trace[k]) {
      if ConfigPath in trace[k] && trace[k][ConfigPath] != original {
        SafeInWindow(codec, original, m, now, retention, trace[k]);
      }
    }
  }

  /** The original bytes are there: in the config file or in a backup. */
  ghost predicate OriginalKept(original: Bytes, files: Files) {
    ConfigPath in files &&
    (files[ConfigPath] == original || exists when :: Backup(when) in files && files[Backup(when)] == original)
  }

  /** The backup step: the config file keeps its bytes in every state. */
  method WriteBackup(fs: Fs, when: nat) returns (r: Result<(), MigrateError>)
    requires fs.Valid() && ConfigPath in fs.files
    modifies fs
    ensures fs.Valid() && old(fs.trace) <= fs.trace && HoldsOriginal(old(fs.files[ConfigPath]), fs.files)
    ensures r.Err? ==> r.error == NotBackedUp
    ensures r.Ok? ==> Backup(when) in fs.files && fs.files[Backup(when)] == fs.files[ConfigPath]
    ensures forall k | |old(fs.trace)| <= k < |fs.trace| :: HoldsOriginal(old(fs.files[ConfigPath]), fs.trace[k])
  {
    ghost var base, start := fs.files, |fs.trace|;
    var ok := WriteVerbatimBackup(fs, ConfigPath, Backup(when));
    AgreesElsewhere(base, fs.files, Backup(when), ConfigPath);
    forall k | start <= k < |fs.trace| ensures HoldsOriginal(base[ConfigPath], fs.trace[k]) {
      AgreesElsewhere(base, fs.trace[k], Backup(when), ConfigPath);
    }
    r := if ok then Ok(()) else Err(NotBackedUp);
  }

  lemma AgreesElsewhere(a: Files, b: Files, p: Path, q: Path)
    requires DifferAt(a, b, p) && q in a && q != p
    ensures q in b && b[q] == a[q]
  {
    assert q in a - {p} && (a - {p})[q] == a[q];
  }

  lemma OriginalIsSafe(codec: Codec, original: Bytes, m: Config, now: nat, retention: int, trace: seq<Files>,
                       start: nat)
    requires forall k | start <= k < |trace| :: HoldsOriginal(original, trace[k])
    ensures forall k | start <= k < |trace| :: CrashSafe(codec, original, m, now, retention, trace[k])
  {
  }

  lemma SaveIsSafe(codec: Codec, original: Bytes, m: Config, now: nat, retention: int, when: nat, n: nat,
                   before: Files, fs: Fs, start: nat, saved: bool)
    requires HoldsOriginal(original, before) && Backup(when) in before && before[Backup(when)] == original
    requires start <= |fs.trace|
    requires if saved then OnlyBackupsGone(before[ConfigPath := codec.Image(m)], fs.files)
             else DifferAt(before, fs.files, Temp(n))
    requires forall k | start <= k < |fs.trace| ::
      SaveState(before, codec.Image(m), Temp(n), Expired(m.migratedAt, now, retention), fs.trace[k])
    ensures ConfigPath in fs.files && fs.files[ConfigPath] == if saved then codec.Image(m) else original
    ensures forall k | start <= k < |fs.trace| :: CrashSafe(codec, original, m, now, retention, fs.trace[k])
  {
    if !saved {
      AgreesElsewhere(before, fs.files, Temp(n), ConfigPath);
    }
    forall k | start <= k < |fs.trace| ensures CrashSafe(codec, original, m, now, retention, fs.trace[k]) {
      if DifferAt(before, fs.trace[k], Temp(n)) {
        AgreesElsewhere(before, fs.trace[k], Temp(n), ConfigPath);
      } else if fs.trace[k] == before[ConfigPath := codec.Image(m)] {
        assert Backup(when) in fs.trace[k];
      }
    }
  }
}
