/** Any number of processes migrating, saving and crashing around one config file (internal/config/migrate.go:183-301,
    401-425, internal/lockfile, internal/atomicfile/atomicfile.go:49-86). One step is one change of the directory, of
    the lock or of the clock, so every reachable world is a point at which a crash may strike. */
module MigrationRace {
  import opened Wrappers
  import opened Envelope
  import opened ConfigModel
  import opened EncryptSpec
  import opened RoundTrip
  import opened NameId
  import opened AtomicFile
  import opened Migrate

  /** What stays fixed during a run: the file as it was before any migration, and the environment. */
  datatype Setup = Setup(codec: Codec, key: Key, original: Bytes, legacy: Config, retention: int)

  /** The file is a legacy config: it decodes, and its names are not opaque IDs yet. */
  ghost predicate IsLegacy(s: Setup) {
    && s.codec.Faithful()
    && s.codec.decode(s.original) == Some(s.legacy) && NeedsIdMigration(s.legacy) && s.legacy.version != 0
  }

  /** A save is the last part of a migration, or an ordinary one by a process that loaded a migrated config. */
  datatype Kind = Migration(when: nat, w: Witness) | Ordinary

  datatype Pc =
    | Idle
    | Wanting
    | Holding
    | Loaded(c: Config)
    | Copying(c: Config, when: nat)
    | BackedUp(c: Config, when: nat)
    | Encoded(m: Config, kind: Kind)
    | Writing(m: Config, kind: Kind, tmp: nat)
    | Renamed(m: Config, kind: Kind)
    | Done(migrated: bool)
    | Dead

  /** The directory, the processes, who holds the lock, and the clock; the last four fields only record what happened:
      who rewrote the file in a migration, the config now in the file, the stamp, and the backup made. */
  datatype World = World(
    files: Files, procs: map<nat, Pc>, holder: Option<nat>, now: nat,
    rewriters: set<nat>, current: Config, stamp: nat, kept: nat)

  datatype Act =
    | Probe | Acquire | Load | CreateBackup | CopyMore(n: nat) | Recode(m: Config, w: Witness)
    | BeginSave(m: Config) | CreateTemp(tmp: nat) | WriteMore(n: nat) | RenameTemp | SweepOne(p: Path) | Finish
    | Fail | Crash | Tick(t: nat)

  function At(w: World, p: nat): Pc {
    if p in w.procs then w.procs[p] else Idle
  }

  function Goes(w: World, p: nat, pc: Pc): World {
    w.(procs := w.procs[p := pc])
  }

  /** p stops; the lock it holds is released. */
  function Stops(w: World, p: nat, pc: Pc): World {
    Goes(w, p, pc).(holder := if w.holder == Some(p) then None else w.holder)
  }

  function OnDisk(s: Setup, w: World): Option<Config>
  {
    if ConfigPath in w.files then s.codec.decode(w.files[ConfigPath]) else None
  }

  /** The file p is writing, removed where the failure branches remove it, or left behind. */
  ghost predicate CleanedUp(pc: Pc, before: Files, after: Files) {
    match pc
    case Copying(_, when) => after == before || after == before - {Backup(when)}
    case Writing(_, _, tmp) => after == before || after == before - {Temp(tmp)}
    case _ => after == before
  }

  /** The first n bytes of the source are in the backup. */
  function Copied(w: World, p: nat, c: Config, when: nat, source: Bytes, n: nat): World
    requires n <= |source|
  {
    (if n == |source| then Goes(w, p, BackedUp(c, when)) else w).(files := w.files[Backup(when) := source[..n]])
  }

  /** The temporary file takes the place of the config file. */
  function Moved(w: World, p: nat, m: Config, kind: Kind, tmp: Path): World
    requires tmp in w.files
  {
    var w' := Goes(w, p, Renamed(m, kind)).(files := (w.files - {tmp})[ConfigPath := w.files[tmp]], current := m);
    match kind
    case Ordinary => w'
    case Migration(when, _) =>
      w'.(rewriters := w.rewriters + {p}, kept := when,
          stamp := if m.migratedAt.Some? then m.migratedAt.value else 0)
  }

  ghost predicate Step(s: Setup, w: World, p: nat, a: Act, w': World) {
    match a
    case Tick(t) => t >= w.now && w' == w.(now := t)
    case Crash => w' == Stops(w, p, Dead)
    case Fail =>
      && (At(w, p).Wanting? || At(w, p).Holding? || At(w, p).Loaded? || At(w, p).Copying? || At(w, p).BackedUp?
          || At(w, p).Encoded? || At(w, p).Writing?)
      && CleanedUp(At(w, p), w.files, w'.files) && w' == Stops(w.(files := w'.files), p, Done(false))
    case Probe =>
      && At(w, p).Idle? && OnDisk(s, w).Some?
      && w' == Goes(w, p, if NeedsIdMigration(OnDisk(s, w).value) then Wanting else Done(false))
    case Acquire => At(w, p).Wanting? && w.holder.None? && w' == Goes(w, p, Holding).(holder := Some(p))
    case Load =>
      && At(w, p).Holding? && OnDisk(s, w).Some?
      && w' == if NeedsIdMigration(OnDisk(s, w).value) then Goes(w, p, Loaded(OnDisk(s, w).value))
               else Stops(w, p, Done(false))
    case CreateBackup =>
      && At(w, p).Loaded? && Backup(w.now) !in w.files
      && w' == Goes(w, p, Copying(At(w, p).c, w.now)).(files := w.files[Backup(w.now) := []])
    case CopyMore(n) =>
      && At(w, p).Copying? && ConfigPath in w.files && n <= |w.files[ConfigPath]| && Backup(At(w, p).when) in w.files
      && w' == Copied(w, p, At(w, p).c, At(w, p).when, w.files[ConfigPath], n)
    case Recode(m, wit) =>
      && At(w, p).BackedUp? && Migrates(s.key, At(w, p).c, wit, m) && m.migratedAt == Some(w.now)
      && w' == Goes(w, p, Encoded(m, Migration(At(w, p).when, wit)))
    case BeginSave(m) =>
      && At(w, p).Idle? && OnDisk(s, w).Some? && !NeedsIdMigration(OnDisk(s, w).value)
      && !NeedsIdMigration(m) && m.version != 0 && m.migratedAt == OnDisk(s, w).value.migratedAt
      && w' == Goes(w, p, Encoded(m, Ordinary))
    case CreateTemp(tmp) =>
      && At(w, p).Encoded? && Temp(tmp) !in w.files
      && w' == Goes(w, p, Writing(At(w, p).m, At(w, p).kind, tmp)).(files := w.files[Temp(tmp) := []])
    case WriteMore(n) =>
      && At(w, p).Writing? && n <= |s.codec.Image(At(w, p).m)|
      && w' == w.(files := w.files[Temp(At(w, p).tmp) := s.codec.Image(At(w, p).m)[..n]])
    case RenameTemp =>
      && At(w, p).Writing? && Temp(At(w, p).tmp) in w.files
      && w.files[Temp(At(w, p).tmp)] == s.codec.Image(At(w, p).m)
      && w' == Moved(w, p, At(w, p).m, At(w, p).kind, Temp(At(w, p).tmp))
    case SweepOne(path) =>
      && At(w, p).Renamed? && IsBackup(path) && Expired(At(w, p).m.migratedAt, w.now, s.retention)
      && w' == w.(files := w.files - {path})
    case Finish => At(w, p).Renamed? && w' == Stops(w, p, Done(At(w, p).kind.Migration?))
  }

  ghost predicate Init(s: Setup, w: World) {
    && IsLegacy(s) && ConfigPath in w.files && w.files[ConfigPath] == s.original
    && w.procs == map[] && w.holder.None? && w.rewriters == {}
  }

  ghost predicate Run(s: Setup, ws: seq<World>, acts: seq<(nat, Act)>) {
    && |ws| == |acts| + 1 && Init(s, ws[0])
    && forall i | 0 <= i < |acts| :: Step(s, ws[i], acts[i].0, acts[i].1, ws[i + 1])
  }

  // ----- the invariant --------------------------------------------------------------------------------------------

  /** p is migrating and has not renamed yet. */
  predicate Migrating(pc: Pc) {
    || pc.Loaded? || pc.Copying? || pc.BackedUp? || ((pc.Encoded? || pc.Writing?) && pc.kind.Migration?)
  }

  predicate NeedsLock(pc: Pc) {
    pc.Holding? || Migrating(pc) || (pc.Renamed? && pc.kind.Migration?)
  }

  ghost predicate HasBackup(s: Setup, w: World, when: nat) {
    Backup(when) in w.files && w.files[Backup(when)] == s.original
  }

  /** A config about to replace the file. */
  ghost predicate Replacement(s: Setup, w: World, m: Config, kind: Kind) {
    && !NeedsIdMigration(m) && m.version != 0
    && match kind
       case Migration(when, wit) =>
         HasBackup(s, w, when) && Migrates(s.key, s.legacy, wit, m) && m.migratedAt.Some? && m.migratedAt.value <= w.now
       case Ordinary => w.rewriters != {} && m.migratedAt == Some(w.stamp)
  }

  ghost predicate ProcOk(s: Setup, w: World, p: nat) {
    var pc := At(w, p);
    && (NeedsLock(pc) ==> w.holder == Some(p))
    && (Migrating(pc) ==> w.rewriters == {})
    && match pc
       case Loaded(c) => c == s.legacy
       case Copying(c, when) => c == s.legacy && Backup(when) in w.files
       case BackedUp(c, when) => c == s.legacy && HasBackup(s, w, when)
       case Encoded(m, kind) => Replacement(s, w, m, kind)
       case Writing(m, kind, tmp) => Replacement(s, w, m, kind) && Temp(tmp) in w.files
       case Renamed(m, kind) =>
         w.rewriters != {} && m.migratedAt == Some(w.stamp) && (kind.Migration? ==> p in w.rewriters)
       case Done(migrated) => migrated ==> p in w.rewriters
       case _ => true
  }

  /** What the disk holds, whatever the processes do. */
  ghost predicate DiskOk(s: Setup, w: World) {
    && ConfigPath in w.files && |w.rewriters| <= 1
    && if w.rewriters == {} then w.files[ConfigPath] == s.original else
       && w.files[ConfigPath] == s.codec.Image(w.current)
       && !NeedsIdMigration(w.current) && w.current.version != 0
       && w.current.migratedAt == Some(w.stamp) && w.stamp <= w.now
       && (Expired(Some(w.stamp), w.now, s.retention) || HasBackup(s, w, w.kept))
  }

  /** No two processes write the same temporary file. */
  ghost predicate OwnTemps(w: World, p: nat, q: nat) {
    p != q && At(w, p).Writing? && At(w, q).Writing? ==> At(w, p).tmp != At(w, q).tmp
  }

  ghost predicate Inv(s: Setup, w: World) {
    DiskOk(s, w) && (forall p :: ProcOk(s, w, p)) && forall p, q :: OwnTemps(w, p, q)
  }

  /** The dictionary a legacy file opens with holds only IDs; a file without dictionary opens with none at all. */
  ghost predicate CleanDictionary(s: Setup) {
    forall nm | OpenNameMap(s.key, s.legacy.nameMap) == Ok(nm) :: WellShaped(nm)
  }

  lemma DiskIsDecoded(s: Setup, w: World)
    requires IsLegacy(s) && DiskOk(s, w)
    ensures OnDisk(s, w) == Some(if w.rewriters == {} then s.legacy else w.current)
  {
  }

  lemma StepKeepsInv(s: Setup, w: World, p: nat, a: Act, w': World)
    requires IsLegacy(s) && CleanDictionary(s) && Inv(s, w) && Step(s, w, p, a, w')
    ensures Inv(s, w')
  {
    hide Step, ProcOk, OwnTemps, DiskOk, IsLegacy, CleanDictionary;
    StepKeepsDisk(s, w, p, a, w');
    forall q ensures ProcOk(s, w', q) {
      if q == p {
        StepKeepsActor(s, w, p, a, w');
      } else {
        StepKeepsOthers(s, w, p, a, w', q);
      }
    }
    forall q, r ensures OwnTemps(w', q, r) {
      assert OwnTemps(w, q, r);
      StepKeepsTemps(s, w, p, a, w', q, r);
    }
  }

  lemma StepKeepsTemps(s: Setup, w: World, p: nat, a: Act, w': World, q: nat, r: nat)
    requires Step(s, w, p, a, w') && ProcOk(s, w, q) && ProcOk(s, w, r) && OwnTemps(w, q, r)
    ensures OwnTemps(w', q, r)
  {
    hide NeedsIdMigration, Migrates, OnDisk, Replacement, CleanedUp, Expired;
  }

  lemma StepKeepsDisk(s: Setup, w: World, p: nat, a: Act, w': World)
    requires IsLegacy(s) && CleanDictionary(s) && Inv(s, w) && Step(s, w, p, a, w')
    ensures DiskOk(s, w')
  {
    hide NeedsIdMigration, Migrates, IsLegacy, CleanDictionary;
    assert ProcOk(s, w, p);
    if a.RenameTemp? {
      RenameKeepsDisk(s, w, p, w');
    } else if a.SweepOne? {
      SweepKeepsDisk(s, w, p, a.p, w');
    } else {
      hide ProcOk;
      OtherKeepsDisk(s, w, p, a, w');
    }
  }

  lemma RenameKeepsDisk(s: Setup, w: World, p: nat, w': World)
    requires DiskOk(s, w) && ProcOk(s, w, p) && Step(s, w, p, RenameTemp, w')
    ensures DiskOk(s, w')
  {
    hide NeedsIdMigration, Migrates;
  }

  lemma SweepKeepsDisk(s: Setup, w: World, p: nat, path: Path, w': World)
    requires DiskOk(s, w) && ProcOk(s, w, p) && Step(s, w, p, SweepOne(path), w')
    ensures DiskOk(s, w')
  {
    hide NeedsIdMigration, Migrates, Replacement;
  }

  /** The other steps leave the config file alone, and finished backups too. */
  lemma OtherKeepsDisk(s: Setup, w: World, p: nat, a: Act, w': World)
    requires DiskOk(s, w) && Step(s, w, p, a, w') && !a.RenameTemp? && !a.SweepOne?
    requires Migrating(At(w, p)) ==> w.rewriters == {}
    ensures DiskOk(s, w')
  {
    hide NeedsIdMigration, Migrates, OnDisk;
  }

  lemma RecodedIsNew(s: Setup, wit: Witness, m: Config)
    requires IsLegacy(s) && CleanDictionary(s) && Migrates(s.key, s.legacy, wit, m)
    ensures !NeedsIdMigration(m) && m.version != 0
  {
    hide NeedsIdMigration, WellShaped, SourcesSealed, SecretsSealed, MappingsSealed;
    MigratedOnce(s.key, s.legacy, wit, m);
    var p :| OpensTo(s.key, s.legacy, p) && NamedAs(p, wit.nm0, wit.plain);
  }

  /** The process that takes the step. */
  lemma StepKeepsActor(s: Setup, w: World, p: nat, a: Act, w': World)
    requires IsLegacy(s) && CleanDictionary(s) && DiskOk(s, w) && ProcOk(s, w, p) && Step(s, w, p, a, w')
    ensures ProcOk(s, w', p)
  {
    hide NeedsIdMigration, Migrates, CleanDictionary, OnDisk, Replacement;
    DiskIsDecoded(s, w);
    assert NeedsIdMigration(s.legacy);
    hide IsLegacy;
    if a.Recode? {
      RecodeKeepsActor(s, w, p, a, w');
    } else if a.BeginSave? || a.CreateTemp? || a.WriteMore? || a.RenameTemp? {
      SaveKeepsActor(s, w, p, a, w');
    } else {
      OtherKeepsActor(s, w, p, a, w');
    }
  }

  lemma OtherKeepsActor(s: Setup, w: World, p: nat, a: Act, w': World)
    requires DiskOk(s, w) && ProcOk(s, w, p) && Step(s, w, p, a, w')
    requires !(a.Recode? || a.BeginSave? || a.CreateTemp? || a.WriteMore? || a.RenameTemp?)
    requires OnDisk(s, w) == Some(if w.rewriters == {} then s.legacy else w.current) && NeedsIdMigration(s.legacy)
    ensures ProcOk(s, w', p)
  {
    hide NeedsIdMigration, Migrates, OnDisk;
  }

  lemma RecodeKeepsActor(s: Setup, w: World, p: nat, a: Act, w': World)
    requires IsLegacy(s) && CleanDictionary(s) && ProcOk(s, w, p) && Step(s, w, p, a, w') && a.Recode?
    ensures ProcOk(s, w', p)
  {
    hide NeedsIdMigration, Migrates, CleanDictionary, OnDisk, IsLegacy;
    RecodedIsNew(s, a.w, a.m);
  }

  lemma SaveKeepsActor(s: Setup, w: World, p: nat, a: Act, w': World)
    requires DiskOk(s, w) && ProcOk(s, w, p) && Step(s, w, p, a, w')
    requires a.BeginSave? || a.CreateTemp? || a.WriteMore? || a.RenameTemp?
    requires OnDisk(s, w) == Some(if w.rewriters == {} then s.legacy else w.current) && NeedsIdMigration(s.legacy)
    ensures ProcOk(s, w', p)
  {
    hide NeedsIdMigration, Migrates, OnDisk;
    if a.RenameTemp? {
      RenameKeepsActor(s, w, p, w');
    } else if a.CreateTemp? {
      CreateTempKeepsActor(s, w, p, a, w');
    }
  }

  lemma CreateTempKeepsActor(s: Setup, w: World, p: nat, a: Act, w': World)
    requires ProcOk(s, w, p) && Step(s, w, p, a, w') && a.CreateTemp?
    ensures ProcOk(s, w', p)
  {
    hide NeedsIdMigration, Migrates, OnDisk;
  }

  lemma RenameKeepsActor(s: Setup, w: World, p: nat, w': World)
    requires ProcOk(s, w, p) && Step(s, w, p, RenameTemp, w')
    ensures ProcOk(s, w', p)
  {
    hide NeedsIdMigration, Migrates, OnDisk;
  }

  /** Any other process. */
  lemma StepKeepsOthers(s: Setup, w: World, p: nat, a: Act, w': World, q: nat)
    requires Inv(s, w) && Step(s, w, p, a, w') && q != p
    ensures ProcOk(s, w', q)
  {
    hide NeedsIdMigration, Migrates, OnDisk;
    assert ProcOk(s, w, p) && ProcOk(s, w, q) && OwnTemps(w, p, q);
    if a.RenameTemp? {
      RenameKeepsOthers(s, w, p, w', q);
    } else if a.SweepOne? {
      SweepKeepsOthers(s, w, p, a, w', q);
    } else if a.Fail? || a.CopyMore? || a.CreateBackup? {
      BackupKeepsOthers(s, w, p, a, w', q);
    }
  }

  lemma SweepKeepsOthers(s: Setup, w: World, p: nat, a: Act, w': World, q: nat)
    requires ProcOk(s, w, p) && ProcOk(s, w, q) && Step(s, w, p, a, w') && a.SweepOne? && q != p
    ensures ProcOk(s, w', q)
  {
    hide NeedsIdMigration, Migrates, OnDisk, Expired;
  }

  lemma BackupKeepsOthers(s: Setup, w: World, p: nat, a: Act, w': World, q: nat)
    requires ProcOk(s, w, p) && ProcOk(s, w, q) && OwnTemps(w, p, q) && Step(s, w, p, a, w') && q != p
    requires a.Fail? || a.CopyMore? || a.CreateBackup?
    ensures ProcOk(s, w', q)
  {
    hide NeedsIdMigration, Migrates, OnDisk;
  }

  lemma RenameKeepsOthers(s: Setup, w: World, p: nat, w': World, q: nat)
    requires ProcOk(s, w, p) && ProcOk(s, w, q) && OwnTemps(w, p, q) && Step(s, w, p, RenameTemp, w') && q != p
    requires DiskOk(s, w)
    ensures ProcOk(s, w', q)
  {
    hide NeedsIdMigration, Migrates, OnDisk;
  }

  // ----- the theorems ---------------------------------------------------------------------------------------------

  lemma {:induction false} RunKeepsInv(s: Setup, ws: seq<World>, acts: seq<(nat, Act)>, i: nat)
    requires Run(s, ws, acts) && CleanDictionary(s) && i < |ws|
    ensures Inv(s, ws[i])
  {
    hide Step, CleanDictionary, IsLegacy;
    if i > 0 {
      RunKeepsInv(s, ws, acts, i - 1);
      StepKeepsInv(s, ws[i - 1], acts[i - 1].0, acts[i - 1].1, ws[i]);
    }
  }

  /** At every point of every run, whoever crashes, the config file holds its original bytes or all bytes of one
      migrated config, and then, until the rollback window ends, some backup holds the original bytes. */
  lemma AlwaysRecoverable(s: Setup, ws: seq<World>, acts: seq<(nat, Act)>, i: nat)
    requires Run(s, ws, acts) && CleanDictionary(s) && i < |ws|
    ensures CrashSafe(s.codec, s.original, ws[i].current, ws[i].now, s.retention, ws[i].files)
    ensures HoldsOriginal(s.original, ws[i].files) || !NeedsIdMigration(ws[i].current)
    ensures ConfigPath in ws[i].files
    ensures ws[i].files[ConfigPath] != s.original ==>
      && s.codec.decode(ws[i].files[ConfigPath]) == Some(ws[i].current) && ws[i].current.migratedAt == Some(ws[i].stamp)
      && (s.retention < 0 || ws[i].now < ws[i].stamp + s.retention ==>
            exists when :: Backup(when) in ws[i].files && ws[i].files[Backup(when)] == s.original)
  {
    RunKeepsInv(s, ws, acts, i);
    DiskIsDecoded(s, ws[i]);
    hide Step, CleanDictionary, IsLegacy, NeedsIdMigration;
    assert HasBackup(s, ws[i], ws[i].kept) ==> Backup(ws[i].kept) in ws[i].files;
  }

  /** Step i puts a migrated config in place of the file. */
  predicate Rewrites(ws: seq<World>, acts: seq<(nat, Act)>, i: nat)
    requires i < |acts| && i < |ws|
  {
    acts[i].1.RenameTemp? && At(ws[i], acts[i].0).Writing? && At(ws[i], acts[i].0).kind.Migration?
  }

  /** The record of rewriters grows by exactly those steps. */
  lemma RewritersGrow(s: Setup, w: World, p: nat, a: Act, w': World)
    requires Step(s, w, p, a, w')
    ensures w'.rewriters == if a.RenameTemp? && At(w, p).Writing? && At(w, p).kind.Migration? then w.rewriters + {p}
                            else w.rewriters
  {
    hide NeedsIdMigration, Migrates, OnDisk;
  }

  lemma {:induction false} RewriterRewrote(s: Setup, ws: seq<World>, acts: seq<(nat, Act)>, i: nat, p: nat)
    returns (j: nat)
    requires Run(s, ws, acts) && i < |ws| && p in ws[i].rewriters
    ensures j < i && Rewrites(ws, acts, j) && acts[j].0 == p
  {
    hide Step, IsLegacy;
    RewritersGrow(s, ws[i - 1], acts[i - 1].0, acts[i - 1].1, ws[i]);
    if p in ws[i - 1].rewriters {
      j := RewriterRewrote(s, ws, acts, i - 1, p);
    } else {
      j := i - 1;
    }
  }

  lemma {:induction false} RewritersStay(s: Setup, ws: seq<World>, acts: seq<(nat, Act)>, i: nat, j: nat)
    requires Run(s, ws, acts) && i <= j < |ws|
    ensures ws[i].rewriters <= ws[j].rewriters
  {
    hide Step, IsLegacy;
    if i < j {
      RewritersStay(s, ws, acts, i, j - 1);
      RewritersGrow(s, ws[j - 1], acts[j - 1].0, acts[j - 1].1, ws[j]);
    }
  }

  /** Whatever the race, and whether or not the process lives to report it, the file is rewritten by a migration at most
      once in a run. */
  lemma AtMostOneRewrites(s: Setup, ws: seq<World>, acts: seq<(nat, Act)>, i: nat, j: nat)
    requires Run(s, ws, acts) && CleanDictionary(s) && i < |acts| && j < |acts|
    requires Rewrites(ws, acts, i) && Rewrites(ws, acts, j)
    ensures i == j
  {
    if i < j {
      RewritesOnce(s, ws, acts, i, j);
    } else if j < i {
      RewritesOnce(s, ws, acts, j, i);
    }
  }

  lemma RewritesOnce(s: Setup, ws: seq<World>, acts: seq<(nat, Act)>, i: nat, j: nat)
    requires Run(s, ws, acts) && CleanDictionary(s) && i < j < |acts|
    requires Rewrites(ws, acts, i)
    ensures !Rewrites(ws, acts, j)
  {
    hide Step, CleanDictionary, IsLegacy, DiskOk;
    RewritersGrow(s, ws[i], acts[i].0, acts[i].1, ws[i + 1]);
    RewritersStay(s, ws, acts, i + 1, j);
    RunKeepsInv(s, ws, acts, j);
    assert ProcOk(s, ws[j], acts[j].0) && acts[i].0 in ws[j].rewriters;
  }

  /** A process that reports a migration made the one rewrite there was. */
  lemma ReporterRewrote(s: Setup, ws: seq<World>, acts: seq<(nat, Act)>, i: nat, p: nat)
    requires Run(s, ws, acts) && CleanDictionary(s) && i < |ws| && At(ws[i], p) == Done(true)
    ensures exists j: nat :: j < i && Rewrites(ws, acts, j) && acts[j].0 == p
    ensures |ws[i].rewriters| <= 1 && forall q | At(ws[i], q) == Done(true) :: q == p
  {
    hide Step, CleanDictionary, IsLegacy;
    RunKeepsInv(s, ws, acts, i);
    assert ProcOk(s, ws[i], p);
    var j := RewriterRewrote(s, ws, acts, i, p);
    forall q | At(ws[i], q) == Done(true) ensures q == p {
      assert ProcOk(s, ws[i], q);
      var k := RewriterRewrote(s, ws, acts, i, q);
      AtMostOneRewrites(s, ws, acts, j, k);
    }
  }

  /** Once migrated, a further migration reports false and touches nothing, whether it looks before or after taking the
      lock. */
  lemma RerunIsNoOp(s: Setup, ws: seq<World>, acts: seq<(nat, Act)>, i: nat)
    requires Run(s, ws, acts) && CleanDictionary(s) && i < |acts|
    requires !HoldsOriginal(s.original, ws[i].files) && (acts[i].1.Probe? || acts[i].1.Load?)
    ensures At(ws[i + 1], acts[i].0) == Done(false) && ws[i + 1].files == ws[i].files
  {
    RunKeepsInv(s, ws, acts, i);
    DiskIsDecoded(s, ws[i]);
    assert Step(s, ws[i], acts[i].0, acts[i].1, ws[i + 1]);
  }

  /** What a migration puts in place of the file is the legacy config decrypted and sealed again. */
  lemma RewriteMigrates(s: Setup, ws: seq<World>, acts: seq<(nat, Act)>, i: nat) returns (wit: Witness)
    requires Run(s, ws, acts) && CleanDictionary(s) && i < |acts|
    requires acts[i].1.RenameTemp? && ws[i + 1].rewriters != ws[i].rewriters
    ensures HoldsOriginal(s.original, ws[i].files) && HoldsOriginal(s.codec.Image(ws[i + 1].current), ws[i + 1].files)
    ensures Migrates(s.key, s.legacy, wit, ws[i + 1].current)
  {
    hide NeedsIdMigration, Migrates, CleanDictionary, OnDisk;
    RunKeepsInv(s, ws, acts, i);
    assert ProcOk(s, ws[i], acts[i].0) && Step(s, ws[i], acts[i].0, acts[i].1, ws[i + 1]);
    wit := At(ws[i], acts[i].0).kind.w;
  }

  // ----- saves from outside the protocol --------------------------------------------------------------------------

  /** Some process puts a config in place that is not the successor of the one on disk: a session that loaded before the
      migration and saves now, or a pull that brings back a file from elsewhere. */
  function OutsideSave(s: Setup, w: World, m: Config): World {
    w.(files := w.files[ConfigPath := s.codec.Image(m)], current := m)
  }

  /** The invariant behind all of this still holds exactly when the save changes nothing, or the migration is done and m
      carries its stamp and needs none. */
  lemma OutsideSaveKeepsProtocol(s: Setup, ws: seq<World>, acts: seq<(nat, Act)>, i: nat, m: Config)
    requires Run(s, ws, acts) && CleanDictionary(s) && i < |ws|
    ensures Inv(s, OutsideSave(s, ws[i], m)) <==>
            if ws[i].rewriters == {} then s.codec.Image(m) == s.original
            else !NeedsIdMigration(m) && m.version != 0 && m.migratedAt == Some(ws[i].stamp)
  {
    hide Step, CleanDictionary, IsLegacy, NeedsIdMigration;
    RunKeepsInv(s, ws, acts, i);
    var w, w' := ws[i], OutsideSave(s, ws[i], m);
    forall p ensures ProcOk(s, w', p) {
      OutsideKeepsProc(s, w, m, p);
    }
    hide ProcOk;
    forall p, q ensures OwnTemps(w', p, q) {
      assert OwnTemps(w, p, q);
    }
  }

  lemma OutsideKeepsProc(s: Setup, w: World, m: Config, p: nat)
    requires Inv(s, w)
    ensures ProcOk(s, OutsideSave(s, w, m), p)
  {
    hide NeedsIdMigration, Migrates;
    assert ProcOk(s, w, p);
  }

  /** A crash right after such a save does no harm exactly when it changes nothing, or its window has ended, or some
      backup of the original is complete; so after a migration, until the window ends, it never does. */
  lemma OutsideSaveIsSafeExactly(s: Setup, ws: seq<World>, acts: seq<(nat, Act)>, i: nat, m: Config)
    requires Run(s, ws, acts) && CleanDictionary(s) && i < |ws|
    ensures CrashSafe(s.codec, s.original, m, ws[i].now, s.retention, OutsideSave(s, ws[i], m).files) <==>
            || s.codec.Image(m) == s.original || Expired(m.migratedAt, ws[i].now, s.retention)
            || exists when :: HasBackup(s, ws[i], when)
    ensures ws[i].rewriters != {} && !Expired(Some(ws[i].stamp), ws[i].now, s.retention) ==>
      CrashSafe(s.codec, s.original, m, ws[i].now, s.retention, OutsideSave(s, ws[i], m).files)
  {
    hide Step, CleanDictionary, IsLegacy, NeedsIdMigration;
    RunKeepsInv(s, ws, acts, i);
    var w' := OutsideSave(s, ws[i], m);
    if when :| HasBackup(s, ws[i], when) {
      assert Backup(when) in w'.files && w'.files[Backup(when)] == s.original;
    }
    if when :| Backup(when) in w'.files && w'.files[Backup(when)] == s.original {
      assert HasBackup(s, ws[i], when);
    }
  }

  /** And a process that looks afterwards reports false and touches nothing exactly when m needs no migration. */
  lemma RerunAfterOutsideSaveExactly(s: Setup, w: World, m: Config, p: nat, w'': World)
    requires IsLegacy(s) && m.version != 0 && At(w, p).Idle?
    requires Step(s, OutsideSave(s, w, m), p, Probe, w'')
    ensures At(w'', p) == Done(false) <==> !NeedsIdMigration(m)
    ensures w''.files == OutsideSave(s, w, m).files
  {
    hide NeedsIdMigration;
  }
}
