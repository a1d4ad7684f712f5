/** A migration nobody disturbs: in every run, as long as no process has migrated the file, another may, and its steps
    come to their end (internal/config/migrate.go:233-301). */
module MigrationRun {
  import opened Wrappers
  import opened ConfigModel
  import opened NameId
  import opened AtomicFile
  import opened Migrate
  import opened MigrationRace

  lemma Extended(s: Setup, ws: seq<World>, acts: seq<(nat, Act)>, p: nat, a: Act, w: World)
    requires Run(s, ws, acts) && Step(s, ws[|acts|], p, a, w)
    ensures Run(s, ws + [w], acts + [(p, a)])
  {
    hide Step, Init;
    var ws', acts' := ws + [w], acts + [(p, a)];
    forall i | 0 <= i < |acts'| ensures Step(s, ws'[i], acts'[i].0, acts'[i].1, ws'[i + 1]) {
      if i < |acts| {
        assert Step(s, ws[i], acts[i].0, acts[i].1, ws[i + 1]);
      }
    }
  }

  /** The acts are those of p alone, after the run that was there. */
  ghost predicate Continues(s: Setup, ws: seq<World>, acts: seq<(nat, Act)>, p: nat, ws': seq<World>,
                            acts': seq<(nat, Act)>) {
    && Run(s, ws', acts') && acts <= acts' && ws <= ws' && forall k | |acts| <= k < |acts'| :: acts'[k].0 == p
  }

  lemma Then(s: Setup, ws: seq<World>, acts: seq<(nat, Act)>, p: nat, ws': seq<World>, acts': seq<(nat, Act)>, a: Act,
             w: World)
    returns (ws'': seq<World>, acts'': seq<(nat, Act)>)
    requires Continues(s, ws, acts, p, ws', acts') && |ws'| == |acts'| + 1 && Step(s, ws'[|acts'|], p, a, w)
    ensures Continues(s, ws, acts, p, ws'', acts'') && |ws''| == |acts''| + 1 && ws''[|acts''|] == w
  {
    Extended(s, ws', acts', p, a, w);
    hide Run, Step;
    ws'', acts'' := ws' + [w], acts' + [(p, a)];
  }

  /** w with p elsewhere, other files, and the lock with p or with nobody. */
  function During(w: World, p: nat, pc: Pc, files: Files, locked: bool): World {
    w.(procs := w.procs[p := pc], files := files, holder := if locked then Some(p) else None)
  }

  lemma MigrationStarts(s: Setup, w: World, p: nat)
    requires w.holder.None? && At(w, p).Idle? && OnDisk(s, w) == Some(s.legacy) && NeedsIdMigration(s.legacy)
    ensures Step(s, w, p, Probe, During(w, p, Wanting, w.files, false))
    ensures Step(s, During(w, p, Wanting, w.files, false), p, Acquire, During(w, p, Holding, w.files, true))
    ensures Step(s, During(w, p, Holding, w.files, true), p, Load, During(w, p, Loaded(s.legacy), w.files, true))
  {
    hide NeedsIdMigration;
  }

  lemma MigrationCopies(s: Setup, w: World, p: nat, m: Config, wit: Witness)
    requires ConfigPath in w.files && w.files[ConfigPath] == s.original && Backup(w.now) !in w.files
    requires Migrates(s.key, s.legacy, wit, m) && m.migratedAt == Some(w.now)
    ensures var created, copied := w.files[Backup(w.now) := []], w.files[Backup(w.now) := s.original];
      && Step(s, During(w, p, Loaded(s.legacy), w.files, true), p, CreateBackup,
              During(w, p, Copying(s.legacy, w.now), created, true))
      && Step(s, During(w, p, Copying(s.legacy, w.now), created, true), p, CopyMore(|s.original|),
              During(w, p, BackedUp(s.legacy, w.now), copied, true))
      && Step(s, During(w, p, BackedUp(s.legacy, w.now), copied, true), p, Recode(m, wit),
              During(w, p, Encoded(m, Migration(w.now, wit)), copied, true))
  {
    hide Migrates;
    var created, copied := w.files[Backup(w.now) := []], w.files[Backup(w.now) := s.original];
    assert created[Backup(w.now) := s.original] == copied && s.original[..|s.original|] == s.original;
  }

  /** The file as the migration leaves it. */
  function Rewritten(s: Setup, w: World, p: nat, m: Config, pc: Pc, files: Files, locked: bool): World {
    During(w, p, pc, files, locked).(
      rewriters := w.rewriters + {p}, current := m, kept := w.now,
      stamp := if m.migratedAt.Some? then m.migratedAt.value else 0)
  }

  lemma MigrationWrites(s: Setup, w: World, p: nat, m: Config, kind: Kind, tmp: nat, files: Files)
    requires Temp(tmp) !in files
    ensures var image := s.codec.Image(m);
      && Step(s, During(w, p, Encoded(m, kind), files, true), p, CreateTemp(tmp),
              During(w, p, Writing(m, kind, tmp), files[Temp(tmp) := []], true))
      && Step(s, During(w, p, Writing(m, kind, tmp), files[Temp(tmp) := []], true), p, WriteMore(|image|),
              During(w, p, Writing(m, kind, tmp), files[Temp(tmp) := image], true))
  {
    var image := s.codec.Image(m);
    assert image[..|image|] == image;
    assert files[Temp(tmp) := []][Temp(tmp) := image] == files[Temp(tmp) := image];
  }

  lemma MigrationRenames(s: Setup, w: World, p: nat, m: Config, wit: Witness, tmp: nat, files: Files)
    requires Temp(tmp) !in files
    ensures var image, kind := s.codec.Image(m), Migration(w.now, wit);
      Step(s, During(w, p, Writing(m, kind, tmp), files[Temp(tmp) := image], true), p, RenameTemp,
           Rewritten(s, w, p, m, Renamed(m, kind), files[ConfigPath := image], true))
  {
    assert files[Temp(tmp) := s.codec.Image(m)] - {Temp(tmp)} == files;
  }

  lemma MigrationEnds(s: Setup, w: World, p: nat, m: Config, wit: Witness, files: Files)
    ensures var w' := Rewritten(s, w, p, m, Done(true), files, false);
      && Step(s, Rewritten(s, w, p, m, Renamed(m, Migration(w.now, wit)), files, true), p, Finish, w')
      && At(w', p) == Done(true) && w'.holder.None? && w'.files == files
  {
  }

  /** In every run whose file is not migrated yet, an idle process may migrate it when nobody holds the lock: whatever
      IDs and nonces are drawn, there are steps of its own that put the migrated config in place, with the original
      beside it, and end with the report that it migrated. */
  lemma MigrationMayComplete(s: Setup, ws: seq<World>, acts: seq<(nat, Act)>, p: nat, m: Config, wit: Witness, tmp: nat)
    returns (ws': seq<World>, acts': seq<(nat, Act)>)
    requires Run(s, ws, acts) && CleanDictionary(s)
    requires var w := ws[|acts|];
      && w.rewriters == {} && w.holder.None? && At(w, p).Idle?
      && Backup(w.now) !in w.files && Temp(tmp) !in w.files
      && Migrates(s.key, s.legacy, wit, m) && m.migratedAt == Some(w.now)
    ensures Continues(s, ws, acts, p, ws', acts') && |ws'| == |acts'| + 1
    ensures var w, w' := ws[|acts|], ws'[|acts'|];
      && At(w', p) == Done(true) && w'.holder.None?
      && w'.files == w.files[Backup(w.now) := s.original][ConfigPath := s.codec.Image(m)]
  {
    var w := ws[|acts|];
    RunKeepsInv(s, ws, acts, |acts|);
    LegacyIsKnown(s, ws, acts);
    assert ConfigPath in w.files && w.files[ConfigPath] == s.original;
    MigrationStarts(s, w, p);
    MigrationCopies(s, w, p, m, wit);
    var copied, kind := w.files[Backup(w.now) := s.original], Migration(w.now, wit);
    MigrationWrites(s, w, p, m, kind, tmp, copied);
    MigrationRenames(s, w, p, m, wit, tmp, copied);
    MigrationEnds(s, w, p, m, wit, copied[ConfigPath := s.codec.Image(m)]);
    hide Inv, DiskOk, ProcOk, OwnTemps, Run, Step, NeedsIdMigration, Migrates, Continues, CleanDictionary, Rewritten;
    hide During;
    assert Continues(s, ws, acts, p, ws, acts) && |ws| == |acts| + 1 by { Itself(s, ws, acts, p); }
    ws', acts' := Then(s, ws, acts, p, ws, acts, Probe, During(w, p, Wanting, w.files, false));
    ws', acts' := Then(s, ws, acts, p, ws', acts', Acquire, During(w, p, Holding, w.files, true));
    ws', acts' := Then(s, ws, acts, p, ws', acts', Load, During(w, p, Loaded(s.legacy), w.files, true));
    var created, image := w.files[Backup(w.now) := []], s.codec.Image(m);
    ws', acts' := Then(s, ws, acts, p, ws', acts', CreateBackup, During(w, p, Copying(s.legacy, w.now), created, true));
    ws', acts' :=
      Then(s, ws, acts, p, ws', acts', CopyMore(|s.original|), During(w, p, BackedUp(s.legacy, w.now), copied, true));
    ws', acts' := Then(s, ws, acts, p, ws', acts', Recode(m, wit), During(w, p, Encoded(m, kind), copied, true));
    ws', acts' := Then(s, ws, acts, p, ws', acts', CreateTemp(tmp),
                       During(w, p, Writing(m, kind, tmp), copied[Temp(tmp) := []], true));
    ws', acts' := Then(s, ws, acts, p, ws', acts', WriteMore(|image|),
                       During(w, p, Writing(m, kind, tmp), copied[Temp(tmp) := image], true));
    ws', acts' := Then(s, ws, acts, p, ws', acts', RenameTemp,
                       Rewritten(s, w, p, m, Renamed(m, kind), copied[ConfigPath := image], true));
    ws', acts' := Then(s, ws, acts, p, ws', acts', Finish,
                       Rewritten(s, w, p, m, Done(true), copied[ConfigPath := image], false));
  }

  lemma Itself(s: Setup, ws: seq<World>, acts: seq<(nat, Act)>, p: nat)
    requires Run(s, ws, acts)
    ensures Continues(s, ws, acts, p, ws, acts) && |ws| == |acts| + 1
  {
  }

  lemma LegacyIsKnown(s: Setup, ws: seq<World>, acts: seq<(nat, Act)>)
    requires Run(s, ws, acts)
    ensures IsLegacy(s)
  {
  }
}
