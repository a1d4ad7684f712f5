/** Files written step by step on a disk whose every intermediate state a crash may leave behind
    (internal/atomicfile/atomicfile.go, and the file steps of internal/config/migrate.go). */
module AtomicFile {
  import opened Wrappers

  type Bytes = seq<bv8>

  /** The config file, its backups dated by the second, the fixed-name backup of older versions, and temporary files. */
  datatype Path = ConfigPath | Backup(when: nat) | OldBackup | Temp(n: nat)

  type Files = map<Path, Bytes>

  function Joined(chunks: seq<Bytes>): Bytes {
    if chunks == [] then [] else Joined(chunks[..|chunks| - 1]) + chunks[|chunks| - 1]
  }

  /** Two disks that may differ at p only. */
  ghost predicate DifferAt(a: Files, b: Files, p: Path) {
    a - {p} == b - {p}
  }

  lemma SoleDifference(a: Files, b: Files, p: Path)
    requires DifferAt(a, b, p) && p !in a
    ensures b - {p} == a && (p in b ==> b == a[p := b[p]])
  {
    assert a - {p} == a;
    assert forall q | q in b && q != p :: q in b - {p} && (b - {p})[q] == b[q];
  }

  lemma RemovedToo(a: Files, b: Files, p: Path)
    requires DifferAt(a, b, p)
    ensures DifferAt(a, b - {p}, p)
  {
  }

  /** A directory. Each operation may fail; `trace` records every state the directory goes through. */
  class Fs {
    var files: Files
    ghost var trace: seq<Files>
    const faulty: nat -> bool
    const torn: nat -> nat
    const removable: bool
    var ops: nat

    constructor (files: Files, faulty: nat -> bool, torn: nat -> nat, removable: bool)
      ensures this.files == files && Valid() && trace == [files]
      ensures this.faulty == faulty && this.torn == torn && this.removable == removable
    {
      this.files, this.trace := files, [files];
      this.faulty, this.torn, this.removable, this.ops := faulty, torn, removable, 0;
    }

    ghost predicate Valid()
      reads this
    {
      trace != [] && trace[|trace| - 1] == files
    }

    /** A step that changes no file: open, chmod, sync or close. */
    method Touch() returns (ok: bool)
      modifies this`ops
    {
      ok := !faulty(ops);
      ops := ops + 1;
    }

    /** Creates an empty file where there is none. */
    method CreateNew(p: Path) returns (ok: bool)
      modifies this
      ensures ok ==> p !in old(files) && files == old(files)[p := []] && trace == old(trace) + [files]
      ensures !ok ==> files == old(files) && trace == old(trace)
    {
      ok := !faulty(ops) && p !in files;
      ops := ops + 1;
      if ok {
        files := files[p := []];
        trace := trace + [files];
      }
    }

    /** Appends; a failed write may have written any part. */
    method Append(p: Path, data: Bytes) returns (ok: bool)
      requires p in files
      modifies this
      ensures trace == old(trace) + [files] && p in files && DifferAt(old(files), files, p)
      ensures ok ==> files[p] == old(files[p]) + data
    {
      ok := !faulty(ops);
      var n := torn(ops);
      files := files[p := files[p] + (if ok then data else data[..if n <= |data| then n else |data|])];
      trace := trace + [files];
      ops := ops + 1;
    }

    method Rename(a: Path, b: Path) returns (ok: bool)
      requires a in files && a != b
      modifies this
      ensures ok ==> files == (old(files) - {a})[b := old(files)[a]] && trace == old(trace) + [files]
      ensures !ok ==> files == old(files) && trace == old(trace)
    {
      ok := !faulty(ops);
      ops := ops + 1;
      if ok {
        files := (files - {a})[b := files[a]];
        trace := trace + [files];
      }
    }

    /** os.Remove with its error ignored. */
    method Remove(p: Path)
      modifies this
      ensures files == (if removable then old(files) - {p} else old(files)) && trace == old(trace) + [files]
    {
      if removable {
        files := files - {p};
      }
      trace := trace + [files];
    }

    /** Every state since the trace had length n agrees with base but at p. */
    ghost predicate OnlyTouched(n: nat, base: Files, p: Path)
      reads this
    {
      n <= |trace| && DifferAt(base, files, p) && forall k | n <= k < |trace| :: DifferAt(base, trace[k], p)
    }
  }

  /** Writes `chunks` to an empty file; nothing else on the disk changes, whatever fails. */
  method WriteChunks(fs: Fs, p: Path, chunks: seq<Bytes>, ghost base: Files) returns (ok: bool)
    requires fs.Valid() && p in fs.files && fs.files[p] == [] && DifferAt(base, fs.files, p)
    modifies fs
    ensures fs.Valid() && old(fs.trace) <= fs.trace && fs.OnlyTouched(|old(fs.trace)|, base, p)
    ensures p in fs.files && (ok ==> fs.files[p] == Joined(chunks))
  {
    for i := 0 to |chunks|
      invariant fs.Valid() && old(fs.trace) <= fs.trace && fs.OnlyTouched(|old(fs.trace)|, base, p)
      invariant p in fs.files && fs.files[p] == Joined(chunks[..i])
    {
      var wrote := fs.Append(p, chunks[i]);
      if !wrote {
        return false;
      }
      assert chunks[..i + 1][..i] == chunks[..i];
    }
    assert chunks[..|chunks|] == chunks;
    return true;
  }

  /** Every state a crash during the write can leave: the old file, possibly beside a temporary one, or the new file. */
  ghost predicate OldOrNew(base: Files, path: Path, data: Bytes, tmp: Path, now: Files) {
    DifferAt(base, now, tmp) || now == base[path := data]
  }

  lemma OldOrNewMeans(base: Files, path: Path, data: Bytes, tmp: Path)
    ensures forall now, p | OldOrNew(base, path, data, tmp, now) && p != tmp ::
      if p in now then (p in base && now[p] == base[p]) || (p == path && now[p] == data) else p !in base
  {
    forall now, p | DifferAt(base, now, tmp) && p != tmp
      ensures p in now <==> p in base
      ensures p in now ==> now[p] == base[p]
    {
      assert p in now <==> p in now - {tmp};
      assert p in base <==> p in base - {tmp};
      if p in now {
        assert (now - {tmp})[p] == (base - {tmp})[p];
      }
    }
  }

  /** WriteFunc: the destination changes in one step from its old bytes to all of the new ones, or not at all, and
      unless removing fails no temporary file stays. */
  method WriteFunc(fs: Fs, path: Path, chunks: seq<Bytes>, n: nat) returns (ok: bool)
    requires fs.Valid() && path != Temp(n)
    modifies fs
    ensures fs.Valid() && old(fs.trace) <= fs.trace
    ensures ok ==> fs.files == old(fs.files)[path := Joined(chunks)]
    ensures !ok ==> DifferAt(old(fs.files), fs.files, Temp(n)) && (fs.removable ==> fs.files == old(fs.files))
    ensures forall k | |old(fs.trace)| <= k < |fs.trace| ::
      OldOrNew(old(fs.files), path, Joined(chunks), Temp(n), fs.trace[k])
    ensures forall k, p | |old(fs.trace)| <= k < |fs.trace| && p != Temp(n) ::
      if p in fs.trace[k] then (p in old(fs.files) && fs.trace[k][p] == old(fs.files)[p])
                               || (p == path && fs.trace[k][p] == Joined(chunks))
      else p !in old(fs.files)
  {
    OldOrNewMeans(old(fs.files), path, Joined(chunks), Temp(n));
    var tmp := Temp(n);
    ghost var base := fs.files;
    ok := FillTemp(fs, tmp, chunks);
    if !ok {
      return;
    }
    SoleDifference(base, fs.files, tmp);
    ok := fs.Rename(tmp, path);
    if ok {
      assert fs.files == base[path := Joined(chunks)];
    } else {
      fs.Remove(tmp);
    }
  }

  /** The part before the rename; it cleans up after itself. */
  method FillTemp(fs: Fs, tmp: Path, chunks: seq<Bytes>) returns (ok: bool)
    requires fs.Valid()
    modifies fs
    ensures fs.Valid() && old(fs.trace) <= fs.trace && fs.OnlyTouched(|old(fs.trace)|, old(fs.files), tmp)
    ensures ok ==> tmp !in old(fs.files) && tmp in fs.files && fs.files[tmp] == Joined(chunks)
    ensures !ok && fs.removable ==> fs.files == old(fs.files)
  {
    ghost var base := fs.files;
    var created := fs.CreateNew(tmp);
    if !created {
      return false;
    }
    assert DifferAt(base, fs.files, tmp);
    hide DifferAt;
    ok := FillCreated(fs, tmp, chunks, base);
    if !ok {
      SoleDifference(base, fs.files, tmp);
      RemovedToo(base, fs.files, tmp);
      fs.Remove(tmp);
    }
  }

  /** chmod, write, sync, close. */
  method FillCreated(fs: Fs, tmp: Path, chunks: seq<Bytes>, ghost base: Files) returns (ok: bool)
    requires fs.Valid() && tmp in fs.files && fs.files[tmp] == [] && DifferAt(base, fs.files, tmp)
    modifies fs
    ensures fs.Valid() && old(fs.trace) <= fs.trace && fs.OnlyTouched(|old(fs.trace)|, base, tmp)
    ensures tmp in fs.files && (ok ==> fs.files[tmp] == Joined(chunks))
  {
    hide DifferAt;
    ok := fs.Touch();
    if !ok {
      return;
    }
    ok := WriteChunks(fs, tmp, chunks, base);
    if ok {
      ok := fs.Touch();
    }
    if ok {
      ok := fs.Touch();
    }
  }

  const COPY_CHUNK := 32768

  /** io.Copy: the source is read and appended a piece at a time. */
  method CopyPieces(fs: Fs, src: Path, dst: Path) returns (ok: bool)
    requires fs.Valid() && src in fs.files && dst in fs.files && src != dst && fs.files[dst] == []
    modifies fs
    ensures fs.Valid() && old(fs.trace) <= fs.trace && fs.OnlyTouched(|old(fs.trace)|, old(fs.files), dst)
    ensures dst in fs.files && (ok ==> fs.files[dst] == old(fs.files)[src])
  {
    ghost var base := fs.files;
    var off := 0;
    while off < |fs.files[src]|
      invariant fs.Valid() && old(fs.trace) <= fs.trace && fs.OnlyTouched(|old(fs.trace)|, old(fs.files), dst)
      invariant src in fs.files && dst in fs.files && fs.files[src] == base[src]
      invariant off <= |base[src]| && fs.files[dst] == base[src][..off]
      decreases |base[src]| - off
    {
      var end := if off + COPY_CHUNK <= |fs.files[src]| then off + COPY_CHUNK else |fs.files[src]|;
      var read := fs.Touch();
      if !read {
        return false;
      }
      ghost var was := fs.files;
      var wrote := fs.Append(dst, fs.files[src][off..end]);
      assert src in was - {dst} && (was - {dst})[src] == (fs.files - {dst})[src];
      if !wrote {
        return false;
      }
      off := end;
    }
    return true;
  }

  /** writeVerbatimBackup: dst becomes a byte-for-byte copy of src; a file that was already there is never changed. */
  method WriteVerbatimBackup(fs: Fs, src: Path, dst: Path) returns (ok: bool)
    requires fs.Valid() && src in fs.files && src != dst
    modifies fs
    ensures fs.Valid() && old(fs.trace) <= fs.trace && fs.OnlyTouched(|old(fs.trace)|, old(fs.files), dst)
    ensures ok ==> dst !in old(fs.files) && fs.files == old(fs.files)[dst := old(fs.files)[src]]
    ensures dst in old(fs.files) ==> fs.files == old(fs.files) && fs.trace == old(fs.trace)
    ensures !ok && fs.removable ==> fs.files == old(fs.files)
  {
    ghost var base := fs.files;
    var found := fs.Touch();
    if !found {
      return false;
    }
    var created := fs.CreateNew(dst);
    if !created {
      return false;
    }
    assert DifferAt(base, fs.files, dst);
    ok := CopyPieces(fs, src, dst);
    if ok {
      ok := fs.Touch();
    }
    SoleDifference(base, fs.files, dst);
    if !ok {
      fs.Remove(dst);
    }
  }

  // ----- the retention sweep --------------------------------------------------------------------------------------

  predicate IsBackup(p: Path) {
    p.Backup? || p.OldBackup?
  }

  /** The rollback window is over. Times and the retention are in seconds; a negative retention never ends. */
  predicate Expired(migratedAt: Option<nat>, now: nat, retention: int) {
    retention >= 0 && migratedAt.Some? && now - migratedAt.value >= retention
  }

  /** The two disks agree on everything but backups, and b has no backup that a has not. */
  ghost predicate OnlyBackupsGone(a: Files, b: Files) {
    && b.Keys <= a.Keys
    && forall p | p in a :: if p in b then b[p] == a[p] else IsBackup(p)
  }

  /** sweepMigrationBackupIfExpired: before the window ends nothing is touched; after it only backups go. */
  method Sweep(fs: Fs, migratedAt: Option<nat>, now: nat, retention: int)
    requires fs.Valid()
    modifies fs
    ensures fs.Valid() && old(fs.trace) <= fs.trace
    ensures retention < 0 || migratedAt.None? || now < migratedAt.value + retention ==>
      fs.files == old(fs.files) && fs.trace == old(fs.trace)
    ensures OnlyBackupsGone(old(fs.files), fs.files)
    ensures forall k | |old(fs.trace)| <= k < |fs.trace| :: OnlyBackupsGone(old(fs.files), fs.trace[k])
    ensures retention >= 0 && migratedAt.Some? && now >= migratedAt.value + retention && fs.removable ==>
      forall p | p in fs.files :: !p.Backup? && !p.OldBackup?
    ensures forall p | p in old(fs.files) && !p.Backup? && !p.OldBackup? ::
      p in fs.files && fs.files[p] == old(fs.files)[p]
  {
    if retention < 0 || migratedAt.None? || now - migratedAt.value < retention {
      return;
    }
    var todo := set p | p in fs.files && p.Backup?;
    while todo != {}
      invariant fs.Valid() && old(fs.trace) <= fs.trace
      invariant OnlyBackupsGone(old(fs.files), fs.files) && forall p | p in todo :: p.Backup?
      invariant fs.removable ==> forall p | p in fs.files && p.Backup? :: p in todo
      invariant forall k | |old(fs.trace)| <= k < |fs.trace| :: OnlyBackupsGone(old(fs.files), fs.trace[k])
      decreases todo
    {
      var p :| p in todo;
      todo := todo - {p};
      fs.Remove(p);
    }
    fs.Remove(OldBackup);
  }
}
