/** The S3 adapter: a blob object written with a precondition, and a meta object written without
    (internal/syncadapters/s3/s3.go:274-443). */
module S3 {
  import opened Wrappers
  import opened Sync

  /** What a GET of one object returns. The ETag may be missing on some stores. */
  datatype Got<T> = Missing | Found(data: T, etag: Option<nat>) | Error

  datatype Condition = Unconditional | IfMatch(etag: nat) | IfNoneMatch

  /** The adapter's memory of the latest Pull. */
  datatype Seen = Seen(etag: Option<nat>, observed: bool)

  function Observation<T>(blob: Got<T>): Seen {
    Seen(if blob.Found? then blob.etag else None, !blob.Missing?)
  }

  function ConditionFor(seen: Seen): Condition {
    if seen.observed && seen.etag.Some? then IfMatch(seen.etag.value)
    else if !seen.observed then IfNoneMatch
    else Unconditional
  }

  predicate Meets(cond: Condition, current: Option<nat>) {
    match cond
    case Unconditional => true
    case IfMatch(etag) => current == Some(etag)
    case IfNoneMatch => current.None?
  }

  /** The three outcomes Pull distinguishes, and errors; a meta object that does not parse reads as None. When the blob
      is absent and the meta GET fails, the error returned is the blob's, which still reads as "no remote state". */
  function ReplyOf(blob: Got<Blob>, meta: Got<Option<Hash>>): Reply {
    if blob.Missing? && meta.Missing? then NoState
    else if blob.Missing? && meta.Found? then HalfState
    else if meta.Missing? && blob.Found? then HalfState
    else if blob.Missing? then NoState
    else if blob.Error? || !meta.Found? then Failed
    else if meta.data.None? then Failed
    else Pair(blob.data, meta.data.value)
  }

  /** What a GET may return for an object. */
  ghost predicate Reads<T>(stored: Option<T>, etag: Option<nat>, got: Got<T>) {
    got.Error? || (if stored.None? then got.Missing? else got == Found(stored.value, etag))
  }

  /** A bucket with the two objects. Every stored blob gets an ETag of its own. */
  class Bucket {
    var blob: Option<Blob>
    var meta: Option<Option<Hash>>
    var etag: nat
    var calls: nat
    const faulty: nat -> bool
    const tagged: bool

    constructor (faulty: nat -> bool, tagged: bool)
      ensures blob.None? && meta.None? && calls == 0 && this.faulty == faulty && this.tagged == tagged
    {
      this.faulty, this.tagged := faulty, tagged;
      blob, meta, etag, calls := None, None, 0, 0;
    }

    function Current(): Option<nat>
      reads this
    {
      if blob.None? then None else Some(etag)
    }

    method GetBlob() returns (r: Got<Blob>)
      modifies this`calls
      ensures Reads(blob, if tagged then Some(etag) else None, r)
      ensures r.Error? <==> faulty(old(calls))
      ensures calls == old(calls) + 1
    {
      var fails := faulty(calls);
      calls := calls + 1;
      r := if fails then Error else if blob.None? then Missing
           else Found(blob.value, if tagged then Some(etag) else None);
    }

    method GetMeta() returns (r: Got<Option<Hash>>)
      modifies this`calls
      ensures Reads(meta, None, r)
      ensures r.Error? <==> faulty(old(calls))
      ensures calls == old(calls) + 1
    {
      var fails := faulty(calls);
      calls := calls + 1;
      r := if fails then Error else if meta.None? then Missing else Found(meta.value, None);
    }

    method PutBlob(b: Blob, cond: Condition) returns (r: PushReply)
      modifies this
      ensures meta == old(meta)
      ensures r.Stored? ==> Meets(cond, old(Current())) && blob == Some(b) && etag == old(etag) + 1
      ensures !r.Stored? ==> blob == old(blob) && etag == old(etag)
      ensures r.Precondition? ==> !Meets(cond, old(Current()))
      ensures !Meets(cond, old(Current())) ==> !r.Stored?
      ensures r.Stored? <==> !faulty(old(calls)) && Meets(cond, old(Current()))
      ensures calls == old(calls) + 1
    {
      var fails := faulty(calls);
      calls := calls + 1;
      if fails {
        return NotStored;
      }
      if !Meets(cond, Current()) {
        return Precondition;
      }
      blob, etag := Some(b), etag + 1;
      return Stored;
    }

    method PutMeta(h: Hash) returns (ok: bool)
      modifies this
      ensures blob == old(blob) && etag == old(etag) && meta == if ok then Some(Some(h)) else old(meta)
      ensures ok <==> !faulty(old(calls))
      ensures calls == old(calls) + 1
    {
      ok := !faulty(calls);
      calls := calls + 1;
      if ok {
        meta := Some(Some(h));
      }
    }
  }

  class S3Adapter {
    var lastBlobETag: Option<nat>
    var lastObserved: bool

    constructor ()
      ensures lastBlobETag.None? && !lastObserved
    {
      lastBlobETag, lastObserved := None, false;
    }

    function Memory(): Seen
      reads this
    {
      Seen(lastBlobETag, lastObserved)
    }

    /** Pull: two GETs, blob first; what the blob GET saw is remembered whatever the outcome. */
    method Pull(bucket: Bucket) returns (r: Reply, ghost blob: Got<Blob>, ghost meta: Got<Option<Hash>>)
      modifies this, bucket`calls
      ensures Reads(bucket.blob, if bucket.tagged then Some(bucket.etag) else None, blob)
      ensures Reads(bucket.meta, None, meta)
      ensures blob.Error? <==> bucket.faulty(old(bucket.calls))
      ensures meta.Error? <==> bucket.faulty(old(bucket.calls) + 1)
      ensures bucket.calls == old(bucket.calls) + 2
      ensures Memory() == Observation(blob)
      ensures r == ReplyOf(blob, meta)
      ensures r.HalfState? <==> !blob.Error? && !meta.Error? && (bucket.blob.Some? != bucket.meta.Some?)
      ensures r.Pair? ==> bucket.blob == Some(r.blob) && bucket.meta == Some(Some(r.hash))
      ensures r.NoState? <==> blob.Missing? && !meta.Found?
    {
      var b := bucket.GetBlob();
      var m := bucket.GetMeta();
      blob, meta := b, m;
      lastBlobETag, lastObserved := if b.Found? then b.etag else None, !b.Missing?;
      r := ReplyOf(b, m);
    }

    /** Push: the blob is stored only if it is still what the latest Pull saw; the meta object is written after it. */
    method Push(bucket: Bucket, blob: Blob, h: Hash) returns (r: PushReply)
      modifies bucket
      ensures r.Stored? <==>
        && Meets(ConditionFor(Memory()), old(bucket.Current()))
        && !bucket.faulty(old(bucket.calls)) && !bucket.faulty(old(bucket.calls) + 1)
      ensures r.Stored? ==>
        bucket.blob == Some(blob) && bucket.meta == Some(Some(h)) && bucket.etag == old(bucket.etag) + 1
      ensures !Meets(ConditionFor(Memory()), old(bucket.Current())) ==>
        bucket.blob == old(bucket.blob) && bucket.meta == old(bucket.meta)
      ensures r.Precondition? ==> bucket.blob == old(bucket.blob) && bucket.meta == old(bucket.meta)
      ensures bucket.blob == old(bucket.blob) || bucket.blob == Some(blob)
      ensures bucket.meta == old(bucket.meta) || (bucket.meta == Some(Some(h)) && bucket.blob == Some(blob))
    {
      r := bucket.PutBlob(blob, ConditionFor(Memory()));
      if !r.Stored? {
        return;
      }
      var ok := bucket.PutMeta(h);
      if !ok {
        r := NotStored;
      }
    }
  }

  /** PushConfig with this adapter: Pull, the fence, and Push; None when the fence refuses. */
  method PushThrough(adapter: S3Adapter, bucket: Bucket, base: Hash, dek: nat, cfg: Bytes, force: bool)
    returns (r: Option<PushReply>, ghost blob: Got<Blob>, ghost meta: Got<Option<Hash>>)
    modifies adapter, bucket
    ensures Reads(old(bucket.blob), if bucket.tagged then Some(old(bucket.etag)) else None, blob)
    ensures Reads(old(bucket.meta), None, meta)
    ensures blob.Error? <==> bucket.faulty(old(bucket.calls))
    ensures meta.Error? <==> bucket.faulty(old(bucket.calls) + 1)
    ensures r.None? <==> Fence(ReplyOf(blob, meta), base, Sha(cfg), force).Some?
    ensures r.None? ==> bucket.blob == old(bucket.blob) && bucket.meta == old(bucket.meta)
    ensures r.Some? ==>
      (r.value.Stored? <==>
       && Meets(ConditionFor(Observation(blob)), old(bucket.Current()))
       && !bucket.faulty(old(bucket.calls) + 2) && !bucket.faulty(old(bucket.calls) + 3))
    ensures r == Some(Stored) ==>
      bucket.blob == Some(SealBlob(dek, cfg, Sha(cfg))) && bucket.meta == Some(Some(Sha(cfg)))
    ensures !force && old(bucket.blob.Some? != bucket.meta.Some?) ==> (r.None? <==> !(blob.Missing? && meta.Error?))
  {
    hide Fence, ReplyOf;
    var reply;
    reply, blob, meta := adapter.Pull(bucket);
    if bucket.blob.Some? != bucket.meta.Some? {
      ghost var etag := if bucket.tagged then Some(bucket.etag) else None;
      HalfStateRefusedExactly(bucket.blob, etag, bucket.meta, blob, meta, base, Sha(cfg));
    }
    if Fence(reply, base, HashConfig(cfg), force).Some? {
      return None, blob, meta;
    }
    var answer := adapter.Push(bucket, SealBlob(dek, cfg, HashConfig(cfg)), HashConfig(cfg));
    return Some(answer), blob, meta;
  }

  /** Of a bucket with exactly one of the two objects, a push without force is refused unless the object there is the
      meta and its GET failed: then the remote counts as absent. */
  lemma HalfStateRefusedExactly(blob: Option<Blob>, etag: Option<nat>, meta: Option<Option<Hash>>, gotBlob: Got<Blob>,
                                gotMeta: Got<Option<Hash>>, base: Hash, local: Hash)
    requires Reads(blob, etag, gotBlob) && Reads(meta, None, gotMeta) && blob.Some? != meta.Some?
    ensures Fence(ReplyOf(gotBlob, gotMeta), base, local, false).Some? <==> !(gotBlob.Missing? && gotMeta.Error?)
  {
  }

  /** So an orphan meta may be overwritten without force: its GET fails once, and the blob and a new meta are stored. */
  method OrphanMetaIsOverwritten(orphan: Hash, dek: nat, cfg: Bytes) returns (bucket: Bucket, r: Option<PushReply>)
    ensures fresh(bucket) && r == Some(Stored)
    ensures bucket.blob == Some(SealBlob(dek, cfg, Sha(cfg))) && bucket.meta == Some(Some(Sha(cfg)))
  {
    bucket := new Bucket(call => call == 1, true);
    bucket.meta := Some(Some(orphan));
    var adapter := new S3Adapter();
    ghost var blob, meta;
    r, blob, meta := PushThrough(adapter, bucket, Empty, dek, cfg, false);
  }

  /** A push whose Pull saw an ETag, or saw no blob, is guarded by it; only a Pull that failed to read the blob, or a
      store without ETags, leaves the push unguarded, and then without force the fence stops it or the blob was
      there. */
  lemma GuardedUnless(blob: Got<Blob>, meta: Got<Option<Hash>>, base: Hash, local: Hash)
    ensures ConditionFor(Observation(blob)) == Unconditional <==> blob.Error? || (blob.Found? && blob.etag.None?)
    ensures blob.Error? ==> Fence(ReplyOf(blob, meta), base, local, false) == Some(RemoteCheckFailed)
  {
  }
}
