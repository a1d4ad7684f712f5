/** One push and one pull of the sync engine (internal/syncconfig/engine.go, merge.go, and the blob functions of
    syncconfig.go). */
module Sync {
  import opened Wrappers

  type Bytes = seq<bv8>

  /** The hash of some bytes, the empty string that stands for "none", or a string that is no hash of ours. SHA-256 is
      idealised as injective. */
  datatype Hash = Empty | Sha(content: Bytes) | Junk(n: nat)

  /** Bytes sealed under a data key and bound to a hash, or bytes nobody sealed. */
  datatype Blob = Sealed(dek: nat, bound: Hash, content: Bytes) | Garbage(n: nat)

  datatype SyncError =
    | Incomplete | RemoteCheckFailed | NoBase | RemoteAdvanced | ChangedMeanwhile | PushFailed
    | Diverged(decision: MergeDecision) | CannotDecrypt | HashMismatch | PullFailed

  function HashConfig(cfg: Bytes): Hash {
    Sha(cfg)
  }

  function SealBlob(dek: nat, cfg: Bytes, metaHash: Hash): Blob {
    Sealed(dek, metaHash, cfg)
  }

  function OpenBlob(dek: nat, blob: Blob, metaHash: Hash): Result<Bytes, SyncError> {
    if blob.Sealed? && blob.dek == dek && blob.bound == metaHash then Ok(blob.content) else Err(CannotDecrypt)
  }

  // ----- the decision ---------------------------------------------------------------------------------------------

  datatype MergeDecision = Noop | FastForward | PushNeeded | BothChanged | NoRemote | NoBaseYet

  function Decide(local: Hash, remote: Hash, base: Hash, remotePresent: bool): MergeDecision {
    if !remotePresent then NoRemote
    else if local == remote then Noop
    else if base == Empty then NoBaseYet
    else
      var localChanged, remoteChanged := local != base, remote != base;
      if !localChanged && remoteChanged then FastForward
      else if localChanged && !remoteChanged then PushNeeded
      else if localChanged && remoteChanged then BothChanged
      else Noop
  }

  /** What the adapter's Pull returned. */
  datatype Reply = Pair(blob: Blob, hash: Hash) | NoState | HalfState | Failed

  /** The pre-push fence: None lets the push through. */
  function Fence(reply: Reply, base: Hash, local: Hash, force: bool): Option<SyncError> {
    if force then None else
      match reply
      case NoState => None
      case HalfState => Some(Incomplete)
      case Failed => Some(RemoteCheckFailed)
      case Pair(_, remote) =>
        if base == Empty then (if remote != local then Some(NoBase) else None)
        else if remote != base && remote != local then Some(RemoteAdvanced)
        else None
  }

  function DecideOn(reply: Reply, base: Hash, local: Hash): MergeDecision
    requires reply.Pair? || reply.NoState?
  {
    if reply.NoState? then Decide(local, Empty, base, false) else Decide(local, reply.hash, base, true)
  }

  /** The bytes a pull wants written, if any. */
  function Fetched(reply: Reply, base: Hash, local: Hash, dek: nat, adopt: bool): Option<Result<Bytes, SyncError>> {
    if !reply.Pair? then None
    else
      var d := DecideOn(reply, base, local);
      if d == FastForward || (d == NoBaseYet && adopt) then
        var plain := OpenBlob(dek, reply.blob, reply.hash);
        Some(if plain.Ok? && HashConfig(plain.value) != reply.hash then Err(HashMismatch) else plain)
      else None
  }

  /** The two fences are complementary: without an adapter error and without force, a push goes through exactly when
      there is no remote state, nothing to do, or only local changed; a pull without adopt brings new content only when
      just the remote changed. No state lets both through. */
  lemma FencesAreComplementary(reply: Reply, base: Hash, local: Hash, dek: nat)
    requires reply.Pair? || reply.NoState?
    ensures Fence(reply, base, local, false) == None <==> DecideOn(reply, base, local) in {NoRemote, Noop, PushNeeded}
    ensures Fetched(reply, base, local, dek, false).Some? <==> DecideOn(reply, base, local) == FastForward
    ensures Fetched(reply, base, local, dek, true).Some? <==> DecideOn(reply, base, local) in {FastForward, NoBaseYet}
    ensures Fence(reply, base, local, true) == None
    ensures DecideOn(reply, base, local) == NoBaseYet ==> Fence(reply, base, local, false) == Some(NoBase)
    ensures DecideOn(reply, base, local) == BothChanged ==>
      Fence(reply, base, local, false) == Some(RemoteAdvanced) && Fetched(reply, base, local, dek, true).None?
  {
  }

  /** Without a base only equality can be told, and without a remote nothing. */
  lemma DecisionWithoutBase(local: Hash, remote: Hash, base: Hash)
    ensures Decide(local, remote, Empty, true) == if local == remote then Noop else NoBaseYet
    ensures Decide(local, remote, base, false) == NoRemote
    ensures Fence(HalfState, base, local, false) == Some(Incomplete)
    ensures Fence(Failed, base, local, false) == Some(RemoteCheckFailed)
  {
  }

  /** What the three hashes say about who changed. */
  lemma DecisionMeans(local: Hash, remote: Hash, base: Hash)
    requires base != Empty
    ensures Decide(local, remote, base, true) == Noop <==> local == remote
    ensures Decide(local, remote, base, true) == FastForward <==> local == base != remote
    ensures Decide(local, remote, base, true) == PushNeeded <==> local != base == remote
    ensures Decide(local, remote, base, true) == BothChanged <==> local != base && remote != base && local != remote
  {
  }

  // ----- the engine -----------------------------------------------------------------------------------------------

  datatype PushReply = Stored | Precondition | NotStored

  /** An adapter as the engine sees it: it answers Pull and Push, and `received` is what it was asked to store. */
  class Adapter {
    const reply: Reply
    const answer: PushReply
    var received: seq<(Blob, Hash)>

    constructor (reply: Reply, answer: PushReply)
      ensures this.reply == reply && this.answer == answer && received == []
    {
      this.reply, this.answer, received := reply, answer, [];
    }

    method Pull() returns (r: Reply)
      ensures r == reply
    {
      r := reply;
    }

    method Push(blob: Blob, hash: Hash) returns (r: PushReply)
      modifies this
      ensures r == answer && received == old(received) + [(blob, hash)]
    {
      received := received + [(blob, hash)];
      r := answer;
    }
  }

  /** The sidecar's record of one adapter. */
  class Record {
    var baseHash: Hash
    constructor (baseHash: Hash)
      ensures this.baseHash == baseHash
    {
      this.baseHash := baseHash;
    }
  }

  /** PushConfig: the adapter is asked to store the sealed config, under its hash, exactly when the fence lets it
      through; the base becomes the pushed hash exactly when the adapter stored it. */
  method PushConfig(adapter: Adapter, ad: Record, dek: nat, cfg: Bytes, force: bool)
    returns (r: Result<Hash, SyncError>)
    modifies adapter, ad
    ensures var fence := Fence(adapter.reply, old(ad.baseHash), Sha(cfg), force);
            && adapter.received == old(adapter.received)
                                   + (if fence.None? then [(Sealed(dek, Sha(cfg), cfg), Sha(cfg))] else [])
            && (r.Ok? <==> fence.None? && adapter.answer.Stored?)
            && (fence.Some? ==> r == Err(fence.value))
    ensures ad.baseHash == if r.Ok? then Sha(cfg) else old(ad.baseHash)
    ensures r.Ok? ==> r.value == Sha(cfg)
  {
    var localHash := HashConfig(cfg);
    var reply := adapter.Pull();
    if !force {
      if reply.HalfState? {
        return Err(Incomplete);
      } else if reply.Failed? {
        return Err(RemoteCheckFailed);
      } else if reply.Pair? {
        if ad.baseHash == Empty {
          if reply.hash != localHash {
            return Err(NoBase);
          }
        } else if reply.hash != ad.baseHash && reply.hash != localHash {
          return Err(RemoteAdvanced);
        }
      }
    }
    var blob := SealBlob(dek, cfg, localHash);
    var answer := adapter.Push(blob, localHash);
    if answer.Precondition? {
      return Err(ChangedMeanwhile);
    } else if answer.NotStored? {
      return Err(PushFailed);
    }
    ad.baseHash := localHash;
    return Ok(localHash);
  }

  datatype Pulled = Pulled(decision: MergeDecision, applied: Option<Bytes>, hash: Hash)

  /** PullConfig: bytes come back only on a fast-forward, or on a first pull with adopt; they hash to what the remote's
      meta claims, and then that hash is the base. A noop anchors the base at the common hash; anything else leaves
      it. */
  method PullConfig(adapter: Adapter, ad: Record, dek: nat, localCfg: Bytes, adopt: bool)
    returns (r: Result<Pulled, SyncError>)
    modifies ad
    ensures var wanted := Fetched(adapter.reply, old(ad.baseHash), Sha(localCfg), dek, adopt);
            && (r.Ok? && r.value.applied.Some? <==> wanted.Some? && wanted.value.Ok?)
            && (wanted.Some? && wanted.value.Ok? ==> r.value.applied == Some(wanted.value.value))
            && (wanted.Some? && wanted.value.Err? ==> r == Err(wanted.value.error))
    ensures r.Ok? ==> adapter.reply.Pair? || adapter.reply.NoState?
    ensures r.Ok? && r.value.applied.Some? ==>
      Sha(r.value.applied.value) == adapter.reply.hash == ad.baseHash && r.value.decision == FastForward
    ensures r.Ok? && r.value.applied.None? ==>
      && r.value.decision == DecideOn(adapter.reply, old(ad.baseHash), Sha(localCfg))
      && r.value.decision in {NoRemote, PushNeeded, Noop}
      && ad.baseHash == if r.value.decision == Noop then Sha(localCfg) else old(ad.baseHash)
    ensures r.Err? && (adapter.reply.Pair? || adapter.reply.NoState?) ==>
      DecideOn(adapter.reply, old(ad.baseHash), Sha(localCfg)) in {BothChanged, NoBaseYet, FastForward}
    ensures adapter.reply.HalfState? ==> r == Err(Incomplete)
    ensures adapter.reply.Failed? ==> r == Err(PullFailed)
    ensures adapter.reply.Pair? && old(ad.baseHash) == Empty && adapter.reply.hash != Sha(localCfg) && !adopt ==>
      r == Err(Diverged(NoBaseYet))
    ensures adapter.reply.Pair? && old(ad.baseHash) != Empty && old(ad.baseHash) != adapter.reply.hash
            && adapter.reply.hash != Sha(localCfg) && Sha(localCfg) != old(ad.baseHash) ==>
      r == Err(Diverged(BothChanged))
    ensures r.Err? ==> ad.baseHash == old(ad.baseHash)
  {
    var localHash := HashConfig(localCfg);
    var reply := adapter.Pull();
    var remotePresent := true;
    var remoteHash := Empty;
    if reply.NoState? {
      remotePresent := false;
    } else if reply.HalfState? {
      return Err(Incomplete);
    } else if reply.Failed? {
      return Err(PullFailed);
    } else {
      remoteHash := reply.hash;
    }
    var decision := Decide(localHash, remoteHash, ad.baseHash, remotePresent);
    if decision == NoBaseYet && adopt {
      decision := FastForward;
    }
    match decision
    case NoRemote | PushNeeded => return Ok(Pulled(decision, None, localHash));
    case Noop =>
      ad.baseHash := localHash;
      return Ok(Pulled(decision, None, localHash));
    case BothChanged | NoBaseYet => return Err(Diverged(decision));
    case FastForward =>
      var plain := OpenBlob(dek, reply.blob, reply.hash);
      if plain.Err? {
        return Err(plain.error);
      }
      if HashConfig(plain.value) != reply.hash {
        return Err(HashMismatch);
      }
      ad.baseHash := reply.hash;
      return Ok(Pulled(FastForward, Some(plain.value), reply.hash));
  }
}
