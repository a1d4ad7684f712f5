/** Many hosts around one bucket, with the GET of the blob, the GET of the meta, the conditional PUT of the blob and the
    PUT of the meta as separate steps of any interleaving (internal/syncadapters/s3/s3.go:288-443,
    internal/syncconfig/engine.go:49-179). Every GET of an existing blob returns its ETag. */
module S3Net {
  import opened Wrappers
  import opened Sync
  import opened S3
  import SyncNet

  /** One stored blob. Its ETag is its position in the history. */
  datatype Version = Version(content: Bytes, writer: nat, seen: Seen, forced: bool)

  datatype Kind = Pushing(force: bool) | Pulling(adopt: bool)

  /** Where a host is in its current command; cfg is the config the command read when it started. */
  datatype Pc =
    | Resting
    | Started(kind: Kind, cfg: Bytes)
    | SawBlob(kind: Kind, cfg: Bytes, blob: Got<Blob>)
    | SawBoth(kind: Kind, cfg: Bytes, blob: Got<Blob>, meta: Got<Option<Hash>>)
    | StoredBlob(cfg: Bytes)

  datatype Host = Host(config: Bytes, base: Hash, held: set<Bytes>, pc: Pc)

  /** A pull that wrote the re-encoding of `plain`, having read a meta object with `hash`. */
  datatype Applied = Applied(host: nat, plain: Bytes, hash: Hash)

  datatype Net = Net(hosts: map<nat, Host>, versions: seq<Version>, meta: Option<Hash>, applied: seq<Applied>)

  datatype Act =
    | Edit(b: Bytes) | Start(kind: Kind) | GetBlob(ok: bool) | GetMeta(ok: bool)
    | Apply | Anchor | PutBlob | PutMeta | Stop

  function CurrentBlob(dek: nat, net: Net): Got<Blob> {
    if net.versions == [] then Missing
    else
      var v := net.versions[|net.versions| - 1];
      Found(SealBlob(dek, v.content, Sha(v.content)), Some(|net.versions| - 1))
  }

  function CurrentMeta(net: Net): Got<Option<Hash>> {
    if net.meta.None? then Missing else Found(Some(net.meta.value), None)
  }

  function Current(net: Net): Option<nat> {
    if net.versions == [] then None else Some(|net.versions| - 1)
  }

  function Goes(net: Net, h: nat, pc: Pc): Net
    requires h in net.hosts
  {
    net.(hosts := net.hosts[h := net.hosts[h].(pc := pc)])
  }

  function Holds(host: Host, b: Bytes): Host {
    host.(config := b, held := host.held + {b})
  }

  /** The push may store its blob: the fence let it through and the precondition holds. */
  predicate MayStore(net: Net, host: Host) {
    && host.pc.SawBoth? && host.pc.kind.Pushing?
    && Fence(ReplyOf(host.pc.blob, host.pc.meta), host.base, Sha(host.pc.cfg), host.pc.kind.force).None?
    && Meets(ConditionFor(Observation(host.pc.blob)), Current(net))
  }

  function ToApply(dek: nat, host: Host): Option<Bytes> {
    if !host.pc.SawBoth? || !host.pc.kind.Pulling? then None
    else
      var wanted := Fetched(ReplyOf(host.pc.blob, host.pc.meta), host.base, Sha(host.pc.cfg), dek, host.pc.kind.adopt);
      if wanted.Some? && wanted.value.Ok? then Some(wanted.value.value) else None
  }

  ghost predicate Step(norm: SyncNet.Reencode, dek: nat, net: Net, h: nat, a: Act, net': Net) {
    && h in net.hosts
    && var host := net.hosts[h];
       match a
       case Edit(b) => net' == net.(hosts := net.hosts[h := Holds(host, b)])
       case Start(kind) => host.pc.Resting? && net' == Goes(net, h, Started(kind, host.config))
       case GetBlob(ok) =>
         && host.pc.Started?
         && net' == Goes(net, h, SawBlob(host.pc.kind, host.pc.cfg, if ok then CurrentBlob(dek, net) else Error))
       case GetMeta(ok) =>
         && host.pc.SawBlob?
         && net' == Goes(net, h, SawBoth(host.pc.kind, host.pc.cfg, host.pc.blob,
                                         if ok then CurrentMeta(net) else Error))
       case Apply =>
         && ToApply(dek, host).Some? && norm(ToApply(dek, host).value).Some?
         && var plain, hash := ToApply(dek, host).value, ReplyOf(host.pc.blob, host.pc.meta).hash;
            net' == net.(hosts := net.hosts[h := Holds(host, norm(plain).value).(base := hash, pc := Resting)],
                         applied := net.applied + [Applied(h, plain, hash)])
       case Anchor =>
         && host.pc.SawBoth? && host.pc.kind.Pulling? && ReplyOf(host.pc.blob, host.pc.meta).Pair?
         && DecideOn(ReplyOf(host.pc.blob, host.pc.meta), host.base, Sha(host.pc.cfg)) == Noop
         && net' == net.(hosts := net.hosts[h := host.(base := Sha(host.pc.cfg), pc := Resting)])
       case PutBlob =>
         && MayStore(net, host)
         && net' == Goes(net, h, StoredBlob(host.pc.cfg)).(
                      versions := net.versions +
                                  [Version(host.pc.cfg, h, Observation(host.pc.blob), host.pc.kind.force)])
       case PutMeta =>
         && host.pc.StoredBlob?
         && net' == net.(hosts := net.hosts[h := host.(base := Sha(host.pc.cfg), pc := Resting)],
                         meta := Some(Sha(host.pc.cfg)))
       case Stop => net' == Goes(net, h, Resting)
  }

  ghost predicate Init(net: Net) {
    && net.versions == [] && net.meta == None && net.applied == []
    && forall h | h in net.hosts ::
      net.hosts[h].pc.Resting? && net.hosts[h].base == Empty && net.hosts[h].held == {net.hosts[h].config}
  }

  ghost predicate Run(norm: SyncNet.Reencode, dek: nat, nets: seq<Net>, acts: seq<(nat, Act)>) {
    && |nets| == |acts| + 1 && Init(nets[0])
    && forall i | 0 <= i < |acts| :: Step(norm, dek, nets[i], acts[i].0, acts[i].1, nets[i + 1])
  }

  // ----- the invariant --------------------------------------------------------------------------------------------

  /** Version k replaced the very version its writer's Pull had read, or none. */
  predicate Chained(versions: seq<Version>, k: nat)
    requires k < |versions|
  {
    versions[k].seen == if k == 0 then Seen(None, false) else Seen(Some(k - 1), true)
  }

  /** What a host read is a version that was there. */
  predicate ReadOk(dek: nat, versions: seq<Version>, got: Got<Blob>) {
    got.Found? ==>
      && got.etag.Some? && got.etag.value < |versions|
      && got.data == SealBlob(dek, versions[got.etag.value].content, Sha(versions[got.etag.value].content))
  }

  predicate PcOk(dek: nat, versions: seq<Version>, pc: Pc) {
    (pc.SawBlob? || pc.SawBoth?) ==> ReadOk(dek, versions, pc.blob)
  }

  /** The bytes were stored as a blob by some host, under the hash the pull read. */
  ghost predicate AppliedOk(versions: seq<Version>, a: Applied) {
    a.hash == Sha(a.plain) && exists k | 0 <= k < |versions| :: versions[k].content == a.plain
  }

  /** A host had every config it is working with, and what it last synced to, up to re-encoding. */
  ghost predicate HostOk(norm: SyncNet.Reencode, host: Host) {
    && host.config in host.held
    && (host.base == Empty || (host.base.Sha? && SyncNet.HeldUpTo(norm, host.held, host.base.content)))
    && (!host.pc.Resting? ==> host.pc.cfg in host.held)
  }

  ghost predicate Inv(norm: SyncNet.Reencode, dek: nat, net: Net) {
    && (forall k | 0 <= k < |net.versions| && !net.versions[k].forced :: Chained(net.versions, k))
    && (forall h | h in net.hosts :: PcOk(dek, net.versions, net.hosts[h].pc) && HostOk(norm, net.hosts[h]))
    && forall i | 0 <= i < |net.applied| :: AppliedOk(net.versions, net.applied[i])
  }

  lemma StepKeepsInv(norm: SyncNet.Reencode, dek: nat, net: Net, h: nat, a: Act, net': Net)
    requires Inv(norm, dek, net) && Step(norm, dek, net, h, a, net')
    ensures Inv(norm, dek, net')
  {
    hide AppliedOk, Chained, MayStore, HostOk, ToApply;
    StepKeepsHosts(norm, dek, net, h, a, net');
    if a.PutBlob? {
      StoreKeepsVersions(norm, dek, net, h, net');
    } else if a.Apply? {
      AppliedIsStored(dek, net, h);
    }
  }

  lemma StepKeepsHosts(norm: SyncNet.Reencode, dek: nat, net: Net, h: nat, a: Act, net': Net)
    requires Inv(norm, dek, net) && Step(norm, dek, net, h, a, net')
    ensures forall g | g in net'.hosts :: PcOk(dek, net'.versions, net'.hosts[g].pc) && HostOk(norm, net'.hosts[g])
  {
    hide AppliedOk, Chained, Fence, Meets, Fetched;
    if a.Apply? {
      AppliedIsStored(dek, net, h);
      AppliedHash(dek, net, h);
    }
  }

  lemma StoreKeepsVersions(norm: SyncNet.Reencode, dek: nat, net: Net, h: nat, net': Net)
    requires Inv(norm, dek, net) && Step(norm, dek, net, h, PutBlob, net')
    ensures forall k | 0 <= k < |net'.versions| && !net'.versions[k].forced :: Chained(net'.versions, k)
    ensures forall i | 0 <= i < |net'.applied| :: AppliedOk(net'.versions, net'.applied[i])
  {
    hide HostOk, ToApply;
    if !net.hosts[h].pc.kind.force {
      StoredIsChained(dek, net, h);
    }
    forall i | 0 <= i < |net'.applied| ensures AppliedOk(net'.versions, net'.applied[i]) {
      assert AppliedOk(net.versions, net.applied[i]);
      var k :| 0 <= k < |net.versions| && net.versions[k].content == net.applied[i].plain;
      assert net'.versions[k].content == net.applied[i].plain;
    }
    assert forall k | 0 <= k < |net.versions| && !net'.versions[k].forced :: Chained(net.versions, k);
  }

  lemma StoredIsChained(dek: nat, net: Net, h: nat)
    requires h in net.hosts && MayStore(net, net.hosts[h]) && PcOk(dek, net.versions, net.hosts[h].pc)
    requires !net.hosts[h].pc.kind.force
    ensures Observation(net.hosts[h].pc.blob) ==
            if net.versions == [] then Seen(None, false) else Seen(Some(|net.versions| - 1), true)
  {
  }

  lemma AppliedHash(dek: nat, net: Net, h: nat)
    requires h in net.hosts && ToApply(dek, net.hosts[h]).Some?
    ensures ReplyOf(net.hosts[h].pc.blob, net.hosts[h].pc.meta).Pair?
    ensures ReplyOf(net.hosts[h].pc.blob, net.hosts[h].pc.meta).hash == Sha(ToApply(dek, net.hosts[h]).value)
  {
  }

  lemma AppliedIsStored(dek: nat, net: Net, h: nat)
    requires h in net.hosts && ToApply(dek, net.hosts[h]).Some? && PcOk(dek, net.versions, net.hosts[h].pc)
    ensures var pc := net.hosts[h].pc;
            AppliedOk(net.versions, Applied(h, ToApply(dek, net.hosts[h]).value, ReplyOf(pc.blob, pc.meta).hash))
  {
    var pc := net.hosts[h].pc;
    assert net.versions[pc.blob.etag.value].content == ToApply(dek, net.hosts[h]).value;
  }

  lemma {:induction false} RunKeepsInv(norm: SyncNet.Reencode, dek: nat, nets: seq<Net>, acts: seq<(nat, Act)>, i: nat)
    requires Run(norm, dek, nets, acts) && i < |nets|
    ensures Inv(norm, dek, nets[i])
  {
    hide Step;
    if i > 0 {
      RunKeepsInv(norm, dek, nets, acts, i - 1);
      hide Inv;
      StepKeepsInv(norm, dek, nets[i - 1], acts[i - 1].0, acts[i - 1].1, nets[i]);
    }
  }

  // ----- the theorems ---------------------------------------------------------------------------------------------

  /** In every interleaving the versions stored without force form one chain: each replaced exactly the version its
      writer's own Pull had read, and the first saw none. */
  lemma VersionsFormAChain(norm: SyncNet.Reencode, dek: nat, nets: seq<Net>, acts: seq<(nat, Act)>, i: nat, k: nat)
    requires Run(norm, dek, nets, acts) && i < |nets| && k < |nets[i].versions| && !nets[i].versions[k].forced
    ensures Chained(nets[i].versions, k)
  {
    hide Step;
    RunKeepsInv(norm, dek, nets, acts, i);
  }

  /** Whatever a pull ever wrote hashes to the meta it had read and is, whole, the content of one stored blob: a blob
      and a meta of different pushes are never combined. */
  lemma MixedPairsAreNeverApplied(norm: SyncNet.Reencode, dek: nat, nets: seq<Net>, acts: seq<(nat, Act)>, i: nat,
                                  j: nat)
    requires Run(norm, dek, nets, acts) && i < |nets| && j < |nets[i].applied|
    ensures AppliedOk(nets[i].versions, nets[i].applied[j])
  {
    hide Step;
    RunKeepsInv(norm, dek, nets, acts, i);
  }

  /** A push without force whose Pull read a blob and a meta of one push is as safe as with both in one step: what it
      replaces is the base or what is being pushed, and so something the host itself had, up to re-encoding. */
  lemma MatchedReadLosesNothing(norm: SyncNet.Reencode, dek: nat, nets: seq<Net>, acts: seq<(nat, Act)>, i: nat)
    requires Run(norm, dek, nets, acts) && i < |acts| && acts[i].1.PutBlob? && nets[i].versions != []
    requires acts[i].0 in nets[i].hosts && nets[i].hosts[acts[i].0].pc.SawBoth?
    requires nets[i].hosts[acts[i].0].pc.kind == Pushing(false)
    ensures var host, replaced := nets[i].hosts[acts[i].0], nets[i].versions[|nets[i].versions| - 1].content;
            var reply := ReplyOf(host.pc.blob, host.pc.meta);
            && reply.Pair?
            && (OpenBlob(dek, reply.blob, reply.hash).Ok? ==>
                  Sha(replaced) in {host.base, Sha(host.pc.cfg)} && SyncNet.HeldUpTo(norm, host.held, replaced))
  {
    RunKeepsInv(norm, dek, nets, acts, i);
    assert Step(norm, dek, nets[i], acts[i].0, acts[i].1, nets[i + 1]);
    StoredIsChained(dek, nets[i], acts[i].0);
  }

  /** Opening the pair is the exact condition for the fence to protect the replaced content, whatever the base and the
      config are (a meta whose hash is the empty string passes the fence for nobody). */
  lemma FenceProtectsExactlyMatchedReads(dek: nat, content: Bytes, hash: Hash)
    ensures var blob := SealBlob(dek, content, Sha(content));
            (forall base, cfg: Bytes | Fence(Pair(blob, hash), base, Sha(cfg), false).None? ::
               Sha(content) in {base, Sha(cfg)})
            <==> OpenBlob(dek, blob, hash).Ok? || hash == Empty
  {
    var blob := SealBlob(dek, content, Sha(content));
    if hash != Sha(content) && hash != Empty {
      var other := content + [0];
      assert other != content;
      assert Fence(Pair(blob, hash), hash, Sha(other), false).None?;
    }
  }

  // ----- the update that is lost ----------------------------------------------------------------------------------

  lemma Extended(norm: SyncNet.Reencode, dek: nat, nets: seq<Net>, acts: seq<(nat, Act)>, h: nat, a: Act, net: Net)
    requires Run(norm, dek, nets, acts) && Step(norm, dek, nets[|acts|], h, a, net)
    ensures Run(norm, dek, nets + [net], acts + [(h, a)])
  {
    hide Step, Init;
    var nets', acts' := nets + [net], acts + [(h, a)];
    forall i | 0 <= i < |acts'| ensures Step(norm, dek, nets'[i], acts'[i].0, acts'[i].1, nets'[i + 1]) {
      if i < |acts| {
        assert Step(norm, dek, nets[i], acts[i].0, acts[i].1, nets[i + 1]);
      }
    }
  }

  /** The host's view when it reads both objects without anyone in between. */
  function Looking(dek: nat, net: Net, h: nat): Net
    requires h in net.hosts
  {
    Goes(net, h, SawBoth(Pushing(false), net.hosts[h].config, CurrentBlob(dek, net), CurrentMeta(net)))
  }

  function BlobStored(dek: nat, net: Net, h: nat): Net
    requires h in net.hosts
  {
    Goes(net, h, StoredBlob(net.hosts[h].config)).(
      versions := net.versions + [Version(net.hosts[h].config, h, Observation(CurrentBlob(dek, net)), false)])
  }

  /** A push without force up to its blob PUT. */
  lemma BlobPush(norm: SyncNet.Reencode, dek: nat, nets: seq<Net>, acts: seq<(nat, Act)>, h: nat)
    returns (nets': seq<Net>, acts': seq<(nat, Act)>)
    requires Run(norm, dek, nets, acts)
    requires var net := nets[|acts|];
             h in net.hosts && net.hosts[h].pc.Resting? && MayStore(net, Looking(dek, net, h).hosts[h])
    ensures Run(norm, dek, nets', acts') && |acts'| == |acts| + 4 && acts'[|acts'| - 1] == (h, PutBlob)
    ensures nets'[|acts'| - 1] == Looking(dek, nets[|acts|], h) && nets'[|acts'|] == BlobStored(dek, nets[|acts|], h)
  {
    var net := nets[|acts|];
    var cfg := net.hosts[h].config;
    var n1 := Goes(net, h, Started(Pushing(false), cfg));
    var n2 := Goes(net, h, SawBlob(Pushing(false), cfg, CurrentBlob(dek, net)));
    hide Run;
    Extended(norm, dek, nets, acts, h, Start(Pushing(false)), n1);
    Extended(norm, dek, nets + [n1], acts + [(h, Start(Pushing(false)))], h, GetBlob(true), n2);
    nets', acts' := nets + [n1] + [n2], acts + [(h, Start(Pushing(false)))] + [(h, GetBlob(true))];
    Extended(norm, dek, nets', acts', h, GetMeta(true), Looking(dek, net, h));
    nets', acts' := nets' + [Looking(dek, net, h)], acts' + [(h, GetMeta(true))];
    Extended(norm, dek, nets', acts', h, PutBlob, BlobStored(dek, net, h));
    nets', acts' := nets' + [BlobStored(dek, net, h)], acts' + [(h, PutBlob)];
  }

  function MetaStored(net: Net, h: nat): Net
    requires h in net.hosts && net.hosts[h].pc.StoredBlob?
  {
    var cfg := net.hosts[h].pc.cfg;
    net.(hosts := net.hosts[h := net.hosts[h].(base := Sha(cfg), pc := Resting)], meta := Some(Sha(cfg)))
  }

  /** A whole push without force. */
  lemma WholePush(norm: SyncNet.Reencode, dek: nat, nets: seq<Net>, acts: seq<(nat, Act)>, h: nat)
    returns (nets': seq<Net>, acts': seq<(nat, Act)>)
    requires Run(norm, dek, nets, acts)
    requires var net := nets[|acts|];
             h in net.hosts && net.hosts[h].pc.Resting? && MayStore(net, Looking(dek, net, h).hosts[h])
    ensures Run(norm, dek, nets', acts') && nets'[|acts'|] == MetaStored(BlobStored(dek, nets[|acts|], h), h)
  {
    hide Run;
    RunLength(norm, dek, nets, acts);
    nets', acts' := BlobPush(norm, dek, nets, acts, h);
    var stored := BlobStored(dek, nets[|acts|], h);
    RunLength(norm, dek, nets', acts');
    Extended(norm, dek, nets', acts', h, PutMeta, MetaStored(stored, h));
    nets', acts' := nets' + [MetaStored(stored, h)], acts' + [(h, PutMeta)];
  }

  lemma RunLength(norm: SyncNet.Reencode, dek: nat, nets: seq<Net>, acts: seq<(nat, Act)>)
    requires Run(norm, dek, nets, acts)
    ensures |nets| == |acts| + 1
  {
  }

  /** Two hosts that pushed the same content, one after the other. */
  lemma BothHold(norm: SyncNet.Reencode, dek: nat, x: Bytes) returns (nets: seq<Net>, acts: seq<(nat, Act)>)
    ensures Run(norm, dek, nets, acts) && |nets| == |acts| + 1
    ensures var host := Host(x, Sha(x), {x}, Resting);
            var first, second := Version(x, 0, Seen(None, false), false), Version(x, 1, Seen(Some(0), true), false);
            nets[|acts|] == Net(map[0 := host, 1 := host], [first, second], Some(Sha(x)), [])
  {
    hide Run, Step;
    var n0 := Net(map[0 := Host(x, Empty, {x}, Resting), 1 := Host(x, Empty, {x}, Resting)], [], None, []);
    Starts(norm, dek, n0);
    nets, acts := WholePush(norm, dek, [n0], [], 0);
    nets, acts := WholePush(norm, dek, nets, acts, 1);
    RunLength(norm, dek, nets, acts);
  }

  /** Without a matched read an update can be lost: host 1's new content is replaced by host 0, which never had it,
      never read its hash, and did not use force. Host 0 reads after host 1's blob PUT and before its meta PUT. */
  lemma TornReadLosesUpdate(norm: SyncNet.Reencode, dek: nat) returns (nets: seq<Net>, acts: seq<(nat, Act)>)
    ensures Run(norm, dek, nets, acts) && acts != []
    ensures var i := |acts| - 1;
            && acts[i].1.PutBlob? && acts[i].0 in nets[i].hosts
            && var host := nets[i].hosts[acts[i].0];
               && host.pc.SawBoth? && host.pc.kind == Pushing(false)
               && nets[i].versions != []
               && var lost := nets[i].versions[|nets[i].versions| - 1].content;
                  lost !in host.held && host.base != Sha(lost) && host.pc.cfg != lost
  {
    hide Run, Step;
    var x: Bytes, y: Bytes, z: Bytes := [], [1], [2];
    assert x != y && y != z && z != x by { assert y[0] != z[0]; }
    nets, acts := BothHold(norm, dek, x);
    var n2 := nets[|acts|];
    nets, acts := Edited(norm, dek, nets, acts, 1, y);
    var n3 := n2.(hosts := n2.hosts[1 := Holds(n2.hosts[1], y)]);
    nets, acts := BlobPush(norm, dek, nets, acts, 1);
    var n4 := BlobStored(dek, n3, 1);
    nets, acts := Edited(norm, dek, nets, acts, 0, z);
    nets, acts := BlobPush(norm, dek, nets, acts, 0);
    RunLength(norm, dek, nets, acts);
  }

  lemma Starts(norm: SyncNet.Reencode, dek: nat, net: Net)
    requires Init(net)
    ensures Run(norm, dek, [net], [])
  {
  }

  lemma Edited(norm: SyncNet.Reencode, dek: nat, nets: seq<Net>, acts: seq<(nat, Act)>, h: nat, b: Bytes)
    returns (nets': seq<Net>, acts': seq<(nat, Act)>)
    requires Run(norm, dek, nets, acts) && h in nets[|acts|].hosts
    ensures Run(norm, dek, nets', acts')
    ensures var net := nets[|acts|]; nets'[|acts'|] == net.(hosts := net.hosts[h := Holds(net.hosts[h], b)])
  {
    var net := nets[|acts|];
    var net' := net.(hosts := net.hosts[h := Holds(net.hosts[h], b)]);
    Extended(norm, dek, nets, acts, h, Edit(b), net');
    nets', acts' := nets + [net'], acts + [(h, Edit(b))];
  }
}
