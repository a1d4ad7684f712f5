/** Exchanges that nobody interrupts: what the object operations of S3Net amount to when the remote is whole and no
    other host takes a step in between is the one exchange that SyncNet takes a push or a pull to be
    (internal/syncadapters/s3/s3.go:288-443, internal/cli/sync.go:246-417). */
module SyncRefinement {
  import opened Wrappers
  import opened Sync
  import opened S3
  import opened S3Net
  import SyncNet

  /** Both objects are absent, or the meta names the blob. */
  predicate Whole(net: Net) {
    if net.versions == [] then net.meta == None
    else net.meta == Some(Sha(net.versions[|net.versions| - 1].content))
  }

  function Files(host: Host): SyncNet.Host {
    SyncNet.Host(host.config, host.base)
  }

  /** The network as SyncNet sees it. */
  function View(net: Net): SyncNet.Net {
    SyncNet.Net(
      map h | h in net.hosts :: Files(net.hosts[h]), map h | h in net.hosts :: net.hosts[h].held,
      if net.versions == [] then None else Some(net.versions[|net.versions| - 1].content),
      set v | v in net.versions :: v.content)
  }

  /** Host h starts a command and reads both objects with nobody in between. */
  ghost predicate ReadsAlone(norm: SyncNet.Reencode, dek: nat, net: Net, h: nat, kind: Kind, net': Net) {
    exists n1, n2 ::
      && Step(norm, dek, net, h, Start(kind), n1) && Step(norm, dek, n1, h, GetBlob(true), n2)
      && Step(norm, dek, n2, h, GetMeta(true), net')
  }

  lemma ReadsBoth(norm: SyncNet.Reencode, dek: nat, net: Net, h: nat, kind: Kind, net': Net)
    requires ReadsAlone(norm, dek, net, h, kind, net')
    ensures h in net.hosts
    ensures net' == Goes(net, h, SawBoth(kind, net.hosts[h].config, CurrentBlob(dek, net), CurrentMeta(net)))
  {
    var n1, n2 :|
      && Step(norm, dek, net, h, Start(kind), n1) && Step(norm, dek, n1, h, GetBlob(true), n2)
      && Step(norm, dek, n2, h, GetMeta(true), net');
  }

  lemma WholeReply(dek: nat, net: Net)
    requires Whole(net)
    ensures S3.ReplyOf(CurrentBlob(dek, net), CurrentMeta(net)) == SyncNet.ReplyOf(dek, View(net).remote)
  {
  }

  function Read(dek: nat, net: Net, h: nat, kind: Kind): Net
    requires h in net.hosts
  {
    Goes(net, h, SawBoth(kind, net.hosts[h].config, CurrentBlob(dek, net), CurrentMeta(net)))
  }

  lemma HeldAtStart(norm: SyncNet.Reencode, dek: nat, nets: seq<Net>, acts: seq<(nat, Act)>, i: nat, h: nat)
    requires Run(norm, dek, nets, acts) && i < |nets| && h in nets[i].hosts
    ensures nets[i].hosts[h].config in nets[i].hosts[h].held
  {
    RunKeepsInv(norm, dek, nets, acts, i);
  }

  /** A push that is alone stores its blob exactly when the fence of SyncNet lets it through, and then, with its meta,
      is one Push of SyncNet; it leaves the remote whole. */
  lemma PushAlone(norm: SyncNet.Reencode, dek: nat, nets: seq<Net>, acts: seq<(nat, Act)>, i: nat, h: nat, force: bool,
                  read: Net)
    requires Run(norm, dek, nets, acts) && i < |nets| && Whole(nets[i])
    requires ReadsAlone(norm, dek, nets[i], h, Pushing(force), read)
    ensures h in View(nets[i]).hosts
    ensures
      var net, host := View(nets[i]), View(nets[i]).hosts[h];
      if Fence(SyncNet.ReplyOf(dek, net.remote), host.base, Sha(host.config), force) == None then
        exists n, n' ::
          && Step(norm, dek, read, h, PutBlob, n) && Step(norm, dek, n, h, PutMeta, n')
          && Whole(n') && SyncNet.Step(norm, dek, net, h, SyncNet.Push(force, false), View(n'))
      else (forall n :: !Step(norm, dek, read, h, PutBlob, n)) && View(read) == net
  {
    hide Run, ReadsAlone, Step, View, Whole, S3.ReplyOf, SyncNet.ReplyOf, Fence, SyncNet.Step;
    var net := nets[i];
    ReadsBoth(norm, dek, net, h, Pushing(force), read);
    HeldAtStart(norm, dek, nets, acts, i, h);
    ViewHost(net, h);
    if Fence(SyncNet.ReplyOf(dek, View(net).remote), net.hosts[h].base, Sha(net.hosts[h].config), force) == None {
      PushIsLetThrough(norm, dek, net, h, force);
    } else {
      PushIsRefused(norm, dek, net, h, force);
    }
  }

  lemma ViewHost(net: Net, h: nat)
    requires h in net.hosts
    ensures h in View(net).hosts && View(net).hosts[h] == Files(net.hosts[h])
  {
  }

  function Stored(dek: nat, net: Net, h: nat, force: bool): Net
    requires h in net.hosts
  {
    var host := net.hosts[h];
    Goes(net, h, StoredBlob(host.config)).(
      versions := net.versions + [Version(host.config, h, Observation(CurrentBlob(dek, net)), force)])
  }

  lemma PushIsLetThrough(norm: SyncNet.Reencode, dek: nat, net: Net, h: nat, force: bool)
    requires Whole(net) && h in net.hosts && net.hosts[h].config in net.hosts[h].held
    requires Fence(SyncNet.ReplyOf(dek, View(net).remote), net.hosts[h].base, Sha(net.hosts[h].config), force) == None
    ensures exists n, n' ::
      && Step(norm, dek, Read(dek, net, h, Pushing(force)), h, PutBlob, n) && Step(norm, dek, n, h, PutMeta, n')
      && Whole(n') && SyncNet.Step(norm, dek, View(net), h, SyncNet.Push(force, false), View(n'))
  {
    hide View, SyncNet.Step;
    var n := Stored(dek, net, h, force);
    var n' := MetaStored(n, h);
    StoresBlob(norm, dek, net, h, force);
    assert Step(norm, dek, n, h, PutMeta, n');
    assert Whole(n');
    ViewAfterPush(norm, dek, net, h, force);
  }

  lemma StoresBlob(norm: SyncNet.Reencode, dek: nat, net: Net, h: nat, force: bool)
    requires Whole(net) && h in net.hosts
    ensures
      Step(norm, dek, Read(dek, net, h, Pushing(force)), h, PutBlob, Stored(dek, net, h, force)) <==>
      Fence(SyncNet.ReplyOf(dek, View(net).remote), net.hosts[h].base, Sha(net.hosts[h].config), force) == None
  {
    WholeReply(dek, net);
    hide View, Whole, S3.ReplyOf, SyncNet.ReplyOf, Fence;
    var read := Read(dek, net, h, Pushing(force));
    assert Goes(read, h, StoredBlob(net.hosts[h].config)) == Goes(net, h, StoredBlob(net.hosts[h].config));
  }

  lemma ViewAfterPush(norm: SyncNet.Reencode, dek: nat, net: Net, h: nat, force: bool)
    requires h in net.hosts && net.hosts[h].config in net.hosts[h].held
    requires Fence(SyncNet.ReplyOf(dek, View(net).remote), net.hosts[h].base, Sha(net.hosts[h].config), force) == None
    ensures
      SyncNet.Step(norm, dek, View(net), h, SyncNet.Push(force, false), View(MetaStored(Stored(dek, net, h, force), h)))
  {
    hide Fence, SyncNet.ReplyOf;
    var host, n' := net.hosts[h], MetaStored(Stored(dek, net, h, force), h);
    assert host.held + {host.config} == host.held;
    PublishedGrows(net, n'.versions[|net.versions|], n');
    assert View(n').hosts == View(net).hosts[h := SyncNet.Host(host.config, Sha(host.config))];
    assert View(n').held == View(net).held[h := View(net).held[h] + {host.config}];
  }

  lemma PublishedGrows(net: Net, v: Version, net': Net)
    requires net'.versions == net.versions + [v]
    ensures View(net').published == View(net).published + {v.content} && View(net').remote == Some(v.content)
  {
  }

  lemma PushIsRefused(norm: SyncNet.Reencode, dek: nat, net: Net, h: nat, force: bool)
    requires Whole(net) && h in net.hosts
    requires Fence(SyncNet.ReplyOf(dek, View(net).remote), net.hosts[h].base, Sha(net.hosts[h].config), force) != None
    ensures forall n :: !Step(norm, dek, Read(dek, net, h, Pushing(force)), h, PutBlob, n)
    ensures View(Read(dek, net, h, Pushing(force))) == View(net)
  {
    WholeReply(dek, net);
    ViewIgnoresPc(net, h, Read(dek, net, h, Pushing(force)).hosts[h].pc);
  }

  lemma ViewIgnoresPc(net: Net, h: nat, pc: Pc)
    requires h in net.hosts
    ensures View(Goes(net, h, pc)) == View(net) && (Whole(net) ==> Whole(Goes(net, h, pc)))
  {
    assert View(Goes(net, h, pc)).hosts == View(net).hosts;
    assert View(Goes(net, h, pc)).held == View(net).held;
  }

  /** A pull that is alone is one complete Pull of SyncNet, whichever way it ends, and leaves the remote whole. */
  lemma PullAlone(norm: SyncNet.Reencode, dek: nat, nets: seq<Net>, acts: seq<(nat, Act)>, i: nat, h: nat, adopt: bool,
                  read: Net, end: Net)
    requires Run(norm, dek, nets, acts) && i < |nets| && Whole(nets[i])
    requires ReadsAlone(norm, dek, nets[i], h, Pulling(adopt), read)
    requires
      || Step(norm, dek, read, h, Apply, end) || Step(norm, dek, read, h, Anchor, end)
      || (end == read && forall n :: !Step(norm, dek, read, h, Apply, n) && !Step(norm, dek, read, h, Anchor, n))
    ensures Whole(end)
    ensures exists writes ::
      && SyncNet.Step(norm, dek, View(nets[i]), h, SyncNet.Pull(adopt, writes), View(end))
      && SyncNet.CompletePull(norm, dek, View(nets[i]), h, SyncNet.Pull(adopt, writes))
  {
    hide Run, ReadsAlone, Step, View, Whole, S3.ReplyOf, SyncNet.ReplyOf, SyncNet.PullStates, SyncNet.Step;
    hide SyncNet.CompletePull;
    var net := nets[i];
    ReadsBoth(norm, dek, net, h, Pulling(adopt), read);
    HeldAtStart(norm, dek, nets, acts, i, h);
    if Step(norm, dek, read, h, Apply, end) {
      Applies(norm, dek, net, h, adopt, end);
    } else if Step(norm, dek, read, h, Anchor, end) {
      Anchors(norm, dek, net, h, adopt, end);
    } else {
      NothingToWrite(norm, dek, net, h, adopt);
    }
  }

  function States(norm: SyncNet.Reencode, dek: nat, net: Net, h: nat, adopt: bool): seq<SyncNet.Host>
    requires h in net.hosts
  {
    SyncNet.PullStates(norm, Files(net.hosts[h]), SyncNet.ReplyOf(dek, View(net).remote), dek, adopt)
  }

  lemma LastWriteCompletes(norm: SyncNet.Reencode, dek: nat, net: Net, h: nat, adopt: bool, end: SyncNet.Net)
    requires h in net.hosts
    requires var states := States(norm, dek, net, h, adopt);
      states != [] && end == if |states| == 1 then View(net) else SyncNet.Becomes(View(net), h, states[|states| - 1])
    ensures exists writes ::
      && SyncNet.Step(norm, dek, View(net), h, SyncNet.Pull(adopt, writes), end)
      && SyncNet.CompletePull(norm, dek, View(net), h, SyncNet.Pull(adopt, writes))
  {
    hide SyncNet.PullStates, SyncNet.ReplyOf;
    var writes := |States(norm, dek, net, h, adopt)| - 1;
    assert SyncNet.Step(norm, dek, View(net), h, SyncNet.Pull(adopt, writes), end);
    assert SyncNet.CompletePull(norm, dek, View(net), h, SyncNet.Pull(adopt, writes));
  }

  lemma Applies(norm: SyncNet.Reencode, dek: nat, net: Net, h: nat, adopt: bool, end: Net)
    requires Whole(net) && h in net.hosts && Step(norm, dek, Read(dek, net, h, Pulling(adopt)), h, Apply, end)
    ensures Whole(end)
    ensures exists writes ::
      && SyncNet.Step(norm, dek, View(net), h, SyncNet.Pull(adopt, writes), View(end))
      && SyncNet.CompletePull(norm, dek, View(net), h, SyncNet.Pull(adopt, writes))
  {
    WholeReply(dek, net);
    var states := States(norm, dek, net, h, adopt);
    assert |states| == 3 && states[2] == Files(end.hosts[h]);
    ViewAfterWrite(net, h, end);
    LastWriteCompletes(norm, dek, net, h, adopt, View(end));
  }

  lemma Anchors(norm: SyncNet.Reencode, dek: nat, net: Net, h: nat, adopt: bool, end: Net)
    requires Whole(net) && h in net.hosts && Step(norm, dek, Read(dek, net, h, Pulling(adopt)), h, Anchor, end)
    requires net.hosts[h].config in net.hosts[h].held
    ensures Whole(end)
    ensures exists writes ::
      && SyncNet.Step(norm, dek, View(net), h, SyncNet.Pull(adopt, writes), View(end))
      && SyncNet.CompletePull(norm, dek, View(net), h, SyncNet.Pull(adopt, writes))
  {
    WholeReply(dek, net);
    var states := States(norm, dek, net, h, adopt);
    assert |states| == 2 && states[1] == Files(end.hosts[h]);
    assert net.hosts[h].held + {net.hosts[h].config} == net.hosts[h].held;
    ViewAfterWrite(net, h, end);
    LastWriteCompletes(norm, dek, net, h, adopt, View(end));
  }

  lemma ViewAfterWrite(net: Net, h: nat, end: Net)
    requires h in net.hosts && end.hosts.Keys == net.hosts.Keys && end.versions == net.versions
    requires forall g | g in net.hosts && g != h :: end.hosts[g] == net.hosts[g]
    requires end.hosts[h].held == net.hosts[h].held + {end.hosts[h].config}
    ensures View(end) == SyncNet.Becomes(View(net), h, Files(end.hosts[h]))
  {
    assert View(end).hosts == View(net).hosts[h := Files(end.hosts[h])];
    assert View(end).held == View(net).held[h := View(net).held[h] + {end.hosts[h].config}];
  }

  lemma NothingToWrite(norm: SyncNet.Reencode, dek: nat, net: Net, h: nat, adopt: bool)
    requires Whole(net) && h in net.hosts
    requires forall n :: !Step(norm, dek, Read(dek, net, h, Pulling(adopt)), h, Apply, n)
                         && !Step(norm, dek, Read(dek, net, h, Pulling(adopt)), h, Anchor, n)
    ensures Whole(Read(dek, net, h, Pulling(adopt)))
    ensures exists writes ::
      && SyncNet.Step(norm, dek, View(net), h, SyncNet.Pull(adopt, writes), View(Read(dek, net, h, Pulling(adopt))))
      && SyncNet.CompletePull(norm, dek, View(net), h, SyncNet.Pull(adopt, writes))
  {
    WholeReply(dek, net);
    var read := Read(dek, net, h, Pulling(adopt));
    var host := read.hosts[h];
    if ToApply(dek, host).Some? && norm(ToApply(dek, host).value).Some? {
      var plain, hash := ToApply(dek, host).value, S3.ReplyOf(host.pc.blob, host.pc.meta).hash;
      assert Step(norm, dek, read, h, Apply,
                  read.(hosts := read.hosts[h := Holds(host, norm(plain).value).(base := hash, pc := Resting)],
                        applied := read.applied + [Applied(h, plain, hash)]));
    }
    assert !Step(norm, dek, read, h, Anchor,
                 read.(hosts := read.hosts[h := host.(base := Sha(host.pc.cfg), pc := Resting)]));
    assert |States(norm, dek, net, h, adopt)| == 1;
    ViewIgnoresPc(net, h, host.pc);
    LastWriteCompletes(norm, dek, net, h, adopt, View(read));
  }
}
