/** An edit that falls between the read of the config and its replacement by the pulled one: a pull holds no lock in
    between, and never looks at the file again (internal/cli/sync.go:311-417, internal/syncconfig/engine.go:131-179). */
module PullRace {
  import opened Wrappers
  import opened Sync
  import opened S3
  import opened S3Net
  import SyncNet

  /** Some push stored these bytes. */
  ghost predicate Published(versions: seq<Version>, b: Bytes) {
    exists k | 0 <= k < |versions| :: versions[k].content == b
  }

  ghost predicate HashPublished(versions: seq<Version>, h: Hash) {
    h.Sha? && Published(versions, h.content)
  }

  /** What a host knows of the remote was stored there. */
  ghost predicate HostKnows(versions: seq<Version>, host: Host) {
    && (host.base == Empty || HashPublished(versions, host.base))
    && (host.pc.SawBoth? && host.pc.meta.Found? && host.pc.meta.data.Some? ==>
          HashPublished(versions, host.pc.meta.data.value))
    && (host.pc.StoredBlob? ==> Published(versions, host.pc.cfg))
  }

  ghost predicate AllPublished(net: Net) {
    && (net.meta.Some? ==> HashPublished(net.versions, net.meta.value))
    && forall h | h in net.hosts :: HostKnows(net.versions, net.hosts[h])
  }

  lemma StillPublished(versions: seq<Version>, v: Version, b: Bytes)
    ensures Published(versions, b) ==> Published(versions + [v], b)
    ensures Published(versions + [v], v.content)
  {
    var after := versions + [v];
    if k :| 0 <= k < |versions| && versions[k].content == b {
      assert after[k].content == b;
    }
    assert after[|versions|].content == v.content;
  }

  lemma StillKnows(versions: seq<Version>, v: Version, host: Host)
    requires HostKnows(versions, host)
    ensures HostKnows(versions + [v], host)
  {
    forall b ensures Published(versions, b) ==> Published(versions + [v], b) {
      StillPublished(versions, v, b);
    }
    hide Published;
  }

  lemma StepKeepsPublished(norm: SyncNet.Reencode, dek: nat, net: Net, h: nat, a: Act, net': Net)
    requires AllPublished(net) && Step(norm, dek, net, h, a, net')
    ensures AllPublished(net')
  {
    hide Published, MayStore;
    var host := net.hosts[h];
    if a.PutBlob? {
      StoreKeepsPublished(norm, dek, net, h, net');
    } else if a.Apply? {
      AppliedHash(dek, net, h);
    }
  }

  lemma StoreKeepsPublished(norm: SyncNet.Reencode, dek: nat, net: Net, h: nat, net': Net)
    requires AllPublished(net) && Step(norm, dek, net, h, PutBlob, net')
    ensures AllPublished(net')
  {
    hide Published;
    var v := net'.versions[|net.versions|];
    assert net'.versions == net.versions + [v] && v.content == net.hosts[h].pc.cfg;
    forall b ensures Published(net.versions, b) ==> Published(net'.versions, b) {
      StillPublished(net.versions, v, b);
    }
    StillPublished(net.versions, v, v.content);
    forall g | g in net'.hosts ensures HostKnows(net'.versions, net'.hosts[g]) {
      StillKnows(net.versions, v, net.hosts[g]);
    }
  }

  lemma {:induction false} RunKeepsPublished(norm: SyncNet.Reencode, dek: nat, nets: seq<Net>, acts: seq<(nat, Act)>,
                                             i: nat)
    requires Run(norm, dek, nets, acts) && i < |nets|
    ensures AllPublished(nets[i])
  {
    hide Step;
    if i > 0 {
      RunKeepsPublished(norm, dek, nets, acts, i - 1);
      hide AllPublished;
      StepKeepsPublished(norm, dek, nets[i - 1], acts[i - 1].0, acts[i - 1].1, nets[i]);
    }
  }

  // ----- edits during a command -----------------------------------------------------------------------------------

  /** Among the first n steps, h edited its config after its last Start (or Apply). */
  function EditedSince(acts: seq<(nat, Act)>, h: nat, n: nat): bool
    requires n <= |acts|
  {
    if n == 0 then false
    else if acts[n - 1].0 != h then EditedSince(acts, h, n - 1)
    else if acts[n - 1].1.Edit? then true
    else if acts[n - 1].1.Start? || acts[n - 1].1.Apply? then false
    else EditedSince(acts, h, n - 1)
  }

  /** Without an edit the config is still the one the command read. */
  lemma {:induction false} ConfigIsRead(norm: SyncNet.Reencode, dek: nat, nets: seq<Net>, acts: seq<(nat, Act)>, h: nat,
                                        n: nat)
    requires Run(norm, dek, nets, acts) && n <= |acts| && h in nets[n].hosts
    requires !EditedSince(acts, h, n) && !nets[n].hosts[h].pc.Resting?
    ensures nets[n].hosts[h].config == nets[n].hosts[h].pc.cfg
  {
    hide Fence, Meets, ToApply, CurrentBlob, CurrentMeta;
    if n > 0 {
      assert Step(norm, dek, nets[n - 1], acts[n - 1].0, acts[n - 1].1, nets[n]);
      if acts[n - 1].0 != h || !acts[n - 1].1.Start? {
        hide EditedSince;
        assert !EditedSince(acts, h, n - 1) by { EditedBefore(acts, h, n); }
        ConfigIsRead(norm, dek, nets, acts, h, n - 1);
      }
    }
  }

  lemma EditedBefore(acts: seq<(nat, Act)>, h: nat, n: nat)
    requires 0 < n <= |acts| && !EditedSince(acts, h, n)
    requires acts[n - 1].0 != h || !(acts[n - 1].1.Start? || acts[n - 1].1.Apply?)
    ensures !EditedSince(acts, h, n - 1)
  {
  }

  /** The same steps, but for the bytes of edits. */
  ghost predicate SameButEdits(acts: seq<(nat, Act)>, acts': seq<(nat, Act)>) {
    && |acts'| == |acts|
    && forall k | 0 <= k < |acts| ::
      acts'[k] == acts[k] || (acts'[k].0 == acts[k].0 && acts'[k].1.Edit? && acts[k].1.Edit?)
  }

  lemma {:induction false} SameEdited(acts: seq<(nat, Act)>, acts': seq<(nat, Act)>, h: nat, n: nat)
    requires SameButEdits(acts, acts') && n <= |acts|
    ensures EditedSince(acts', h, n) == EditedSince(acts, h, n)
  {
    if n > 0 {
      SameEdited(acts, acts', h, n - 1);
    }
  }

  /** The net with another config at host h. */
  function Dressed(net: Net, h: nat, config: Bytes, held: set<Bytes>): Net
    requires h in net.hosts
  {
    net.(hosts := net.hosts[h := net.hosts[h].(config := config, held := held)])
  }

  /** No step but a Start, an Edit and an Apply of h depends on the config of h, or touches it. */
  lemma StepIgnoresConfig(norm: SyncNet.Reencode, dek: nat, net: Net, g: nat, a: Act, net': Net, h: nat, config: Bytes,
                          held: set<Bytes>)
    requires Step(norm, dek, net, g, a, net') && h in net.hosts
    requires g == h ==> !(a.Start? || a.Edit? || a.Apply?)
    ensures h in net'.hosts
    ensures Step(norm, dek, Dressed(net, h, config, held), g, a, Dressed(net', h, config, held))
  {
    var d, d' := Dressed(net, h, config, held), Dressed(net', h, config, held);
    if g == h {
      OwnStepIgnoresConfig(norm, dek, net, h, a, net', config, held);
    } else {
      OtherStepIgnoresConfig(norm, dek, net, g, a, net', h, config, held);
    }
  }

  lemma OwnStepIgnoresConfig(norm: SyncNet.Reencode, dek: nat, net: Net, h: nat, a: Act, net': Net, config: Bytes,
                             held: set<Bytes>)
    requires Step(norm, dek, net, h, a, net') && !(a.Start? || a.Edit? || a.Apply?)
    ensures h in net.hosts && h in net'.hosts
    ensures Step(norm, dek, Dressed(net, h, config, held), h, a, Dressed(net', h, config, held))
  {
    hide Fence, Meets, ConditionFor, Observation, S3.ReplyOf, DecideOn;
    assert Dressed(net, h, config, held).hosts[h := net'.hosts[h].(config := config, held := held)]
        == Dressed(net', h, config, held).hosts;
  }

  lemma OtherStepIgnoresConfig(norm: SyncNet.Reencode, dek: nat, net: Net, g: nat, a: Act, net': Net, h: nat,
                               config: Bytes, held: set<Bytes>)
    requires Step(norm, dek, net, g, a, net') && h in net.hosts && g != h
    ensures h in net'.hosts
    ensures Step(norm, dek, Dressed(net, h, config, held), g, a, Dressed(net', h, config, held))
  {
    hide Fence, Meets, ConditionFor, Observation, S3.ReplyOf, DecideOn, Fetched;
    assert Dressed(net, h, config, held).hosts[g := net'.hosts[g]] == Dressed(net', h, config, held).hosts;
  }

  lemma PrefixRuns(norm: SyncNet.Reencode, dek: nat, nets: seq<Net>, acts: seq<(nat, Act)>, n: nat)
    requires Run(norm, dek, nets, acts) && n <= |acts|
    ensures Run(norm, dek, nets[..n + 1], acts[..n])
  {
    hide Step, Init;
    var ns, xs := nets[..n + 1], acts[..n];
    forall i | 0 <= i < n ensures Step(norm, dek, ns[i], xs[i].0, xs[i].1, ns[i + 1]) {
      assert Step(norm, dek, nets[i], acts[i].0, acts[i].1, nets[i + 1]);
    }
  }

  lemma SameWithOneMore(acts: seq<(nat, Act)>, acts': seq<(nat, Act)>, n: nat, last: (nat, Act))
    requires n < |acts| && SameButEdits(acts[..n], acts')
    requires last == acts[n] || (last.0 == acts[n].0 && last.1.Edit? && acts[n].1.Edit?)
    ensures SameButEdits(acts[..n + 1], acts' + [last])
  {
    assert forall k | 0 <= k < n :: acts[..n + 1][k] == acts[..n][k] && (acts' + [last])[k] == acts'[k];
  }

  lemma EditBy(norm: SyncNet.Reencode, dek: nat, net: Net, h: nat, b: Bytes, net': Net, b': Bytes)
    returns (held: set<Bytes>)
    requires Step(norm, dek, net, h, Edit(b), net')
    ensures h in net'.hosts && Step(norm, dek, net, h, Edit(b'), Dressed(net', h, b', held))
  {
    held := net.hosts[h].held + {b'};
    assert Dressed(net', h, b', held).hosts == net.hosts[h := Holds(net.hosts[h], b')];
  }

  /** The last edit might have been another one: the same steps lead to the same net but for the config of h. */
  lemma {:induction false} Reedited(norm: SyncNet.Reencode, dek: nat, nets: seq<Net>, acts: seq<(nat, Act)>, h: nat,
                                    n: nat, b: Bytes)
    returns (nets': seq<Net>, acts': seq<(nat, Act)>, held: set<Bytes>)
    requires Run(norm, dek, nets, acts) && n <= |acts| && EditedSince(acts, h, n)
    ensures h in nets[n].hosts && Run(norm, dek, nets', acts') && |acts'| == n && SameButEdits(acts[..n], acts')
    ensures nets'[n] == Dressed(nets[n], h, b, held)
  {
    var g, a := acts[n - 1].0, acts[n - 1].1;
    assert Step(norm, dek, nets[n - 1], g, a, nets[n]);
    hide Run, Step;
    if g == h && a.Edit? {
      held := EditBy(norm, dek, nets[n - 1], h, a.b, nets[n], b);
      PrefixRuns(norm, dek, nets, acts, n - 1);
      nets', acts' := nets[..n], acts[..n - 1];
      RunLength(norm, dek, nets, acts);
      Extended(norm, dek, nets', acts', h, Edit(b), Dressed(nets[n], h, b, held));
      SameWithOneMore(acts, acts', n - 1, (h, Edit(b)));
      nets', acts' := nets' + [Dressed(nets[n], h, b, held)], acts' + [(h, Edit(b))];
    } else {
      nets', acts', held := Reedited(norm, dek, nets, acts, h, n - 1, b);
      RunLength(norm, dek, nets', acts');
      StepIgnoresConfig(norm, dek, nets[n - 1], g, a, nets[n], h, b, held);
      Extended(norm, dek, nets', acts', g, a, Dressed(nets[n], h, b, held));
      SameWithOneMore(acts, acts', n - 1, (g, a));
      nets', acts' := nets' + [Dressed(nets[n], h, b, held)], acts' + [(g, a)];
    }
  }

  // ----- the theorem ----------------------------------------------------------------------------------------------

  /** Host h is about to apply what a pull without adopt fetched. */
  ghost predicate AboutToApply(norm: SyncNet.Reencode, dek: nat, net: Net, h: nat) {
    && h in net.hosts && net.hosts[h].pc.SawBoth? && net.hosts[h].pc.kind == Pulling(false)
    && ToApply(dek, net.hosts[h]).Some? && norm(ToApply(dek, net.hosts[h]).value).Some?
  }

  /** Another run of the same steps, but for the bytes of edits, in which h is at the same point of the same pull. */
  ghost predicate SamePull(norm: SyncNet.Reencode, dek: nat, nets: seq<Net>, acts: seq<(nat, Act)>, nets': seq<Net>,
                           acts': seq<(nat, Act)>, h: nat)
    requires |nets| == |acts| + 1
  {
    && Run(norm, dek, nets', acts') && SameButEdits(acts, acts')
    && h in nets[|acts|].hosts && h in nets'[|acts|].hosts
    && nets'[|acts|].hosts[h].pc == nets[|acts|].hosts[h].pc
    && nets'[|acts|].hosts[h].base == nets[|acts|].hosts[h].base
  }

  /** What the pull is about to replace was once published. */
  ghost predicate SparesWork(net: Net, h: nat) {
    h in net.hosts && Published(net.versions, net.hosts[h].config)
  }

  lemma UneditedIsSpared(norm: SyncNet.Reencode, dek: nat, nets: seq<Net>, acts: seq<(nat, Act)>, h: nat)
    requires Run(norm, dek, nets, acts) && AboutToApply(norm, dek, nets[|acts|], h)
    requires !EditedSince(acts, h, |acts|)
    ensures SparesWork(nets[|acts|], h)
  {
    RunKeepsPublished(norm, dek, nets, acts, |acts|);
    ConfigIsRead(norm, dek, nets, acts, h, |acts|);
  }

  /** Bytes nobody stored: longer than all that were. */
  lemma {:induction false} UnpublishedBytes(versions: seq<Version>) returns (b: Bytes)
    ensures forall k | 0 <= k < |versions| :: |versions[k].content| < |b|
    ensures !Published(versions, b)
  {
    if versions == [] {
      b := [];
    } else {
      var c := UnpublishedBytes(versions[..|versions| - 1]);
      b := c + versions[|versions| - 1].content + [0];
      forall k | 0 <= k < |versions| ensures |versions[k].content| < |b| {
        if k < |versions| - 1 {
          assert versions[..|versions| - 1][k] == versions[k];
        }
      }
    }
  }

  /** A pull without adopt is sure to replace only published work if and only if its host made no edit since it started:
      otherwise the same steps, with other bytes in that edit, destroy work that nobody has. */
  lemma PullSparesWorkExactly(norm: SyncNet.Reencode, dek: nat, nets: seq<Net>, acts: seq<(nat, Act)>, h: nat)
    requires Run(norm, dek, nets, acts) && AboutToApply(norm, dek, nets[|acts|], h)
    ensures (forall nets', acts' | SamePull(norm, dek, nets, acts, nets', acts', h) :: SparesWork(nets'[|acts|], h))
            <==> !EditedSince(acts, h, |acts|)
  {
    var n := |acts|;
    hide Step, Init, SparesWork;
    if EditedSince(acts, h, n) {
      var b := UnpublishedBytes(nets[n].versions);
      var nets', acts', held := Reedited(norm, dek, nets, acts, h, n, b);
      assert acts[..n] == acts;
      assert SamePull(norm, dek, nets, acts, nets', acts', h);
      assert !SparesWork(nets'[n], h) by { NewWorkIsLost(nets[n], h, b, held); }
    } else {
      forall nets', acts' | SamePull(norm, dek, nets, acts, nets', acts', h) ensures SparesWork(nets'[n], h) {
        SameEdited(acts, acts', h, n);
        UneditedIsSpared(norm, dek, nets', acts', h);
      }
    }
  }

  lemma NewWorkIsLost(net: Net, h: nat, b: Bytes, held: set<Bytes>)
    requires h in net.hosts && !Published(net.versions, b)
    ensures !SparesWork(Dressed(net, h, b, held), h)
  {
    hide Published;
  }

  /** And such a run there is: host 1 starts a pull, its config is edited, and the pull replaces the edited config by
      the one host 0 pushed. */
  lemma EditDuringPullIsLost(norm: SyncNet.Reencode, dek: nat) returns (nets: seq<Net>, acts: seq<(nat, Act)>)
    requires norm([1]).Some?
    ensures Run(norm, dek, nets, acts) && acts != [] && acts[|acts| - 1] == (1, Apply)
    ensures AboutToApply(norm, dek, nets[|acts| - 1], 1) && !SparesWork(nets[|acts| - 1], 1)
    ensures nets[|acts|].hosts[1].config == norm([1]).value
  {
    hide Run, Step;
    var x: Bytes, y: Bytes, z: Bytes := [], [1], [2];
    assert x != y && y != z && z != x by { assert y[0] != z[0]; }
    nets, acts := BothHold(norm, dek, x);
    var n2 := nets[|acts|];
    nets, acts := Edited(norm, dek, nets, acts, 0, y);
    var n3 := n2.(hosts := n2.hosts[0 := Holds(n2.hosts[0], y)]);
    nets, acts := WholePush(norm, dek, nets, acts, 0);
    RunLength(norm, dek, nets, acts);
    nets, acts := PullWithEdit(norm, dek, nets, acts, x, y, z);
  }

  /** A pull of y by host 1, which had x, with an edit to z just before the write. */
  lemma PullWithEdit(norm: SyncNet.Reencode, dek: nat, nets: seq<Net>, acts: seq<(nat, Act)>, x: Bytes, y: Bytes,
                     z: Bytes)
    returns (nets': seq<Net>, acts': seq<(nat, Act)>)
    requires Run(norm, dek, nets, acts) && |nets| == |acts| + 1 && norm(y).Some? && x != y
    requires var net := nets[|acts|];
             && 1 in net.hosts && net.hosts[1].pc.Resting? && net.hosts[1].config == x && net.hosts[1].base == Sha(x)
             && CurrentMeta(net) == Found(Some(Sha(y)), None) && CurrentBlob(dek, net).Found?
             && CurrentBlob(dek, net).data == SealBlob(dek, y, Sha(y)) && !Published(net.versions, z)
    ensures Run(norm, dek, nets', acts') && acts' != [] && acts'[|acts'| - 1] == (1, Apply)
    ensures |nets'| == |acts'| + 1
    ensures AboutToApply(norm, dek, nets'[|acts'| - 1], 1) && !SparesWork(nets'[|acts'| - 1], 1)
    ensures nets'[|acts'|].hosts[1].config == norm(y).value
  {
    hide Run;
    var net := nets[|acts|];
    var n1 := Goes(net, 1, Started(Pulling(false), x));
    Extended(norm, dek, nets, acts, 1, Start(Pulling(false)), n1);
    nets', acts' := nets + [n1], acts + [(1, Start(Pulling(false)))];
    var n2 := Goes(net, 1, SawBlob(Pulling(false), x, CurrentBlob(dek, net)));
    Extended(norm, dek, nets', acts', 1, GetBlob(true), n2);
    nets', acts' := nets' + [n2], acts' + [(1, GetBlob(true))];
    var n3 := Goes(net, 1, SawBoth(Pulling(false), x, CurrentBlob(dek, net), CurrentMeta(net)));
    Extended(norm, dek, nets', acts', 1, GetMeta(true), n3);
    nets', acts' := nets' + [n3], acts' + [(1, GetMeta(true))];
    var n4 := n3.(hosts := n3.hosts[1 := Holds(n3.hosts[1], z)]);
    Extended(norm, dek, nets', acts', 1, Edit(z), n4);
    nets', acts' := nets' + [n4], acts' + [(1, Edit(z))];
    assert ToApply(dek, n4.hosts[1]) == Some(y);
    var n5 := n4.(hosts := n4.hosts[1 := Holds(n4.hosts[1], norm(y).value).(base := Sha(y), pc := Resting)],
                  applied := n4.applied + [Applied(1, y, Sha(y))]);
    Extended(norm, dek, nets', acts', 1, Apply, n5);
    nets', acts' := nets' + [n5], acts' + [(1, Apply)];
    RunLength(norm, dek, nets', acts');
  }
}
