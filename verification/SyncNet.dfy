/** Many hosts around one remote, with a push or a pull as one exchange with the remote and a crash possible between any
    two writes to the host's own files (internal/syncconfig/engine.go, internal/cli/sync.go:246-417). */
module SyncNet {
  import opened Wrappers
  import opened Sync

  /** A host's two files: the config, and the base hash recorded in the sidecar. */
  datatype Host = Host(config: Bytes, base: Hash)

  /** Parsing, structural validation and re-encoding of pulled bytes; only that it is idempotent is known. */
  type Reencode = Bytes -> Option<Bytes>

  ghost predicate Idempotent(norm: Reencode) {
    forall b | norm(b).Some? :: norm(norm(b).value) == norm(b)
  }

  /** The bytes are what re-encoding makes of them. */
  predicate Canonical(norm: Reencode, b: Bytes) {
    norm(b) == Some(b)
  }

  // ----- the pull command -----------------------------------------------------------------------------------------

  /** The states of the host's files during `sync pull`, in order. */
  function PullStates(norm: Reencode, host: Host, reply: Reply, dek: nat, adopt: bool): seq<Host> {
    if !reply.Pair? then [host]
    else
      var wanted := Fetched(reply, host.base, Sha(host.config), dek, adopt);
      if wanted.Some? then
        if wanted.value.Ok? && norm(wanted.value.value).Some? then
          var written := host.(config := norm(wanted.value.value).value);
          [host, written, written.(base := reply.hash)]
        else [host]
      else if DecideOn(reply, host.base, Sha(host.config)) == Noop then [host, host.(base := Sha(host.config))]
      else [host]
  }

  /** A host's directory; `trace` records every state of its two files. */
  class Disk {
    var config: Bytes
    var base: Hash
    ghost var trace: seq<Host>

    constructor (host: Host)
      ensures Files() == host && trace == [host]
    {
      config, base, trace := host.config, host.base, [host];
    }

    function Files(): Host
      reads this
    {
      Host(config, base)
    }

    method WriteConfig(b: Bytes)
      modifies this
      ensures Files() == old(Files()).(config := b) && trace == old(trace) + [Files()]
    {
      config := b;
      trace := trace + [Files()];
    }

    method SaveSidecar(h: Hash)
      modifies this
      ensures Files() == old(Files()).(base := h) && trace == old(trace) + [Files()]
    {
      base := h;
      trace := trace + [Files()];
    }
  }

  /** runSyncPull: first the config is written, then the sidecar; divergence and errors leave both alone. */
  method RunSyncPull(norm: Reencode, disk: Disk, adapter: Adapter, dek: nat, adopt: bool)
    modifies disk
    ensures var states := PullStates(norm, old(disk.Files()), adapter.reply, dek, adopt);
            disk.trace == old(disk.trace) + states[1..] && disk.Files() == states[|states| - 1]
    ensures forall p | adapter.reply == Pair(SealBlob(dek, p, Sha(p)), Sha(p)) ::
      var before, after := old(disk.Files()), disk.Files();
      if before.config == p then after == Host(p, Sha(p))
      else if norm(p).Some? && (before.base == Sha(before.config) || (before.base == Empty && adopt))
      then after == Host(norm(p).value, Sha(p))
      else after == before
    ensures !adapter.reply.Pair? ==> disk.Files() == old(disk.Files())
    ensures forall k | |old(disk.trace)| <= k < |disk.trace| ::
      disk.trace[k].base != old(disk.Files()).base ==> disk.trace[k].config == disk.Files().config
  {
    var ad := new Record(disk.base);
    var pulled := PullConfig(adapter, ad, dek, disk.config, adopt);
    if pulled.Err? {
      return;
    }
    match pulled.value.decision
    case Noop => disk.SaveSidecar(ad.baseHash);
    case FastForward =>
      var parsed := norm(pulled.value.applied.value);
      if parsed.None? {
        return;
      }
      disk.WriteConfig(parsed.value);
      disk.SaveSidecar(ad.baseHash);
    case _ =>
  }

  // ----- the protocol ---------------------------------------------------------------------------------------------

  /** The hosts, everything each of them ever had as its config, the remote's content, and all it ever was. */
  datatype Net = Net(hosts: map<nat, Host>, held: map<nat, set<Bytes>>, remote: Option<Bytes>, published: set<Bytes>)

  /** A push may crash before the sidecar is saved, a pull after any number of its writes. */
  datatype Act = Edit(b: Bytes) | Push(force: bool, crash: bool) | Pull(adopt: bool, writes: nat)

  function ReplyOf(dek: nat, remote: Option<Bytes>): Reply {
    if remote.None? then NoState else Pair(SealBlob(dek, remote.value, Sha(remote.value)), Sha(remote.value))
  }

  function Becomes(net: Net, h: nat, host: Host): Net
    requires h in net.held
  {
    net.(hosts := net.hosts[h := host], held := net.held[h := net.held[h] + {host.config}])
  }

  ghost predicate Step(norm: Reencode, dek: nat, net: Net, h: nat, a: Act, net': Net) {
    && h in net.hosts && h in net.held
    && var host := net.hosts[h];
       var reply := ReplyOf(dek, net.remote);
       match a
       case Edit(b) => net' == Becomes(net, h, host.(config := b))
       case Push(force, crash) =>
         if Fence(reply, host.base, Sha(host.config), force).Some? then net' == net
         else
           net' == Becomes(net, h, if crash then host else host.(base := Sha(host.config)))
                   .(remote := Some(host.config), published := net.published + {host.config})
       case Pull(adopt, writes) =>
         var states := PullStates(norm, host, reply, dek, adopt);
         writes < |states| && net' == if writes == 0 then net else Becomes(net, h, states[writes])
  }

  ghost predicate Init(net: Net) {
    && net.held.Keys == net.hosts.Keys
    && (forall h | h in net.hosts :: net.hosts[h].config in net.held[h] && net.hosts[h].base == Empty)
    && (net.remote.Some? ==> net.remote.value in net.published)
  }

  ghost predicate Run(norm: Reencode, dek: nat, nets: seq<Net>, acts: seq<(nat, Act)>) {
    && |nets| == |acts| + 1 && Init(nets[0])
    && forall i | 0 <= i < |acts| :: Step(norm, dek, nets[i], acts[i].0, acts[i].1, nets[i + 1])
  }

  // ----- the invariant --------------------------------------------------------------------------------------------

  /** The host had these bytes as its config, or their re-encoding. */
  predicate HeldUpTo(norm: Reencode, held: set<Bytes>, b: Bytes) {
    b in held || (norm(b).Some? && norm(b).value in held)
  }

  /** A recorded base is the hash of something the remote published and this host held. */
  ghost predicate BaseOk(norm: Reencode, base: Hash, held: set<Bytes>, published: set<Bytes>) {
    base == Empty || (base.Sha? && base.content in published && HeldUpTo(norm, held, base.content))
  }

  ghost predicate Inv(norm: Reencode, net: Net) {
    && net.held.Keys == net.hosts.Keys
    && (net.remote.Some? ==> net.remote.value in net.published)
    && forall h | h in net.hosts ::
      net.hosts[h].config in net.held[h] && BaseOk(norm, net.hosts[h].base, net.held[h], net.published)
  }

  lemma StepKeepsInv(norm: Reencode, dek: nat, net: Net, h: nat, a: Act, net': Net)
    requires Inv(norm, net) && Step(norm, dek, net, h, a, net')
    ensures Inv(norm, net')
  {
  }

  lemma {:induction false} RunKeepsInv(norm: Reencode, dek: nat, nets: seq<Net>, acts: seq<(nat, Act)>, i: nat)
    requires Run(norm, dek, nets, acts) && i < |nets|
    ensures Inv(norm, nets[i])
  {
    hide Step;
    if i > 0 {
      RunKeepsInv(norm, dek, nets, acts, i - 1);
      StepKeepsInv(norm, dek, nets[i - 1], acts[i - 1].0, acts[i - 1].1, nets[i]);
    }
  }

  // ----- the theorems ---------------------------------------------------------------------------------------------

  /** No lost update: in every run a push without force that changes the remote's content replaces something the pushing
      host itself had as its config before, up to re-encoding. */
  lemma NoLostUpdate(norm: Reencode, dek: nat, nets: seq<Net>, acts: seq<(nat, Act)>, i: nat)
    requires Run(norm, dek, nets, acts) && i < |acts| && acts[i].1.Push? && !acts[i].1.force
    requires nets[i].remote.Some? && nets[i + 1].remote != nets[i].remote
    ensures HeldUpTo(norm, nets[i].held[acts[i].0], nets[i].remote.value)
  {
    RunKeepsInv(norm, dek, nets, acts, i);
    assert Step(norm, dek, nets[i], acts[i].0, acts[i].1, nets[i + 1]);
  }

  /** A pull never destroys unpublished work: without adopt it changes the config only if what was there had been the
      remote's content at some time, whatever others forced. */
  lemma PullKeepsUnpublishedWork(norm: Reencode, dek: nat, nets: seq<Net>, acts: seq<(nat, Act)>, i: nat)
    requires Run(norm, dek, nets, acts) && i < |acts| && acts[i].1.Pull? && !acts[i].1.adopt
    requires nets[i + 1].hosts[acts[i].0].config != nets[i].hosts[acts[i].0].config
    ensures nets[i].hosts[acts[i].0].config in nets[i].published
  {
    RunKeepsInv(norm, dek, nets, acts, i);
    assert Step(norm, dek, nets[i], acts[i].0, acts[i].1, nets[i + 1]);
  }

  /** Adopt makes no difference to a host that has synced before: there, too, only published content is replaced. */
  lemma AdoptSparesSyncedHosts(norm: Reencode, dek: nat, nets: seq<Net>, acts: seq<(nat, Act)>, i: nat)
    requires Run(norm, dek, nets, acts) && i < |acts| && acts[i].1.Pull?
    requires nets[i + 1].hosts[acts[i].0].config != nets[i].hosts[acts[i].0].config
    requires nets[i].hosts[acts[i].0].base != Empty
    ensures nets[i].hosts[acts[i].0].config in nets[i].published
  {
    RunKeepsInv(norm, dek, nets, acts, i);
    assert Step(norm, dek, nets[i], acts[i].0, acts[i].1, nets[i + 1]);
  }

  /** Convergence. After content p was pushed and while nobody edits or pushes, a host with nothing of its own to
      publish reaches p's encoding with its base at p in one pull, and the pull after that finds nothing to do exactly
      when p is canonical; otherwise the host counts as ahead, for the re-encoded bytes differ from the remote's. */
  lemma OnePullConverges(norm: Reencode, dek: nat, host: Host, p: Bytes)
    requires host.base == Sha(host.config) && norm(p).Some? && Idempotent(norm)
    ensures var states := PullStates(norm, host, ReplyOf(dek, Some(p)), dek, false);
            var after := states[|states| - 1];
            && (host.config != p ==> after == Host(norm(p).value, Sha(p)))
            && (host.config == p ==> after == host)
            && (Decide(Sha(after.config), Sha(p), after.base, true) == Noop <==> host.config == p || Canonical(norm, p))
            && (host.config != p && !Canonical(norm, p) ==>
                  Decide(Sha(after.config), Sha(p), after.base, true) == PushNeeded
                  && Canonical(norm, after.config)
                  && Fence(ReplyOf(dek, Some(p)), after.base, Sha(after.config), false) == None)
  {
  }

  /** The host has p, or p's re-encoding, and knows that p is what it last synced to. */
  predicate Converged(norm: Reencode, host: Host, p: Bytes) {
    host.base == Sha(p) && (host.config == p || norm(p) == Some(host.config))
  }

  /** A pull that ran to its end: one that wrote more would be no step. */
  ghost predicate CompletePull(norm: Reencode, dek: nat, net: Net, h: nat, a: Act) {
    a.Pull? && forall n: nat, net' :: Step(norm, dek, net, h, Pull(a.adopt, n), net') ==> n <= a.writes
  }

  lemma CompleteIsPull(norm: Reencode, dek: nat, net: Net, h: nat, a: Act)
    requires CompletePull(norm, dek, net, h, a)
    ensures a.Pull?
  {
  }

  lemma CompleteIsLast(norm: Reencode, dek: nat, net: Net, h: nat, a: Act, net': Net)
    requires Step(norm, dek, net, h, a, net') && CompletePull(norm, dek, net, h, a)
    ensures a.writes == |PullStates(norm, net.hosts[h], ReplyOf(dek, net.remote), dek, a.adopt)| - 1
  {
    var states := PullStates(norm, net.hosts[h], ReplyOf(dek, net.remote), dek, a.adopt);
    var n := |states| - 1;
    assert Step(norm, dek, net, h, Pull(a.adopt, n), if n == 0 then net else Becomes(net, h, states[n]));
  }

  lemma PullConverges(norm: Reencode, dek: nat, net: Net, h: nat, a: Act, net': Net, p: Bytes)
    requires Step(norm, dek, net, h, a, net') && CompletePull(norm, dek, net, h, a)
    requires net.remote == Some(p) && (norm(p).Some? || net.hosts[h].config == p)
    requires
      || net.hosts[h].base == Sha(net.hosts[h].config) || net.hosts[h].config == p || Converged(norm, net.hosts[h], p)
    ensures h in net'.hosts && Converged(norm, net'.hosts[h], p) && net'.remote == Some(p)
    ensures net.hosts[h].config == p ==> net'.hosts[h].config == p
    ensures net.hosts[h].config != p && net.hosts[h].base == Sha(net.hosts[h].config) ==>
      norm(p) == Some(net'.hosts[h].config)
  {
    CompleteIsLast(norm, dek, net, h, a, net');
  }

  /** The whole network converges: from the moment the remote holds p, while nobody edits or pushes and pulls run to
      their end, every host with nothing of its own to publish holds p or its re-encoding after its first pull, and
      keeps it; its next decision is to do nothing exactly when it holds p itself, and otherwise to publish the
      re-encoding. */
  lemma {:induction false} EveryHostConverges(norm: Reencode, dek: nat, nets: seq<Net>, acts: seq<(nat, Act)>, k: nat,
                                              n: nat, h: nat, p: Bytes)
    requires Run(norm, dek, nets, acts) && k <= n < |nets| && nets[k].remote == Some(p) && norm(p).Some?
    requires forall j | k <= j < n :: CompletePull(norm, dek, nets[j], acts[j].0, acts[j].1)
    requires h in nets[k].hosts
    requires nets[k].hosts[h].base == Sha(nets[k].hosts[h].config) || nets[k].hosts[h].config == p
    ensures nets[n].remote == Some(p) && h in nets[n].hosts
    ensures if exists j | k <= j < n :: acts[j].0 == h
            then Converged(norm, nets[n].hosts[h], p) else nets[n].hosts[h] == nets[k].hosts[h]
    ensures Converged(norm, nets[n].hosts[h], p) ==>
      Decide(Sha(nets[n].hosts[h].config), Sha(p), nets[n].hosts[h].base, true)
      == if nets[n].hosts[h].config == p then Noop else PushNeeded
    decreases n
  {
    hide Step, CompletePull, PullStates, Init;
    if n > k {
      EveryHostConverges(norm, dek, nets, acts, k, n - 1, h, p);
      assert Step(norm, dek, nets[n - 1], acts[n - 1].0, acts[n - 1].1, nets[n]);
      if acts[n - 1].0 == h {
        PullConverges(norm, dek, nets[n - 1], h, acts[n - 1].1, nets[n], p);
      } else {
        CompleteIsPull(norm, dek, nets[n - 1], acts[n - 1].0, acts[n - 1].1);
        OtherPullsDoNotMatter(norm, dek, nets[n - 1], acts[n - 1].0, acts[n - 1].1, nets[n], h);
      }
    }
  }

  lemma OtherPullsDoNotMatter(norm: Reencode, dek: nat, net: Net, g: nat, a: Act, net': Net, h: nat)
    requires Step(norm, dek, net, g, a, net') && h in net.hosts && h != g
    ensures h in net'.hosts && net'.hosts[h] == net.hosts[h] && (a.Pull? ==> net'.remote == net.remote)
  {
  }

  lemma {:induction false} OthersLeaveHost(norm: Reencode, dek: nat, nets: seq<Net>, acts: seq<(nat, Act)>, k: nat,
                                           n: nat, h: nat)
    requires Run(norm, dek, nets, acts) && k <= n < |nets| && h in nets[k].hosts
    requires forall j | k <= j < n :: acts[j].0 != h
    ensures h in nets[n].hosts && nets[n].hosts[h] == nets[k].hosts[h]
  {
    hide Step, Init;
    if n > k {
      OthersLeaveHost(norm, dek, nets, acts, k, n - 1, h);
      OtherPullsDoNotMatter(norm, dek, nets[n - 1], acts[n - 1].0, acts[n - 1].1, nets[n], h);
    }
  }

  /** A push that went through leaves its host in step with the remote: after others moved it on, the next pull follows
      without adopt. */
  lemma PusherFollows(norm: Reencode, dek: nat, nets: seq<Net>, acts: seq<(nat, Act)>, k: nat, n: nat, h: nat,
                      force: bool, q: Bytes)
    requires Run(norm, dek, nets, acts) && k < n < |acts| && acts[k] == (h, Push(force, false)) && acts[n].0 == h
    requires h in nets[k].hosts && h in nets[k].held
    requires Fence(ReplyOf(dek, nets[k].remote), nets[k].hosts[h].base, Sha(nets[k].hosts[h].config), force) == None
    requires forall j | k < j < n :: acts[j].0 != h
    requires CompletePull(norm, dek, nets[n], h, acts[n].1) && nets[n].remote == Some(q) && norm(q).Some?
    ensures var p := nets[k].hosts[h].config;
            && nets[k + 1].remote == Some(p) && h in nets[k + 1].hosts && nets[k + 1].hosts[h] == Host(p, Sha(p))
            && h in nets[n + 1].hosts
            && nets[n + 1].hosts[h] == if q == p then Host(p, Sha(p)) else Host(norm(q).value, Sha(q))
  {
    hide CompletePull, PullStates, Init;
    assert Step(norm, dek, nets[k], h, acts[k].1, nets[k + 1]) && Step(norm, dek, nets[n], h, acts[n].1, nets[n + 1]);
    hide Step;
    OthersLeaveHost(norm, dek, nets, acts, k + 1, n, h);
    PullConverges(norm, dek, nets[n], h, acts[n].1, nets[n + 1], q);
  }

  /** A pull that finds nothing to do is not idle: it records what host and remote share, whatever base the host had, so
      that, after others moved the remote on, the next pull follows without adopt. */
  lemma AnchoredHostFollows(norm: Reencode, dek: nat, nets: seq<Net>, acts: seq<(nat, Act)>, k: nat, n: nat, h: nat,
                            p: Bytes, q: Bytes)
    requires Run(norm, dek, nets, acts) && k < n < |acts| && acts[k].0 == h && acts[n].0 == h
    requires forall j | k < j < n :: acts[j].0 != h
    requires CompletePull(norm, dek, nets[k], h, acts[k].1) && CompletePull(norm, dek, nets[n], h, acts[n].1)
    requires h in nets[k].hosts && nets[k].hosts[h].config == p && nets[k].remote == Some(p)
    requires nets[n].remote == Some(q) && norm(q).Some?
    ensures h in nets[k + 1].hosts && nets[k + 1].hosts[h] == Host(p, Sha(p)) && h in nets[n + 1].hosts
    ensures nets[n + 1].hosts[h] == if q == p then Host(p, Sha(p)) else Host(norm(q).value, Sha(q))
  {
    hide CompletePull, PullStates, Init;
    assert Step(norm, dek, nets[k], h, acts[k].1, nets[k + 1]) && Step(norm, dek, nets[n], h, acts[n].1, nets[n + 1]);
    hide Step;
    PullConverges(norm, dek, nets[k], h, acts[k].1, nets[k + 1], p);
    OthersLeaveHost(norm, dek, nets, acts, k + 1, n, h);
    PullConverges(norm, dek, nets[n], h, acts[n].1, nets[n + 1], q);
  }
}
