/** Fetches that run while their resolver is wiped, in every interleaving of their steps
    (internal/agent/resolver.go:31-150, internal/sources/local/local.go:52-128). Each local source has a read-write lock
    of its own, and all local sources of a resolver share one bag map, as BuildResolver wires them. */
module AgentFetch {
  import opened Wrappers
  import opened Envelope
  import opened ConfigModel
  import opened Resolver

  datatype Kind = LocalSource | RemoteSource(src: Source)

  /** A resolver as it was built: its sources and the decrypted bags. */
  datatype Setup = Setup(remotes: Remotes, sources: map<string, Kind>, bags: Bags)

  /** A local source: whether it still has the bag map, who reads it, and whether the wiper holds its lock. */
  datatype Src = Src(filled: bool, readers: set<nat>, writing: bool)

  /** Where a fetch is: before var i with the environment so far, inside the lock of local source s, copying a whole bag
      entry by entry, about to unlock with what it read, or finished. */
  datatype Pc =
    | Next(i: nat, env: map<string, string>)
    | Locked(i: nat, env: map<string, string>, s: string)
    | Copying(i: nat, env: map<string, string>, s: string, got: map<string, string>)
    | Read(i: nat, env: map<string, string>, s: string, raw: Result<map<string, string>, FetchError>)
    | Done(r: Result<map<string, string>, FetchError>)

  datatype Fetcher = Fetcher(vars: seq<Var>, pc: Pc)

  /** The wiper: the local sources still to do, and the one whose lock it holds. */
  datatype Wiper = Wiper(todo: set<string>, at: Option<string>)

  datatype World = World(bags: Bags, srcs: map<string, Src>, fetchers: map<nat, Fetcher>, wiper: Wiper)

  datatype Act =
    | Advance(p: nat) | CopyOne(p: nat, k: string) | CopyDone(p: nat)
    | LockForWipe(s: string) | BlankOne(b: string, k: string) | Drop | Unlock

  predicate IsLocal(s: Setup, n: string) {
    n in s.sources && s.sources[n].LocalSource?
  }

  /** What the resolver's sources answer before any wipe. */
  function View0(s: Setup): map<string, Backend> {
    map n | n in s.sources ::
      match s.sources[n] {
        case LocalSource => LocalBags(Some(s.bags))
        case RemoteSource(src) => RemoteService(src)
      }
  }

  /** The end of one round of fetchVars. */
  function Finish(v: Var, i: nat, env: map<string, string>, raw: Result<map<string, string>, FetchError>): Pc {
    match raw
    case Err(e) => Done(Err(e))
    case Ok(m) =>
      if IsBlank(v.name) then Next(i + 1, env + m)
      else
        match PickValue(m, Chars(v.key))
        case Err(e) => Done(Err(e))
        case Ok(val) => Next(i + 1, env[Chars(v.name) := val])
  }

  function SetPc(w: World, p: nat, pc: Pc): World
    requires p in w.fetchers
  {
    w.(fetchers := w.fetchers[p := w.fetchers[p].(pc := pc)])
  }

  function SetSrc(w: World, s: string, src: Src): World {
    w.(srcs := w.srcs[s := src])
  }

  /** One step of a fetch, other than copying an entry; None while the lock it needs is held by the wiper. */
  function Advanced(s: Setup, w: World, p: nat): Option<World>
    requires p in w.fetchers
  {
    var f := w.fetchers[p];
    match f.pc
    case Next(i, env) =>
      if i >= |f.vars| then Some(SetPc(w, p, Done(Ok(env))))
      else
        var v := f.vars[i];
        if !IsBlank(v.value) then Some(SetPc(w, p, Next(i + 1, env[Chars(v.name) := Chars(v.value)])))
        else if Chars(v.source) !in s.sources then Some(SetPc(w, p, Done(Err(SourceMissing))))
        else
          (match s.sources[Chars(v.source)]
           case RemoteSource(src) =>
             Some(SetPc(w, p, Finish(v, i, env, s.remotes(src, Request(Chars(v.ref), Chars(v.key), Strings(v.extra))))))
           case LocalSource =>
             var n := Chars(v.source);
             if n !in w.srcs || w.srcs[n].writing then None
             else Some(SetSrc(SetPc(w, p, Locked(i, env, n)), n, w.srcs[n].(readers := w.srcs[n].readers + {p}))))
    case Locked(i, env, n) =>
      if i >= |f.vars| || n !in w.srcs then None
      else
        var id, key := Chars(f.vars[i].ref), Chars(f.vars[i].key);
        var bags := if w.srcs[n].filled then Some(w.bags) else None;
        if key == "" && LocalFetch(bags, id, key).Ok? then Some(SetPc(w, p, Copying(i, env, n, map[])))
        else Some(SetPc(w, p, Read(i, env, n, LocalFetch(bags, id, key))))
    case Read(i, env, n, raw) =>
      if i >= |f.vars| || n !in w.srcs then None
      else
        Some(SetSrc(SetPc(w, p, Finish(f.vars[i], i, env, raw)), n, w.srcs[n].(readers := w.srcs[n].readers - {p})))
    case _ => None
  }

  ghost predicate Step(s: Setup, w: World, a: Act, w': World) {
    match a
    case Advance(p) => p in w.fetchers && Advanced(s, w, p) == Some(w')
    case CopyOne(p, k) =>
      && p in w.fetchers && w.fetchers[p].pc.Copying?
      && var pc := w.fetchers[p].pc;
         && pc.i < |w.fetchers[p].vars|
         && var id := Chars(w.fetchers[p].vars[pc.i].ref);
            && id in w.bags && k in w.bags[id]
            && w' == SetPc(w, p, pc.(got := pc.got[k := w.bags[id][k]]))
    case CopyDone(p) =>
      && p in w.fetchers && w.fetchers[p].pc.Copying?
      && var pc := w.fetchers[p].pc;
         && pc.i < |w.fetchers[p].vars|
         && var id := Chars(w.fetchers[p].vars[pc.i].ref);
            && id in w.bags && pc.got.Keys == w.bags[id].Keys
            && w' == SetPc(w, p, Read(pc.i, pc.env, pc.s, Ok(pc.got)))
    case LockForWipe(n) =>
      && w.wiper.at == None && n in w.wiper.todo && n in w.srcs && w.srcs[n].readers == {}
      && w' == SetSrc(w, n, w.srcs[n].(writing := true)).(wiper := Wiper(w.wiper.todo - {n}, Some(n)))
    case BlankOne(b, k) =>
      && w.wiper.at.Some? && w.wiper.at.value in w.srcs && w.srcs[w.wiper.at.value].filled
      && b in w.bags && k in w.bags[b] && w' == w.(bags := w.bags[b := w.bags[b][k := ""]])
    case Drop =>
      && w.wiper.at.Some? && w.wiper.at.value in w.srcs
      && (w.srcs[w.wiper.at.value].filled ==> forall b | b in w.bags :: forall k | k in w.bags[b] :: w.bags[b][k] == "")
      && w' == SetSrc(w, w.wiper.at.value, w.srcs[w.wiper.at.value].(filled := false))
    case Unlock =>
      && w.wiper.at.Some? && w.wiper.at.value in w.srcs && !w.srcs[w.wiper.at.value].filled
      && w' == SetSrc(w, w.wiper.at.value, w.srcs[w.wiper.at.value].(writing := false)).(
                 wiper := Wiper(w.wiper.todo, None))
  }

  ghost predicate Init(s: Setup, w: World) {
    && w.bags == s.bags && w.wiper.at == None
    && (forall n :: n in w.srcs <==> IsLocal(s, n))
    && (forall n | n in w.srcs :: w.srcs[n] == Src(true, {}, false))
    && forall p | p in w.fetchers :: w.fetchers[p].pc == Next(0, map[])
  }

  ghost predicate Run(s: Setup, ws: seq<World>, acts: seq<Act>) {
    && |ws| == |acts| + 1 && Init(s, ws[0])
    && forall i | 0 <= i < |acts| :: Step(s, ws[i], acts[i], ws[i + 1])
  }

  // ----- the invariant --------------------------------------------------------------------------------------------

  /** There is at most one local source. */
  ghost predicate OneLocal(s: Setup) {
    forall m, n | IsLocal(s, m) && IsLocal(s, n) :: m == n
  }

  /** No bag a fetch can name holds anything but empty values. */
  ghost predicate NothingToLose(s: Setup) {
    forall b | b in s.bags && b != "" :: forall k | k in s.bags[b] :: s.bags[b][k] == ""
  }

  /** The same bags, but for one without a name, which no fetch can ask for. */
  predicate SameBags(a: Bags, b: Bags) {
    a.Keys == b.Keys && forall n | n in a && n != "" :: a[n] == b[n]
  }

  lemma SameFetch(a: Bags, b: Bags, id: string, key: string)
    requires SameBags(a, b)
    ensures LocalFetch(Some(a), id, key) == LocalFetch(Some(b), id, key)
  {
  }

  /** Outside the wiper's critical section a source either has all the original bags or none. */
  ghost predicate SrcOk(s: Setup, w: World, n: string)
    requires n in w.srcs
  {
    && (w.srcs[n].writing <==> w.wiper.at == Some(n))
    && (w.srcs[n].readers != {} ==> !w.srcs[n].writing)
    && (!w.srcs[n].writing && w.srcs[n].filled ==> SameBags(w.bags, s.bags))
  }

  /** The request of var i, as the local source sees it. */
  ghost predicate Asks(s: Setup, f: Fetcher, i: nat, n: string) {
    i < |f.vars| && IsBlank(f.vars[i].value) && Chars(f.vars[i].source) == n && IsLocal(s, n)
  }

  ghost predicate SoFar(s: Setup, f: Fetcher, i: nat, env: map<string, string>) {
    i <= |f.vars| && FetchVars(s.remotes, View0(s), f.vars[..i]) == Ok(env)
  }

  function Answer(s: Setup, v: Var): Result<map<string, string>, FetchError> {
    LocalFetch(Some(s.bags), Chars(v.ref), Chars(v.key))
  }

  ghost predicate FetcherOk(s: Setup, w: World, p: nat)
    requires p in w.fetchers
  {
    var f := w.fetchers[p];
    match f.pc
    case Next(i, env) => SoFar(s, f, i, env)
    case Locked(i, env, n) => SoFar(s, f, i, env) && Asks(s, f, i, n) && n in w.srcs && p in w.srcs[n].readers
    case Copying(i, env, n, got) =>
      && SoFar(s, f, i, env) && Asks(s, f, i, n) && n in w.srcs && p in w.srcs[n].readers && w.srcs[n].filled
      && Chars(f.vars[i].key) == "" && Answer(s, f.vars[i]).Ok?
      && (forall k | k in got :: k in Answer(s, f.vars[i]).value && got[k] == Answer(s, f.vars[i]).value[k])
    case Read(i, env, n, raw) =>
      && SoFar(s, f, i, env) && Asks(s, f, i, n) && n in w.srcs && p in w.srcs[n].readers
      && (raw == Answer(s, f.vars[i]) || raw == Err(BagsCleared))
    case Done(r) => r == FetchVars(s.remotes, View0(s), f.vars) || r == Err(BagsCleared)
  }

  ghost predicate Inv(s: Setup, w: World) {
    && (forall n :: n in w.srcs <==> IsLocal(s, n))
    && (forall n | n in w.srcs :: SrcOk(s, w, n))
    && (NothingToLose(s) ==> SameBags(w.bags, s.bags))
    && forall p | p in w.fetchers :: FetcherOk(s, w, p)
  }

  /** Finishing a round with the answer the original view gives goes on as FetchVars does. */
  lemma FinishAgrees(s: Setup, f: Fetcher, i: nat, env: map<string, string>,
                     raw: Result<map<string, string>, FetchError>)
    requires SoFar(s, f, i, env) && i < |f.vars| && IsBlank(f.vars[i].value) && Chars(f.vars[i].source) in s.sources
    requires var v := f.vars[i];
             raw == Fetch(s.remotes, View0(s)[Chars(v.source)], Request(Chars(v.ref), Chars(v.key), Strings(v.extra)))
             || raw == Err(BagsCleared)
    ensures match Finish(f.vars[i], i, env, raw)
            case Next(j, env') => j == i + 1 && SoFar(s, f, j, env')
            case Done(r) => r == FetchVars(s.remotes, View0(s), f.vars) || r == Err(BagsCleared)
            case _ => false
  {
    hide FetchVars;
    FetchVarsStep(s.remotes, View0(s), f.vars, i);
    if raw != Err(BagsCleared) && FetchVar(s.remotes, View0(s), f.vars[i]).Err? {
      FailurePropagates(s.remotes, View0(s), f.vars, i + 1);
    }
    assert forall m: map<string, string>, k: string, x: string :: m + map[k := x] == m[k := x];
  }

  lemma LiteralAgrees(s: Setup, f: Fetcher, i: nat, env: map<string, string>)
    requires SoFar(s, f, i, env) && i < |f.vars|
    ensures !IsBlank(f.vars[i].value) ==> SoFar(s, f, i + 1, env[Chars(f.vars[i].name) := Chars(f.vars[i].value)])
    ensures IsBlank(f.vars[i].value) && Chars(f.vars[i].source) !in s.sources ==>
      FetchVars(s.remotes, View0(s), f.vars) == Err(SourceMissing)
  {
    hide FetchVars;
    FetchVarsStep(s.remotes, View0(s), f.vars, i);
    if FetchVar(s.remotes, View0(s), f.vars[i]).Err? {
      FailurePropagates(s.remotes, View0(s), f.vars, i + 1);
    }
    assert forall m: map<string, string>, k: string, x: string :: m + map[k := x] == m[k := x];
  }

  lemma NextKeepsActor(s: Setup, w: World, p: nat, w': World)
    requires Inv(s, w) && p in w.fetchers && w.fetchers[p].pc.Next? && Advanced(s, w, p) == Some(w')
    ensures p in w'.fetchers && FetcherOk(s, w', p)
  {
    hide FetchVars, FetchVar, LocalFetch, SrcOk, SameBags, NothingToLose;
    assert FetcherOk(s, w, p);
    var f := w.fetchers[p];
    var Next(i, env) := f.pc;
    if i < |f.vars| {
      var v := f.vars[i];
      LiteralAgrees(s, f, i, env);
      if IsBlank(v.value) && Chars(v.source) in s.sources && s.sources[Chars(v.source)].RemoteSource? {
        FinishAgrees(s, f, i, env, s.remotes(s.sources[Chars(v.source)].src,
                                             Request(Chars(v.ref), Chars(v.key), Strings(v.extra))));
      }
    } else {
      assert f.vars[..i] == f.vars;
    }
  }

  lemma LockedKeepsActor(s: Setup, w: World, p: nat, w': World)
    requires Inv(s, w) && p in w.fetchers && w.fetchers[p].pc.Locked? && Advanced(s, w, p) == Some(w')
    ensures p in w'.fetchers && FetcherOk(s, w', p)
  {
    hide FetchVars, LocalFetch, SameBags, NothingToLose;
    assert FetcherOk(s, w, p);
    var f := w.fetchers[p];
    var Locked(i, env, n) := f.pc;
    assert SrcOk(s, w, n);
    ClearedFails(Chars(f.vars[i].ref), Chars(f.vars[i].key));
    if w.srcs[n].filled {
      SameFetch(w.bags, s.bags, Chars(f.vars[i].ref), Chars(f.vars[i].key));
    }
  }

  lemma ReadKeepsActor(s: Setup, w: World, p: nat, w': World)
    requires Inv(s, w) && p in w.fetchers && w.fetchers[p].pc.Read? && Advanced(s, w, p) == Some(w')
    ensures p in w'.fetchers && FetcherOk(s, w', p)
  {
    hide FetchVars, FetchVar, LocalFetch, SrcOk, SameBags, NothingToLose;
    assert FetcherOk(s, w, p);
    var f := w.fetchers[p];
    FinishAgrees(s, f, f.pc.i, f.pc.env, f.pc.raw);
  }

  lemma AdvanceKeepsActor(s: Setup, w: World, p: nat, w': World)
    requires Inv(s, w) && p in w.fetchers && Advanced(s, w, p) == Some(w')
    ensures p in w'.fetchers && FetcherOk(s, w', p)
  {
    hide Inv, FetcherOk;
    match w.fetchers[p].pc
    case Next(_, _) => NextKeepsActor(s, w, p, w');
    case Locked(_, _, _) => LockedKeepsActor(s, w, p, w');
    case Read(_, _, _, _) => ReadKeepsActor(s, w, p, w');
    case _ =>
  }

  lemma ClearedFails(id: string, key: string)
    ensures LocalFetch(None, id, key) == Err(BagsCleared)
  {
  }

  /** A step of fetch p changes nothing but p's own place and whether p reads some source. */
  ghost predicate OnlyFetcher(w: World, p: nat, w': World) {
    && w'.bags == w.bags && w'.wiper == w.wiper && w'.srcs.Keys == w.srcs.Keys && w'.fetchers.Keys == w.fetchers.Keys
    && (forall q | q in w.fetchers && q != p :: w'.fetchers[q] == w.fetchers[q])
    && forall n | n in w.srcs ::
      && w'.srcs[n].filled == w.srcs[n].filled && w'.srcs[n].writing == w.srcs[n].writing
      && (forall q | q != p :: q in w'.srcs[n].readers <==> q in w.srcs[n].readers)
      && (p in w'.srcs[n].readers && p !in w.srcs[n].readers ==> !w.srcs[n].writing)
  }

  lemma MovingOnIsOnlyFetcher(w: World, p: nat, pc: Pc)
    requires p in w.fetchers
    ensures OnlyFetcher(w, p, SetPc(w, p, pc))
  {
  }

  lemma LockingIsOnlyFetcher(w: World, p: nat, pc: Pc, n: string)
    requires p in w.fetchers && n in w.srcs && !w.srcs[n].writing
    ensures OnlyFetcher(w, p, SetSrc(SetPc(w, p, pc), n, w.srcs[n].(readers := w.srcs[n].readers + {p})))
  {
  }

  lemma UnlockingIsOnlyFetcher(w: World, p: nat, pc: Pc, n: string)
    requires p in w.fetchers && n in w.srcs
    ensures OnlyFetcher(w, p, SetSrc(SetPc(w, p, pc), n, w.srcs[n].(readers := w.srcs[n].readers - {p})))
  {
  }

  lemma AdvanceIsOnlyFetcher(s: Setup, w: World, p: nat, w': World)
    requires p in w.fetchers && Advanced(s, w, p) == Some(w')
    ensures OnlyFetcher(w, p, w')
  {
    hide LocalFetch, Finish, OnlyFetcher, SetPc, SetSrc;
    forall pc ensures OnlyFetcher(w, p, SetPc(w, p, pc)) {
      MovingOnIsOnlyFetcher(w, p, pc);
    }
    match w.fetchers[p].pc
    case Next(i, env) =>
      var v := w.fetchers[p].vars;
      if i < |v| && Chars(v[i].source) in w.srcs && !w.srcs[Chars(v[i].source)].writing {
        LockingIsOnlyFetcher(w, p, Locked(i, env, Chars(v[i].source)), Chars(v[i].source));
      }
    case Read(i, env, n, raw) => UnlockingIsOnlyFetcher(w, p, Finish(w.fetchers[p].vars[i], i, env, raw), n);
    case _ =>
  }

  lemma OnlyFetcherKeepsInv(s: Setup, w: World, p: nat, w': World)
    requires Inv(s, w) && OnlyFetcher(w, p, w') && p in w'.fetchers && FetcherOk(s, w', p)
    ensures Inv(s, w')
  {
    hide SoFar, Asks, Answer;
    forall q | q in w'.fetchers ensures FetcherOk(s, w', q) {
      assert q in w.fetchers && FetcherOk(s, w, q);
    }
    forall n | n in w'.srcs ensures SrcOk(s, w', n) {
      assert SrcOk(s, w, n);
      assert w'.srcs[n].readers != {} ==> exists q :: q in w'.srcs[n].readers;
    }
  }

  lemma AdvanceKeepsInv(s: Setup, w: World, p: nat, w': World)
    requires Inv(s, w) && p in w.fetchers && Advanced(s, w, p) == Some(w')
    ensures Inv(s, w')
  {
    hide Inv, FetcherOk, OnlyFetcher, Advanced;
    AdvanceKeepsActor(s, w, p, w');
    AdvanceIsOnlyFetcher(s, w, p, w');
    OnlyFetcherKeepsInv(s, w, p, w');
  }

  lemma CopyKeepsActor(s: Setup, w: World, a: Act, w': World)
    requires Inv(s, w) && Step(s, w, a, w') && (a.CopyOne? || a.CopyDone?)
    ensures a.p in w'.fetchers && FetcherOk(s, w', a.p)
  {
    hide FetchVars, NothingToLose;
    assert FetcherOk(s, w, a.p) && SrcOk(s, w, w.fetchers[a.p].pc.s);
    var pc := w.fetchers[a.p].pc;
    var bag := Answer(s, w.fetchers[a.p].vars[pc.i]).value;
    assert bag == w.bags[Chars(w.fetchers[a.p].vars[pc.i].ref)];
    if a.CopyDone? {
      assert pc.got == bag;
    }
  }

  lemma CopyKeepsInv(s: Setup, w: World, a: Act, w': World)
    requires Inv(s, w) && Step(s, w, a, w') && (a.CopyOne? || a.CopyDone?)
    ensures Inv(s, w')
  {
    hide FetcherOk, Inv;
    CopyKeepsActor(s, w, a, w');
    OnlyFetcherKeepsInv(s, w, a.p, w');
  }

  lemma BlankKeepsNothing(s: Setup, w: World, b: string, k: string, w': World)
    requires NothingToLose(s) && SameBags(w.bags, s.bags) && Step(s, w, BlankOne(b, k), w')
    ensures SameBags(w'.bags, s.bags)
  {
    if b != "" {
      assert w.bags[b][k := ""] == w.bags[b];
    }
  }

  predicate IsWipe(a: Act) {
    a.LockForWipe? || a.BlankOne? || a.Drop? || a.Unlock?
  }

  lemma WipeKeepsFetcher(s: Setup, w: World, a: Act, w': World, q: nat)
    requires Inv(s, w) && Step(s, w, a, w') && IsWipe(a) && q in w'.fetchers
    ensures FetcherOk(s, w', q)
  {
    hide SoFar, Asks, Answer, AllOrNothing, SameBags, NothingToLose, FetchVars;
    assert q in w.fetchers && FetcherOk(s, w, q);
    var n := if a.LockForWipe? then a.s else w.wiper.at.value;
    assert SrcOk(s, w, n);
  }

  lemma WipeKeepsSrc(s: Setup, w: World, a: Act, w': World, m: string)
    requires (OneLocal(s) || NothingToLose(s)) && Inv(s, w) && Step(s, w, a, w') && IsWipe(a) && m in w'.srcs
    ensures SrcOk(s, w', m)
  {
    hide FetcherOk;
    var n := if a.LockForWipe? then a.s else w.wiper.at.value;
    if NothingToLose(s) && a.BlankOne? {
      BlankKeepsNothing(s, w, a.b, a.k, w');
    }
    hide SameBags, NothingToLose;
    assert SrcOk(s, w, n) && SrcOk(s, w, m);
  }

  lemma WipeKeepsInv(s: Setup, w: World, a: Act, w': World)
    requires (OneLocal(s) || NothingToLose(s)) && Inv(s, w) && Step(s, w, a, w') && IsWipe(a)
    ensures Inv(s, w')
  {
    if NothingToLose(s) && a.BlankOne? {
      BlankKeepsNothing(s, w, a.b, a.k, w');
    }
    forall q | q in w'.fetchers ensures FetcherOk(s, w', q) {
      WipeKeepsFetcher(s, w, a, w', q);
    }
    forall m | m in w'.srcs ensures SrcOk(s, w', m) {
      WipeKeepsSrc(s, w, a, w', m);
    }
    hide FetcherOk, SrcOk, SameBags, NothingToLose, OneLocal;
    assert forall n :: n in w'.srcs <==> n in w.srcs;
  }

  lemma StepKeepsInv(s: Setup, w: World, a: Act, w': World)
    requires (OneLocal(s) || NothingToLose(s)) && Inv(s, w) && Step(s, w, a, w')
    ensures Inv(s, w')
  {
    hide Inv, OneLocal, NothingToLose;
    match a
    case Advance(p) => AdvanceKeepsInv(s, w, p, w');
    case CopyOne(_, _) | CopyDone(_) => CopyKeepsInv(s, w, a, w');
    case LockForWipe(_) | BlankOne(_, _) | Drop | Unlock => WipeKeepsInv(s, w, a, w');
  }

  lemma {:induction false} RunKeepsInv(s: Setup, ws: seq<World>, acts: seq<Act>, i: nat)
    requires Run(s, ws, acts) && (OneLocal(s) || NothingToLose(s)) && i < |ws|
    ensures Inv(s, ws[i])
  {
    hide Step;
    if i > 0 {
      RunKeepsInv(s, ws, acts, i - 1);
      hide Inv;
      StepKeepsInv(s, ws[i - 1], acts[i - 1], ws[i]);
    }
  }

  // ----- the theorem ----------------------------------------------------------------------------------------------

  /** A fetch gave what the resolver held before any wipe, or failed as it would have then, or because of the wipe. */
  ghost predicate AllOrNothing(s: Setup, vars: seq<Var>, r: Result<map<string, string>, FetchError>) {
    r == FetchVars(s.remotes, View0(s), vars) || r == Err(BagsCleared)
  }

  /** With one local source every fetch that ends, before, during or after a wipe, is all or nothing. */
  lemma FetchIsAllOrNothing(s: Setup, ws: seq<World>, acts: seq<Act>, i: nat, p: nat)
    requires Run(s, ws, acts) && (OneLocal(s) || NothingToLose(s))
    requires i < |ws| && p in ws[i].fetchers && ws[i].fetchers[p].pc.Done?
    ensures AllOrNothing(s, ws[i].fetchers[p].vars, ws[i].fetchers[p].pc.r)
  {
    RunKeepsInv(s, ws, acts, i);
    assert FetcherOk(s, ws[i], p);
  }

  ghost predicate EndsAllOrNothing(s: Setup, w: World) {
    forall p | p in w.fetchers && w.fetchers[p].pc.Done? :: AllOrNothing(s, w.fetchers[p].vars, w.fetchers[p].pc.r)
  }

  /** Every fetch of every run is all or nothing. */
  ghost predicate AlwaysAllOrNothing(s: Setup) {
    forall ws: seq<World>, acts: seq<Act> | Run(s, ws, acts) :: forall w | w in ws :: EndsAllOrNothing(s, w)
  }

  /** The condition is exact: with two local sources and any value to lose, the wipe of the first source empties the
      bags the second still hands out, and some fetch succeeds with an emptied value. */
  lemma AllOrNothingExactly(s: Setup)
    ensures AlwaysAllOrNothing(s) <==> OneLocal(s) || NothingToLose(s)
  {
    if OneLocal(s) || NothingToLose(s) {
      forall ws: seq<World>, acts: seq<Act> | Run(s, ws, acts) ensures forall w | w in ws :: EndsAllOrNothing(s, w) {
        forall i, p | 0 <= i < |ws| && p in ws[i].fetchers && ws[i].fetchers[p].pc.Done?
          ensures AllOrNothing(s, ws[i].fetchers[p].vars, ws[i].fetchers[p].pc.r)
        {
          FetchIsAllOrNothing(s, ws, acts, i, p);
        }
      }
    } else {
      var m, n :| IsLocal(s, m) && IsLocal(s, n) && m != n;
      var b :| b in s.bags && b != "" && exists k :: k in s.bags[b] && s.bags[b][k] != "";
      var k :| k in s.bags[b] && s.bags[b][k] != "";
      hide Run, IsLocal, FetchVars;
      var ws, acts := SecondSourceOfWiped(s, m, n, b, k);
      RunLength(s, ws, acts);
      assert ws[|acts|] in ws && !EndsAllOrNothing(s, ws[|acts|]);
    }
  }

  lemma RunLength(s: Setup, ws: seq<World>, acts: seq<Act>)
    requires Run(s, ws, acts)
    ensures |ws| == |acts| + 1
  {
  }

  lemma Extended(s: Setup, ws: seq<World>, acts: seq<Act>, a: Act, w: World)
    requires Run(s, ws, acts) && Step(s, ws[|acts|], a, w)
    ensures Run(s, ws + [w], acts + [a])
  {
    hide Step, Init;
    var ws', acts' := ws + [w], acts + [a];
    forall i | 0 <= i < |acts'| ensures Step(s, ws'[i], acts'[i], ws'[i + 1]) {
      if i < |acts| {
        assert Step(s, ws[i], acts[i], ws[i + 1]);
      }
    }
  }

  /** A var that asks the local source n for the whole bag b. */
  function WholeBag(n: string, b: string): Var {
    Var(Text(""), Text(n), Text(b), Text(""), Text(""), map[])
  }

  lemma WholeBagFetches(s: Setup, n: string, b: string)
    requires IsLocal(s, n) && b in s.bags && b != ""
    ensures FetchVars(s.remotes, View0(s), [WholeBag(n, b)]) == Ok(s.bags[b])
  {
    var v := WholeBag(n, b);
    assert [v][..0] == [];
    assert FetchVars(s.remotes, View0(s), [v][..0]) == Ok(map[]);
    assert FetchVar(s.remotes, View0(s), v) == Ok(s.bags[b]);
    assert map[] + s.bags[b] == s.bags[b];
  }

  /** The wiper holds the lock of m and has emptied one value; nobody else has moved. */
  lemma WipeBegins(s: Setup, m: string, n: string, b: string, k: string) returns (ws: seq<World>, acts: seq<Act>)
    requires IsLocal(s, m) && IsLocal(s, n) && m != n && b in s.bags && k in s.bags[b]
    ensures Run(s, ws, acts)
    ensures var w := ws[|acts|];
            && w.bags == s.bags[b := s.bags[b][k := ""]] && n in w.srcs && w.srcs[n] == Src(true, {}, false)
            && w.fetchers == map[0 := Fetcher([WholeBag(n, b)], Next(0, map[]))]
  {
    var srcs := map x | x in s.sources && s.sources[x].LocalSource? :: Src(true, {}, false);
    var w0 := World(s.bags, srcs, map[0 := Fetcher([WholeBag(n, b)], Next(0, map[]))], Wiper({m}, None));
    var w1 := SetSrc(w0, m, Src(true, {}, true)).(wiper := Wiper({m} - {m}, Some(m)));
    var w2 := w1.(bags := s.bags[b := s.bags[b][k := ""]]);
    assert Init(s, w0) && Run(s, [w0], []);
    assert Step(s, w0, LockForWipe(m), w1) && Step(s, w1, BlankOne(b, k), w2);
    hide Run, Step;
    Extended(s, [w0], [], LockForWipe(m), w1);
    Extended(s, [w0] + [w1], [] + [LockForWipe(m)], BlankOne(b, k), w2);
    ws, acts := [w0] + [w1] + [w2], [] + [LockForWipe(m)] + [BlankOne(b, k)];
  }

  /** The fetch of a whole bag copies what the bag holds now, entry by entry. */
  lemma {:induction false} CopyAll(s: Setup, ws: seq<World>, acts: seq<Act>, n: string, b: string, todo: set<string>)
    returns (ws': seq<World>, acts': seq<Act>)
    requires Run(s, ws, acts)
    requires var w := ws[|acts|];
             && 0 in w.fetchers && w.fetchers[0].vars == [WholeBag(n, b)] && b in w.bags
             && w.fetchers[0].pc.Copying? && w.fetchers[0].pc.i == 0
             && (forall x | x in w.fetchers[0].pc.got :: x in w.bags[b] && w.fetchers[0].pc.got[x] == w.bags[b][x])
             && todo == w.bags[b].Keys - w.fetchers[0].pc.got.Keys
    ensures Run(s, ws', acts')
    ensures var w := ws[|acts|]; ws'[|acts'|] == SetPc(w, 0, w.fetchers[0].pc.(got := w.bags[b]))
    decreases todo
  {
    RunLength(s, ws, acts);
    hide Run;
    var w := ws[|acts|];
    var pc := w.fetchers[0].pc;
    if todo == {} {
      assert forall x | x in w.bags[b] && x !in pc.got :: x in todo;
      assert pc.got == w.bags[b];
      assert w.fetchers[0 := w.fetchers[0]] == w.fetchers;
      ws', acts' := ws, acts;
    } else {
      var x :| x in todo;
      var w1 := SetPc(w, 0, pc.(got := pc.got[x := w.bags[b][x]]));
      assert Step(s, w, CopyOne(0, x), w1);
      hide Step;
      Extended(s, ws, acts, CopyOne(0, x), w1);
      ws', acts' := CopyAll(s, ws + [w1], acts + [CopyOne(0, x)], n, b, todo - {x});
      assert w1.fetchers[0 := Fetcher(w.fetchers[0].vars, pc.(got := w.bags[b]))]
          == w.fetchers[0 := Fetcher(w.fetchers[0].vars, pc.(got := w.bags[b]))];
    }
  }

  /** From the start of the copy to the end of the fetch. */
  lemma FetchEnds(s: Setup, ws: seq<World>, acts: seq<Act>, n: string, b: string)
    returns (ws': seq<World>, acts': seq<Act>)
    requires Run(s, ws, acts) && IsLocal(s, n)
    requires var w := ws[|acts|];
             && 0 in w.fetchers && w.fetchers[0] == Fetcher([WholeBag(n, b)], Copying(0, map[], n, map[]))
             && b in w.bags && n in w.srcs
    ensures Run(s, ws', acts')
    ensures var w := ws'[|acts'|];
            0 in w.fetchers && w.fetchers[0] == Fetcher([WholeBag(n, b)], Done(Ok(ws[|acts|].bags[b])))
  {
    var w := ws[|acts|];
    var bag := w.bags[b];
    ws', acts' := CopyAll(s, ws, acts, n, b, bag.Keys);
    RunLength(s, ws', acts');
    hide Run;
    var w1 := ws'[|acts'|];
    var w2 := SetPc(w1, 0, Read(0, map[], n, Ok(bag)));
    var w3 := SetSrc(SetPc(w2, 0, Next(1, map[] + bag)), n, w2.srcs[n].(readers := w2.srcs[n].readers - {0}));
    var w4 := SetPc(w3, 0, Done(Ok(map[] + bag)));
    assert Step(s, w1, CopyDone(0), w2) && Step(s, w2, Advance(0), w3) && Step(s, w3, Advance(0), w4);
    assert map[] + bag == bag;
    hide Step;
    Extended(s, ws', acts', CopyDone(0), w2);
    Extended(s, ws' + [w2], acts' + [CopyDone(0)], Advance(0), w3);
    Extended(s, ws' + [w2] + [w3], acts' + [CopyDone(0)] + [Advance(0)], Advance(0), w4);
    ws', acts' := ws' + [w2] + [w3] + [w4], acts' + [CopyDone(0)] + [Advance(0)] + [Advance(0)];
  }

  /** A run in which n, not yet wiped itself, hands out a value the wipe of m has emptied. */
  lemma SecondSourceOfWiped(s: Setup, m: string, n: string, b: string, k: string)
    returns (ws: seq<World>, acts: seq<Act>)
    requires IsLocal(s, m) && IsLocal(s, n) && m != n && b in s.bags && b != "" && k in s.bags[b] && s.bags[b][k] != ""
    ensures Run(s, ws, acts)
    ensures var last := ws[|acts|];
            && 0 in last.fetchers && last.fetchers[0].pc.Done?
            && !AllOrNothing(s, last.fetchers[0].vars, last.fetchers[0].pc.r)
  {
    WholeBagFetches(s, n, b);
    ws, acts := WipeBegins(s, m, n, b, k);
    RunLength(s, ws, acts);
    hide Run, FetchVars;
    var w := ws[|acts|];
    var w1 := SetSrc(SetPc(w, 0, Locked(0, map[], n)), n, Src(true, {} + {0}, false));
    var w2 := SetPc(w1, 0, Copying(0, map[], n, map[]));
    assert Step(s, w, Advance(0), w1) && Step(s, w1, Advance(0), w2);
    hide Step;
    Extended(s, ws, acts, Advance(0), w1);
    Extended(s, ws + [w1], acts + [Advance(0)], Advance(0), w2);
    ws, acts := FetchEnds(s, ws + [w1] + [w2], acts + [Advance(0)] + [Advance(0)], n, b);
    assert s.bags[b][k := ""] != s.bags[b];
  }
}
