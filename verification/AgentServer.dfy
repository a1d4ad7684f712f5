/** The agent's accept loop, its handlers, reloads and shutdown, in every interleaving
    (internal/agent/server.go:149-248, 297-399). Resolvers are identified by number; a reload returns a new one. */
module AgentServer {
  import opened Wrappers

  const MAX_CONNECTIONS := 64

  /** A handler: before its request, serving with the resolver it captured, having built a new resolver, and having
      swapped it in, with the outgoing one still to wipe. */
  datatype Handler = Dispatching | Serving(r: Option<nat>) | Built(next: nat) | Swapped(outgoing: Option<nat>)

  /** The loop accepts, also for a moment after the context was cancelled; it has ended; the handlers were waited for,
      or the wait timed out; the final wipe is done. */
  datatype Phase = Accepting | Cancelled | Ended | Drained | TimedOut | Stopped

  /** The last two fields record what happened: every resolver ever installed, and every wipe. */
  datatype Agent = Agent(
    phase: Phase, resolver: Option<nat>, handlers: map<nat, Handler>,
    installed: set<nat>, wiped: multiset<nat>)

  datatype Act =
    | Accept(h: nat) | Capture(h: nat) | Build(h: nat, next: nat) | Swap(h: nat) | WipeOld(h: nat) | End(h: nat)
    | Cancel | LoopEnds | WaitDone | WaitTimeout | WipeAndClear

  function WipeOf(r: Option<nat>): multiset<nat> {
    if r.None? then multiset{} else multiset{r.value}
  }

  /** No resolver number is used twice: a reload builds a new object. */
  ghost predicate IsNew(a: Agent, r: nat) {
    r !in a.installed && forall h | h in a.handlers :: a.handlers[h] != Built(r)
  }

  ghost predicate Step(a: Agent, act: Act, a': Agent) {
    match act
    case Accept(h) =>
      && (a.phase.Accepting? || a.phase.Cancelled?) && h !in a.handlers
      && a' == if |a.handlers| < MAX_CONNECTIONS then a.(handlers := a.handlers[h := Dispatching]) else a
    case Capture(h) =>
      h in a.handlers && a.handlers[h].Dispatching? && a' == a.(handlers := a.handlers[h := Serving(a.resolver)])
    case Build(h, next) =>
      && h in a.handlers && a.handlers[h].Dispatching? && IsNew(a, next)
      && a' == a.(handlers := a.handlers[h := Built(next)])
    case Swap(h) =>
      && h in a.handlers && a.handlers[h].Built?
      && a' == a.(resolver := Some(a.handlers[h].next), installed := a.installed + {a.handlers[h].next},
                  handlers := a.handlers[h := Swapped(a.resolver)])
    case WipeOld(h) =>
      && h in a.handlers && a.handlers[h].Swapped? && a.handlers[h].outgoing.Some?
      && a' == a.(wiped := a.wiped + WipeOf(a.handlers[h].outgoing), handlers := a.handlers[h := Swapped(None)])
    case End(h) =>
      && h in a.handlers
      && (a.handlers[h].Dispatching? || a.handlers[h].Serving? || a.handlers[h] == Swapped(None))
      && a' == a.(handlers := a.handlers - {h})
    case Cancel => a.phase.Accepting? && a' == a.(phase := Cancelled)
    case LoopEnds => (a.phase.Accepting? || a.phase.Cancelled?) && a' == a.(phase := Ended)
    case WaitDone => a.phase.Ended? && a.handlers == map[] && a' == a.(phase := Drained)
    case WaitTimeout => a.phase.Ended? && a' == a.(phase := TimedOut)
    case WipeAndClear =>
      && (a.phase.Drained? || a.phase.TimedOut?)
      && a' == a.(phase := Stopped, wiped := a.wiped + WipeOf(a.resolver), resolver := None)
  }

  ghost predicate Init(a: Agent) {
    && a.phase.Accepting? && a.handlers == map[] && a.resolver.Some?
    && a.installed == {a.resolver.value} && a.wiped == multiset{}
  }

  ghost predicate Run(states: seq<Agent>, acts: seq<Act>) {
    && |states| == |acts| + 1 && Init(states[0])
    && forall i | 0 <= i < |acts| :: Step(states[i], acts[i], states[i + 1])
  }

  // ----- the invariant --------------------------------------------------------------------------------------------

  predicate Awaits(a: Agent, h: nat, r: nat) {
    h in a.handlers && a.handlers[h] == Swapped(Some(r))
  }

  /** An installed resolver is in exactly one place: installed, about to be wiped by one handler, or wiped once. */
  ghost predicate Accounted(a: Agent, r: nat) {
    && a.wiped[r] <= 1
    && (a.resolver == Some(r) ==> r in a.installed && a.wiped[r] == 0 && forall h :: !Awaits(a, h, r))
    && (forall h | Awaits(a, h, r) :: r in a.installed && a.wiped[r] == 0)
    && (forall g, h | Awaits(a, g, r) && Awaits(a, h, r) :: g == h)
    && (r in a.installed && a.wiped[r] == 0 ==> a.resolver == Some(r) || exists h :: Awaits(a, h, r))
    && (r !in a.installed ==> a.wiped[r] == 0)
  }

  ghost predicate Builds(a: Agent) {
    && (forall h | h in a.handlers && a.handlers[h].Built? :: a.handlers[h].next !in a.installed)
    && forall g, h | g in a.handlers && h in a.handlers && g != h && a.handlers[g].Built? && a.handlers[h].Built? ::
      a.handlers[g].next != a.handlers[h].next
  }

  ghost predicate Inv(a: Agent) {
    && (forall r :: Accounted(a, r)) && Builds(a) && |a.handlers| <= MAX_CONNECTIONS
    && (a.phase.Drained? ==> a.handlers == map[])
  }

  lemma AccountsStay(a: Agent, a': Agent, r: nat)
    requires Accounted(a, r) && a'.resolver == a.resolver && a'.installed == a.installed && a'.wiped == a.wiped
    requires forall h :: Awaits(a', h, r) <==> Awaits(a, h, r)
    ensures Accounted(a', r)
  {
    if h :| Awaits(a, h, r) {
      assert Awaits(a', h, r);
    }
  }

  lemma SwapAccounts(a: Agent, h: nat, a': Agent, r: nat)
    requires Accounted(a, r) && Builds(a) && Step(a, Swap(h), a')
    ensures Accounted(a', r)
  {
    assert forall g | g != h :: Awaits(a', g, r) <==> Awaits(a, g, r);
    assert Awaits(a', h, r) <==> a.resolver == Some(r);
    assert !Awaits(a, h, r);
    if g :| Awaits(a, g, r) {
      assert Awaits(a', g, r);
    }
  }

  lemma WipeAccounts(a: Agent, h: nat, a': Agent, r: nat)
    requires Accounted(a, r) && Step(a, WipeOld(h), a')
    ensures Accounted(a', r)
  {
    assert forall g | g != h :: Awaits(a', g, r) <==> Awaits(a, g, r);
    assert !Awaits(a', h, r);
    assert Awaits(a, h, r) <==> a.handlers[h].outgoing == Some(r);
    if g :| Awaits(a, g, r) && g != h {
      assert Awaits(a', g, r);
    }
  }

  lemma ClearAccounts(a: Agent, a': Agent, r: nat)
    requires Accounted(a, r) && Step(a, WipeAndClear, a')
    ensures Accounted(a', r)
  {
    assert forall g :: Awaits(a', g, r) <==> Awaits(a, g, r);
    if g :| Awaits(a, g, r) {
      assert Awaits(a', g, r);
    }
  }

  lemma StepAccounts(a: Agent, act: Act, a': Agent, r: nat)
    requires Accounted(a, r) && Builds(a) && Step(a, act, a')
    ensures Accounted(a', r)
  {
    hide Accounted, Builds;
    match act
    case Swap(h) => SwapAccounts(a, h, a', r);
    case WipeOld(h) => WipeAccounts(a, h, a', r);
    case WipeAndClear => ClearAccounts(a, a', r);
    case _ => AccountsStay(a, a', r);
  }

  lemma BuildsHold(a: Agent, act: Act, a': Agent)
    requires Builds(a) && Step(a, act, a')
    ensures Builds(a')
  {
  }

  lemma StepKeepsInv(a: Agent, act: Act, a': Agent)
    requires Inv(a) && Step(a, act, a')
    ensures Inv(a')
  {
    forall r ensures Accounted(a', r) {
      StepAccounts(a, act, a', r);
    }
    CapHolds(a, act, a');
    BuildsHold(a, act, a');
    hide Accounted, Builds;
    assert a'.phase.Drained? ==> a'.handlers == map[];
  }

  /** A connection gets a handler exactly while fewer than 64 are in flight; the next one is dropped. */
  lemma AcceptedExactlyBelowCap(a: Agent, h: nat, a': Agent)
    requires Step(a, Accept(h), a')
    ensures h in a'.handlers <==> |a.handlers| < 64
    ensures a'.handlers.Keys <= a.handlers.Keys + {h}
  {
  }

  lemma CapHolds(a: Agent, act: Act, a': Agent)
    requires |a.handlers| <= MAX_CONNECTIONS && Step(a, act, a')
    ensures |a'.handlers| <= MAX_CONNECTIONS
  {
    if act.End? {
      assert a'.handlers.Keys == a.handlers.Keys - {act.h};
    } else if !act.Accept? {
      assert a'.handlers.Keys == a.handlers.Keys;
    } else {
      assert a'.handlers.Keys == a.handlers.Keys || a'.handlers.Keys == a.handlers.Keys + {act.h};
    }
    assert |a.handlers| == |a.handlers.Keys| && |a'.handlers| == |a'.handlers.Keys|;
  }

  lemma {:induction false} RunKeepsInv(states: seq<Agent>, acts: seq<Act>, i: nat)
    requires Run(states, acts) && i < |states|
    ensures Inv(states[i])
  {
    hide Step;
    if i > 0 {
      RunKeepsInv(states, acts, i - 1);
      hide Inv;
      StepKeepsInv(states[i - 1], acts[i - 1], states[i]);
    }
  }

  // ----- the theorems ---------------------------------------------------------------------------------------------

  /** In flight there are never more handlers than the cap, and a resolver is never wiped while it is installed, nor
      ever twice. */
  lemma NoneWipedWhileInstalled(states: seq<Agent>, acts: seq<Act>, i: nat, r: nat)
    requires Run(states, acts) && i < |states|
    ensures |states[i].handlers| <= 64
    ensures states[i].resolver == Some(r) ==> states[i].wiped[r] == 0
    ensures states[i].wiped[r] <= 1
  {
    hide Step;
    RunKeepsInv(states, acts, i);
    assert Accounted(states[i], r);
  }

  /** After a shutdown that drained its handlers, every resolver ever installed has been wiped exactly once and nothing
      else was. */
  lemma {:induction false} EachWipedExactlyOnce(states: seq<Agent>, acts: seq<Act>, i: nat, r: nat)
    requires Run(states, acts) && i < |states| && states[i].phase.Stopped?
    requires forall j | 0 <= j < |acts| :: !acts[j].WaitTimeout?
    ensures states[i].wiped[r] == if r in states[i].installed then 1 else 0
    ensures states[i].resolver == None && states[i].handlers == map[]
  {
    StoppedIsQuiet(states, acts, i);
    RunKeepsInv(states, acts, i);
    assert Accounted(states[i], r);
    assert forall h :: !Awaits(states[i], h, r);
  }

  /** After the drain nothing moves but the final wipe. */
  ghost predicate Quiet(a: Agent) {
    && !a.phase.TimedOut?
    && (a.phase.Drained? || a.phase.Stopped? ==> a.handlers == map[])
    && (a.phase.Stopped? ==> a.resolver == None)
  }

  lemma {:induction false} StoppedIsQuiet(states: seq<Agent>, acts: seq<Act>, i: nat)
    requires Run(states, acts) && i < |states| && forall j | 0 <= j < |acts| :: !acts[j].WaitTimeout?
    ensures Quiet(states[i])
  {
    if i > 0 {
      StoppedIsQuiet(states, acts, i - 1);
      assert Step(states[i - 1], acts[i - 1], states[i]);
    }
  }

  /** Some reload swapped its resolver in after the final wipe. */
  ghost predicate LateSwap(acts: seq<Act>, i: nat)
    requires i <= |acts|
  {
    exists j, k | 0 <= j < k < i :: acts[j].WipeAndClear? && acts[k].Swap?
  }

  lemma {:induction false} ResolverAfterStop(states: seq<Agent>, acts: seq<Act>, i: nat)
    requires Run(states, acts) && i < |states|
    ensures states[i].phase.Stopped? <==> exists j | 0 <= j < i :: acts[j].WipeAndClear?
    ensures states[i].phase.Stopped? ==> (states[i].resolver.Some? <==> LateSwap(acts, i))
  {
    if i > 0 {
      ResolverAfterStop(states, acts, i - 1);
      assert Step(states[i - 1], acts[i - 1], states[i]);
      assert LateSwap(acts, i) <==>
        LateSwap(acts, i - 1) || (acts[i - 1].Swap? && exists j | 0 <= j < i - 1 :: acts[j].WipeAndClear?);
    }
  }

  /** Without the drain the condition is exact: once all handlers have ended, every resolver ever installed was wiped if
      and only if no reload swapped one in after the final wipe. */
  lemma AllWipedUnlessLateSwap(states: seq<Agent>, acts: seq<Act>, i: nat)
    requires Run(states, acts) && i < |states| && states[i].phase.Stopped? && states[i].handlers == map[]
    ensures (forall r | r in states[i].installed :: states[i].wiped[r] == 1) <==> !LateSwap(acts, i)
  {
    hide Step, LateSwap;
    ResolverAfterStop(states, acts, i);
    RunKeepsInv(states, acts, i);
    var a := states[i];
    forall r | r in a.installed ensures a.wiped[r] == if a.resolver == Some(r) then 0 else 1 {
      assert Accounted(a, r);
      assert forall h :: !Awaits(a, h, r);
    }
    if a.resolver.Some? {
      assert Accounted(a, a.resolver.value);
    }
  }

  /** And that can happen: a reload that outlasts the wait installs a resolver after the final wipe. */
  lemma TimedOutReloadIsNeverWiped() returns (states: seq<Agent>, acts: seq<Act>)
    ensures Run(states, acts)
    ensures var last := states[|acts|];
            && last.phase.Stopped? && last.handlers == map[]
            && last.resolver == Some(1) && 1 in last.installed && last.wiped[1] == 0
  {
    var a0, a1, a2, a3 := ReloadStarts();
    var a4, a5, a6, a7 := ReloadOutlasts(a3);
    states, acts := RunOfSeven(a0, a1, a2, a3, a4, a5, a6, a7);
  }

  lemma ReloadStarts() returns (a0: Agent, a1: Agent, a2: Agent, a3: Agent)
    ensures Init(a0) && Step(a0, Accept(7), a1) && Step(a1, Build(7, 1), a2) && Step(a2, LoopEnds, a3)
    ensures a3 == Agent(Ended, Some(0), map[7 := Built(1)], {0}, multiset{})
  {
    a0 := Agent(Accepting, Some(0), map[], {0}, multiset{});
    a1 := a0.(handlers := map[7 := Dispatching]);
    a2 := a1.(handlers := map[7 := Built(1)]);
    a3 := a2.(phase := Ended);
  }

  lemma ReloadOutlasts(a3: Agent) returns (a4: Agent, a5: Agent, a6: Agent, a7: Agent)
    requires a3 == Agent(Ended, Some(0), map[7 := Built(1)], {0}, multiset{})
    ensures Step(a3, WaitTimeout, a4) && Step(a4, WipeAndClear, a5) && Step(a5, Swap(7), a6) && Step(a6, End(7), a7)
    ensures a7 == Agent(Stopped, Some(1), map[], {0, 1}, multiset{0})
  {
    a4 := a3.(phase := TimedOut);
    a5 := a4.(phase := Stopped, wiped := multiset{0}, resolver := None);
    a6 := Agent(Stopped, Some(1), map[7 := Swapped(None)], {0, 1}, multiset{0});
    a7 := a6.(handlers := map[]);
    assert a6.handlers - {7} == map[];
  }

  lemma RunOfSeven(a0: Agent, a1: Agent, a2: Agent, a3: Agent, a4: Agent, a5: Agent, a6: Agent, a7: Agent)
    returns (states: seq<Agent>, acts: seq<Act>)
    requires Init(a0) && Step(a0, Accept(7), a1) && Step(a1, Build(7, 1), a2) && Step(a2, LoopEnds, a3)
    requires Step(a3, WaitTimeout, a4) && Step(a4, WipeAndClear, a5) && Step(a5, Swap(7), a6) && Step(a6, End(7), a7)
    ensures Run(states, acts) && |acts| == 7 && states[7] == a7
  {
    hide Step, Init;
    states := [a0, a1, a2, a3, a4, a5, a6, a7];
    acts := [Accept(7), Build(7, 1), LoopEnds, WaitTimeout, WipeAndClear, Swap(7), End(7)];
  }

  // ----- who serves a fetch ---------------------------------------------------------------------------------------

  /** Between two swaps the installed resolver stays what it is. */
  lemma {:induction false} ResolverStays(states: seq<Agent>, acts: seq<Act>, i: nat, k: nat)
    requires Run(states, acts) && i <= k < |states|
    requires forall j | i <= j < k :: !acts[j].Swap? && !acts[j].WipeAndClear?
    ensures states[k].resolver == states[i].resolver
  {
    if i < k {
      ResolverStays(states, acts, i, k - 1);
      assert Step(states[k - 1], acts[k - 1], states[k]);
    }
  }

  /** A fetch is served with the resolver that is installed when its handler captures it: the one the latest reload
      swapped in, or the first one; it has not been wiped then, and there is none only after the final wipe. */
  lemma FetchIsServedByInstalled(states: seq<Agent>, acts: seq<Act>, k: nat, h: nat)
    requires Run(states, acts) && k < |acts| && acts[k] == Capture(h)
    ensures h in states[k + 1].handlers && states[k + 1].handlers[h] == Serving(states[k].resolver)
    ensures states[k].resolver.Some? ==>
      states[k].resolver.value in states[k].installed && states[k].wiped[states[k].resolver.value] == 0
    ensures states[k].resolver.None? ==> exists j | 0 <= j < k :: acts[j].WipeAndClear?
    ensures forall i, g: nat, r: nat | 0 <= i < k && acts[i] == Swap(g) && g in states[i].handlers
                             && states[i].handlers[g] == Built(r)
                             && (forall j | i < j < k :: !acts[j].Swap? && !acts[j].WipeAndClear?) ::
      states[k + 1].handlers[h] == Serving(Some(r))
    ensures (forall j | 0 <= j < k :: !acts[j].Swap? && !acts[j].WipeAndClear?) ==>
      states[k + 1].handlers[h] == Serving(states[0].resolver) && states[0].resolver.Some?
  {
    assert Step(states[k], acts[k], states[k + 1]);
    RunKeepsInv(states, acts, k);
    if states[k].resolver.Some? {
      assert Accounted(states[k], states[k].resolver.value);
    }
    hide Inv, Accounted, Builds;
    NoneOnlyAfterStop(states, acts, k);
    forall i, g: nat, r: nat | 0 <= i < k && acts[i] == Swap(g) && g in states[i].handlers
                               && states[i].handlers[g] == Built(r)
                               && (forall j | i < j < k :: !acts[j].Swap? && !acts[j].WipeAndClear?)
      ensures states[k].resolver == Some(r)
    {
      assert Step(states[i], acts[i], states[i + 1]);
      ResolverStays(states, acts, i + 1, k);
    }
    if forall j | 0 <= j < k :: !acts[j].Swap? && !acts[j].WipeAndClear? {
      ResolverStays(states, acts, 0, k);
    }
  }

  lemma {:induction false} NoneOnlyAfterStop(states: seq<Agent>, acts: seq<Act>, k: nat)
    requires Run(states, acts) && k < |states|
    ensures states[k].resolver.None? ==> exists j | 0 <= j < k :: acts[j].WipeAndClear?
  {
    if k > 0 {
      NoneOnlyAfterStop(states, acts, k - 1);
      assert Step(states[k - 1], acts[k - 1], states[k]);
    }
  }

  /** And it keeps that resolver to its end, however many reloads pass meanwhile. */
  lemma {:induction false} FetchKeepsItsResolver(states: seq<Agent>, acts: seq<Act>, k: nat, n: nat, h: nat)
    requires Run(states, acts) && k < n < |states| && acts[k] == Capture(h)
    requires forall j | k < j < n :: acts[j] != End(h)
    ensures h in states[n].handlers && states[n].handlers[h] == Serving(states[k].resolver)
  {
    assert Step(states[n - 1], acts[n - 1], states[n]);
    if n - 1 > k {
      FetchKeepsItsResolver(states, acts, k, n - 1, h);
    }
  }

  // ----- the drain can end ----------------------------------------------------------------------------------------

  ghost predicate Continues(states: seq<Agent>, acts: seq<Act>, states': seq<Agent>, acts': seq<Act>) {
    Run(states, acts) && Run(states', acts') && acts <= acts' && states <= states'
  }

  lemma Then(states: seq<Agent>, acts: seq<Act>, states': seq<Agent>, acts': seq<Act>, act: Act, a: Agent)
    returns (states'': seq<Agent>, acts'': seq<Act>)
    requires Continues(states, acts, states', acts') && |states'| == |acts'| + 1 && Step(states'[|acts'|], act, a)
    ensures Continues(states, acts, states'', acts'') && |states''| == |acts''| + 1 && states''[|acts''|] == a
  {
    hide Step, Init;
    states'', acts'' := states' + [a], acts' + [act];
    forall i | 0 <= i < |acts''| ensures Step(states''[i], acts''[i], states''[i + 1]) {
      if i < |acts'| {
        assert Step(states'[i], acts'[i], states'[i + 1]);
      }
    }
  }

  /** A handler's remaining steps, in its own order. */
  lemma HandlerMayEnd(states: seq<Agent>, acts: seq<Act>, states': seq<Agent>, acts': seq<Act>, h: nat)
    returns (states'': seq<Agent>, acts'': seq<Act>)
    requires Continues(states, acts, states', acts') && |states'| == |acts'| + 1
    requires h in states'[|acts'|].handlers
    ensures Continues(states, acts, states'', acts'') && |states''| == |acts''| + 1
    ensures states''[|acts''|].phase == states'[|acts'|].phase
    ensures states''[|acts''|].handlers == states'[|acts'|].handlers - {h}
  {
    hide Run, Continues;
    states'', acts'' := states', acts';
    var a := states'[|acts'|];
    var handlers := a.handlers - {h};
    if a.handlers[h].Built? {
      var next := a.handlers[h].next;
      a := a.(resolver := Some(next), installed := a.installed + {next},
              handlers := a.handlers[h := Swapped(a.resolver)]);
      states'', acts'' := Then(states, acts, states'', acts'', Swap(h), a);
    }
    if a.handlers[h].Swapped? && a.handlers[h].outgoing.Some? {
      a := a.(wiped := a.wiped + WipeOf(a.handlers[h].outgoing), handlers := a.handlers[h := Swapped(None)]);
      states'', acts'' := Then(states, acts, states'', acts'', WipeOld(h), a);
    }
    assert a.handlers - {h} == handlers;
    states'', acts'' := Then(states, acts, states'', acts'', End(h), a.(handlers := handlers));
  }

  lemma {:induction false} HandlersMayEnd(states: seq<Agent>, acts: seq<Act>, states': seq<Agent>, acts': seq<Act>)
    returns (states'': seq<Agent>, acts'': seq<Act>)
    requires Continues(states, acts, states', acts') && |states'| == |acts'| + 1
    ensures Continues(states, acts, states'', acts'') && |states''| == |acts''| + 1
    ensures states''[|acts''|].phase == states'[|acts'|].phase && states''[|acts''|].handlers == map[]
    decreases states'[|acts'|].handlers.Keys
  {
    hide Run, Continues;
    states'', acts'' := states', acts';
    if h :| h in states'[|acts'|].handlers {
      states'', acts'' := HandlerMayEnd(states, acts, states', acts', h);
      assert states''[|acts''|].handlers.Keys < states'[|acts'|].handlers.Keys;
      states'', acts'' := HandlersMayEnd(states, acts, states'', acts'');
    }
  }

  /** From every state before the end of the drain the shutdown may still drain: there are steps that let the handlers
      in flight end and then stop the agent, with every resolver ever installed wiped once. */
  lemma ShutdownMayDrain(states: seq<Agent>, acts: seq<Act>) returns (states': seq<Agent>, acts': seq<Act>)
    requires Run(states, acts)
    requires var phase := states[|acts|].phase; phase.Accepting? || phase.Cancelled? || phase.Ended?
    ensures Continues(states, acts, states', acts')
    ensures var last := states'[|acts'|];
      && last.phase.Stopped? && last.handlers == map[] && last.resolver == None
      && states[|acts|].installed <= last.installed && forall r | r in last.installed :: last.wiped[r] == 1
  {
    states', acts' := states, acts;
    var a := states[|acts|];
    if !a.phase.Ended? {
      a := a.(phase := Ended);
      states', acts' := Then(states, acts, states', acts', LoopEnds, a);
    }
    states', acts' := HandlersMayEnd(states, acts, states', acts');
    a := states'[|acts'|].(phase := Drained);
    states', acts' := Then(states, acts, states', acts', WaitDone, a);
    a := a.(phase := Stopped, wiped := a.wiped + WipeOf(a.resolver), resolver := None);
    states', acts' := Then(states, acts, states', acts', WipeAndClear, a);
    InstalledGrows(states', acts', |acts|, |acts'|);
    AllWipedUnlessLateSwap(states', acts', |acts'|);
    ResolverAfterStop(states', acts', |acts'|);
  }

  lemma {:induction false} InstalledGrows(states: seq<Agent>, acts: seq<Act>, i: nat, k: nat)
    requires Run(states, acts) && i <= k < |states|
    ensures states[i].installed <= states[k].installed
  {
    if i < k {
      InstalledGrows(states, acts, i, k - 1);
      assert Step(states[k - 1], acts[k - 1], states[k]);
    }
  }
}
