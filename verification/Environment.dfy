/** What an environment holds, in terms of the config: which string each var contributes, and which assignment wins
    (internal/agent/resolver.go:98-177, internal/sources/local/local.go:99-128). */
module Environment {
  import opened Wrappers
  import opened Envelope
  import opened ConfigModel
  import opened Resolver

  // ----- one var --------------------------------------------------------------------------------------------------

  /** A var of a local source that names a bag and one of its keys contributes exactly the string held there: under the
      var's name, or under the key when the var has none. */
  lemma FetchedKey(remotes: Remotes, c: Config, v: Var, src: string, b: string, k: string, n: string, x: string)
    requires v.name == Text(n) && v.source == Text(src) && v.ref == Text(b) && v.key == Text(k) && v.value == Text("")
    requires src in c.sources && c.sources[src].typ == "local"
    requires b != "" && b in c.secrets && k != "" && k in c.secrets[b] && c.secrets[b][k] == Text(x)
    ensures FetchVar(remotes, ConfigView(c), v) == Ok(if n == "" then map[k := x] else map[n := x])
  {
    assert ConfigView(c)[src] == LocalBags(Some(BagStrings(c)));
    assert BagStrings(c)[b][k] == x;
  }

  /** Without a name and a key it contributes the whole bag, every string under its own key. */
  lemma FetchedBag(remotes: Remotes, c: Config, v: Var, src: string, b: string)
    requires v.name == Text("") && v.source == Text(src) && v.ref == Text(b) && v.key == Text("") && v.value == Text("")
    requires src in c.sources && c.sources[src].typ == "local"
    requires b != "" && b in c.secrets && forall k | k in c.secrets[b] :: c.secrets[b][k].Text?
    ensures var r := FetchVar(remotes, ConfigView(c), v);
            && r.Ok? && r.value.Keys == c.secrets[b].Keys
            && forall k | k in c.secrets[b] :: c.secrets[b][k] == Text(r.value[k])
  {
    assert ConfigView(c)[src] == LocalBags(Some(BagStrings(c)));
    assert BagStrings(c)[b].Keys == c.secrets[b].Keys;
  }

  /** With a name and no key it contributes the only entry of its bag, or fails when there is none or several. */
  lemma FetchedOnlyEntry(remotes: Remotes, c: Config, v: Var, src: string, b: string, n: string)
    requires v.name == Text(n) && n != "" && v.source == Text(src) && v.ref == Text(b)
    requires v.key == Text("") && v.value == Text("") && src in c.sources && c.sources[src].typ == "local"
    requires b != "" && b in c.secrets && forall k | k in c.secrets[b] :: c.secrets[b][k].Text?
    ensures var r := FetchVar(remotes, ConfigView(c), v);
            if |c.secrets[b]| == 1
            then r.Ok? && r.value.Keys == {n} && forall k | k in c.secrets[b] :: c.secrets[b][k] == Text(r.value[n])
            else r == Err(NotOneEntry)
  {
    assert ConfigView(c)[src] == LocalBags(Some(BagStrings(c)));
    var raw := BagStrings(c)[b];
    assert raw.Keys == c.secrets[b].Keys;
    assert |raw| == |raw.Keys| && |c.secrets[b]| == |c.secrets[b].Keys|;
    if |raw| == 1 {
      OneEntry(raw);
    }
  }

  /** What is missing, and in which order it is missed. */
  lemma FetchedNothing(remotes: Remotes, c: Config, v: Var, src: string, b: string, k: string)
    requires v.source == Text(src) && v.ref == Text(b) && v.key == Text(k) && v.value == Text("")
    ensures src !in c.sources ==> FetchVar(remotes, ConfigView(c), v) == Err(SourceMissing)
    ensures src in c.sources && c.sources[src].typ == "local" && b == "" ==>
      FetchVar(remotes, ConfigView(c), v) == Err(BagNameRequired)
    ensures src in c.sources && c.sources[src].typ == "local" && b != "" && b !in c.secrets ==>
      FetchVar(remotes, ConfigView(c), v) == Err(BagNotFound)
    ensures src in c.sources && c.sources[src].typ == "local" && b != "" && b in c.secrets && k != ""
            && k !in c.secrets[b] ==>
      FetchVar(remotes, ConfigView(c), v) == Err(KeyNotInBag)
  {
    if src in c.sources && c.sources[src].typ == "local" {
      assert ConfigView(c)[src] == LocalBags(Some(BagStrings(c)));
      assert b in c.secrets ==> b in BagStrings(c) && BagStrings(c)[b].Keys == c.secrets[b].Keys;
    }
  }

  /** A literal var contributes its value, whatever else it says. */
  lemma FetchedLiteral(remotes: Remotes, c: Config, v: Var, n: string, x: string)
    requires v.name == Text(n) && v.value == Text(x) && x != ""
    ensures FetchVar(remotes, ConfigView(c), v) == Ok(map[n := x])
  {
  }

  /** A var of any other source asks its service for what the var names, once, with the source's own parameters, and
      contributes the answer as a var of a local source would. */
  lemma FetchedRemotely(remotes: Remotes, c: Config, v: Var, src: string, b: string, k: string, n: string,
                        extra: map<string, string>)
    requires v.name == Text(n) && v.source == Text(src) && v.ref == Text(b) && v.key == Text(k) && v.value == Text("")
    requires v.extra.Keys == extra.Keys && forall e | e in extra :: v.extra[e] == Text(extra[e])
    requires src in c.sources && c.sources[src].typ != "local"
    ensures var raw := remotes(c.sources[src], Request(b, k, extra));
            var r := FetchVar(remotes, ConfigView(c), v);
            if raw.Err? || n == "" then r == raw
            else if k != "" then r == if k in raw.value then Ok(map[n := raw.value[k]]) else Err(NoValueForKey)
            else if |raw.value| != 1 then r == Err(NotOneEntry)
            else r.Ok? && r.value.Keys == {n} && r.value[n] in raw.value.Values
  {
    assert ConfigView(c)[src] == RemoteService(c.sources[src]);
    assert Strings(v.extra) == extra;
  }

  // ----- the whole environment ------------------------------------------------------------------------------------

  lemma VarsSplit(remotes: Remotes, view: map<string, Backend>, vars: seq<Var>)
    requires vars != []
    ensures var init, last := FetchVars(remotes, view, vars[..|vars| - 1]), FetchVar(remotes, view, vars[|vars| - 1]);
            FetchVars(remotes, view, vars)
            == if init.Err? then init else if last.Err? then last else Ok(init.value + last.value)
  {
    hide FetchVar;
  }

  /** It fails exactly when some var does, and then with the failure of the first that does. */
  lemma {:induction false} FirstFailureWins(remotes: Remotes, view: map<string, Backend>, vars: seq<Var>)
    ensures FetchVars(remotes, view, vars).Ok? <==> forall v | v in vars :: FetchVar(remotes, view, v).Ok?
    ensures FetchVars(remotes, view, vars).Err? ==>
      exists i | 0 <= i < |vars| ::
        && FetchVar(remotes, view, vars[i]).Err? && FetchVars(remotes, view, vars) == FetchVar(remotes, view, vars[i])
        && forall j | 0 <= j < i :: FetchVar(remotes, view, vars[j]).Ok?
  {
    hide FetchVar;
    if vars != [] {
      var init, n := vars[..|vars| - 1], |vars| - 1;
      FirstFailureWins(remotes, view, init);
      VarsSplit(remotes, view, vars);
      assert vars == init + [vars[n]];
      if FetchVars(remotes, view, init).Err? {
        var i :| 0 <= i < |init| && FetchVar(remotes, view, init[i]).Err?
                 && FetchVars(remotes, view, init) == FetchVar(remotes, view, init[i])
                 && forall j | 0 <= j < i :: FetchVar(remotes, view, init[j]).Ok?;
        assert vars[i] == init[i] && forall j | 0 <= j < i :: vars[j] == init[j];
      } else if FetchVar(remotes, view, vars[n]).Err? {
        assert forall j | 0 <= j < n :: vars[j] in init;
      }
    }
  }

  /** Otherwise it has exactly the names that some var contributes, each with what the last of those vars gives it. */
  lemma {:induction false} LastAssignmentWins(remotes: Remotes, view: map<string, Backend>, vars: seq<Var>, x: string)
    requires FetchVars(remotes, view, vars).Ok?
    ensures forall v | v in vars :: FetchVar(remotes, view, v).Ok?
    ensures x in FetchVars(remotes, view, vars).value <==>
            exists i | 0 <= i < |vars| :: x in FetchVar(remotes, view, vars[i]).value
    ensures forall i | 0 <= i < |vars| && x in FetchVar(remotes, view, vars[i]).value
                       && (forall j | i < j < |vars| :: x !in FetchVar(remotes, view, vars[j]).value) ::
      FetchVars(remotes, view, vars).value[x] == FetchVar(remotes, view, vars[i]).value[x]
  {
    hide FetchVar;
    FirstFailureWins(remotes, view, vars);
    if vars != [] {
      var init, n := vars[..|vars| - 1], |vars| - 1;
      VarsSplit(remotes, view, vars);
      LastAssignmentWins(remotes, view, init, x);
      assert forall j | 0 <= j < n :: vars[j] == init[j];
      hide FetchVars;
      if i :| 0 <= i < |init| && x in FetchVar(remotes, view, init[i]).value {
        assert x in FetchVar(remotes, view, vars[i]).value;
      }
    }
  }
}
