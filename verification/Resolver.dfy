/** Fetching the environment of a command: the local source, the resolver and its wipe
    (internal/agent/resolver.go, internal/sources/local/local.go). */
module Resolver {
  import opened Wrappers
  import opened Envelope
  import opened ConfigModel
  import opened Live

  datatype FetchError =
    | SourceMissing | BagsCleared | BagNameRequired | BagNotFound | KeyNotInBag
    | NoValueForKey | NotOneEntry | RemoteFailed(code: nat) | UnknownType

  datatype Request = Request(id: string, key: string, extra: map<string, string>)

  type Bags = map<string, map<string, string>>

  /** What answers a request: a bag store, or some remote service configured by the source. */
  datatype Backend = LocalBags(bags: Option<Bags>) | RemoteService(src: Source)

  /** The remote services, as one function of the source's configuration and the request. */
  type Remotes = (Source, Request) -> Result<map<string, string>, FetchError>

  function Chars(v: Value): string {
    match v
    case Text(s) => s
    case _ => PREFIX
  }

  function Strings(m: map<string, Value>): map<string, string> {
    map k | k in m :: Chars(m[k])
  }

  /** localSource.Fetch under its lock. */
  function LocalFetch(bags: Option<Bags>, id: string, key: string): Result<map<string, string>, FetchError> {
    if bags.None? then Err(BagsCleared)
    else if id == "" then Err(BagNameRequired)
    else if id !in bags.value then Err(BagNotFound)
    else if key == "" then Ok(bags.value[id])
    else if key !in bags.value[id] then Err(KeyNotInBag)
    else Ok(map[key := bags.value[id][key]])
  }

  function Fetch(remotes: Remotes, b: Backend, req: Request): Result<map<string, string>, FetchError> {
    match b
    case LocalBags(bags) => LocalFetch(bags, req.id, req.key)
    case RemoteService(src) => remotes(src, req)
  }

  function PickValue(raw: map<string, string>, key: string): (r: Result<string, FetchError>)
    ensures r.Ok? ==> r.value in raw.Values && (key != "" ==> key in raw && r.value == raw[key])
    ensures r.Ok? <==> if key != "" then key in raw else |raw| == 1
  {
    if key != "" then
      if key in raw then Ok(raw[key]) else Err(NoValueForKey)
    else if |raw| != 1 then Err(NotOneEntry)
    else
      OneEntry(raw);
      var k :| k in raw;
      Ok(raw[k])
  }

  lemma OneEntry(raw: map<string, string>)
    requires |raw| == 1
    ensures exists k :: k in raw && forall j | j in raw :: j == k
  {
    assert |raw.Keys| == 1;
    var k :| k in raw.Keys;
    assert |raw.Keys - {k}| == 0;
    assert raw.Keys == {k};
  }

  /** The assignments one var contributes. */
  function FetchVar(remotes: Remotes, view: map<string, Backend>, v: Var): Result<map<string, string>, FetchError> {
    if !IsBlank(v.value) then Ok(map[Chars(v.name) := Chars(v.value)])
    else if Chars(v.source) !in view then Err(SourceMissing)
    else
      var raw :- Fetch(remotes, view[Chars(v.source)], Request(Chars(v.ref), Chars(v.key), Strings(v.extra)));
      if IsBlank(v.name) then Ok(raw)
      else
        var val :- PickValue(raw, Chars(v.key));
        Ok(map[Chars(v.name) := val])
  }

  /** The environment of a list of vars: later assignments win, and the first failure fails the whole. */
  function FetchVars(remotes: Remotes, view: map<string, Backend>,
                     vars: seq<Var>): Result<map<string, string>, FetchError> {
    if vars == [] then Ok(map[])
    else
      var init :- FetchVars(remotes, view, vars[..|vars| - 1]);
      var last :- FetchVar(remotes, view, vars[|vars| - 1]);
      Ok(init + last)
  }

  function BagStrings(c: Config): Bags {
    map b | b in c.secrets :: Strings(c.secrets[b])
  }

  /** What answers under a decrypted config: local sources read the bags, the others their service. */
  function ConfigView(c: Config): map<string, Backend> {
    map n | n in c.sources ::
      if c.sources[n].typ == LOCAL then LocalBags(Some(BagStrings(c))) else RemoteService(c.sources[n])
  }

  // ----- objects --------------------------------------------------------------------------------------------------

  /** Every local source of a resolver refers to the bag maps of the config. */
  class LocalSource {
    var bags: Option<map<string, StrMap>>

    constructor ()
      ensures bags == None
    {
      bags := None;
    }

    ghost function Objs(): set<StrMap>
      reads this
    {
      if bags.None? then {} else set b | b in bags.value :: bags.value[b]
    }

    ghost function Content(): Option<Bags>
      reads this, Objs()
    {
      if bags.None? then None else Some(map b | b in bags.value :: Strings(bags.value[b].m))
    }

    method SetBags(b: map<string, StrMap>)
      modifies this
      ensures bags == Some(b)
    {
      bags := Some(b);
    }

    method Fetch(id: string, key: string) returns (r: Result<map<string, string>, FetchError>)
      ensures r == LocalFetch(Content(), id, key)
    {
      if bags.None? {
        return Err(BagsCleared);
      }
      if id == "" {
        return Err(BagNameRequired);
      }
      if id !in bags.value {
        return Err(BagNotFound);
      }
      var bag := bags.value[id];
      if key != "" {
        if key !in bag.m {
          return Err(KeyNotInBag);
        }
        return Ok(map[key := Chars(bag.m[key])]);
      }
      return Ok(Strings(bag.m));
    }

    /** Empties every value of every bag, for all who share the bags, and drops the store. */
    method Wipe()
      modifies this, Objs()
      ensures bags == None
      ensures forall b | b in old(Objs()) :: b.m == map k | k in old(b.m) :: Text("")
    {
      if bags.Some? {
        var todo := set b | b in bags.value :: bags.value[b];
        ghost var all := todo;
        while todo != {}
          invariant todo <= all == old(Objs()) && bags == old(bags)
          invariant forall b | b in todo :: b.m == old(b.m)
          invariant forall b | b in all - todo :: b.m == map k | k in old(b.m) :: Text("")
          decreases todo
        {
          var b :| b in todo;
          todo := todo - {b};
          b.m := map k | k in b.m :: Text("");
        }
      }
      bags := None;
    }
  }

  datatype SourceObj = Local(l: LocalSource) | Remote(src: Source)

  ghost function BackendOf(s: SourceObj): Backend
    reads if s.Local? then {s.l} + s.l.Objs() else {}
  {
    match s
    case Local(l) => LocalBags(l.Content())
    case Remote(src) => RemoteService(src)
  }

  /** The constructor registered for the type accepts the parameters; that of local accepts all. */
  predicate Builds(accepts: Source -> bool, src: Source) {
    src.typ == LOCAL || accepts(src)
  }

  /** A resolver over the sources of a decrypted config, whose bags all local sources share, or an error when some
      source is of unknown type or misconfigured. */
  method BuildResolver(c: LiveConfig, remotes: Remotes, accepts: Source -> bool)
    returns (r: Result<AgentResolver, FetchError>)
    ensures r.Ok? <==> forall n | n in c.sources :: Builds(accepts, Source(c.sources[n].typ, c.sources[n].params.m))
    ensures r.Err? ==> r.error == UnknownType
    ensures r.Ok? ==> fresh(r.value) && fresh(r.value.Locals())
    ensures r.Ok? ==> r.value.cfg == c.sources && r.value.remotes == remotes
    ensures r.Ok? ==> r.value.View() == ConfigView(c.Content())
    ensures r.Ok? ==> forall l | l in r.value.Locals() :: l.bags == Some(c.secrets)
  {
    hide Builds, ConfigView, SecretsContent, MappingsContent, AgentResolver.View;
    var srcs: map<string, SourceObj> := map[];
    var todo := c.sources.Keys;
    while todo != {}
      invariant todo <= c.sources.Keys && srcs.Keys == c.sources.Keys - todo
      invariant forall n | n in srcs :: Builds(accepts, Source(c.sources[n].typ, c.sources[n].params.m))
      invariant forall n | n in srcs && srcs[n].Local? :: fresh(srcs[n].l) && srcs[n].l.bags == Some(c.secrets)
      invariant forall n | n in srcs ::
        if c.sources[n].typ == LOCAL then srcs[n].Local?
        else srcs[n] == Remote(Source(c.sources[n].typ, c.sources[n].params.m))
      decreases todo
    {
      var n :| n in todo;
      todo := todo - {n};
      var src := Source(c.sources[n].typ, c.sources[n].params.m);
      if !Builds(accepts, src) {
        return Err(UnknownType);
      }
      if src.typ == LOCAL {
        var l := new LocalSource();
        l.SetBags(c.secrets);
        srcs := srcs[n := Local(l)];
      } else {
        srcs := srcs[n := Remote(src)];
      }
    }
    var resolver := new AgentResolver(srcs, remotes, c.sources);
    NewView(resolver, c);
    return Ok(resolver);
  }

  lemma SharedBags(l: LocalSource, c: LiveConfig)
    requires l.bags == Some(c.secrets)
    ensures l.Content() == Some(BagStrings(c.Content()))
  {
    var content := c.Content();
    assert content.secrets.Keys == c.secrets.Keys && forall b | b in c.secrets :: content.secrets[b] == c.secrets[b].m;
    assert l.Content().value == BagStrings(content);
  }

  lemma NewView(r: AgentResolver, c: LiveConfig)
    requires r.sources.Keys == c.sources.Keys
    requires forall n | n in r.sources && r.sources[n].Local? :: r.sources[n].l.bags == Some(c.secrets)
    requires forall n | n in r.sources ::
      if c.sources[n].typ == LOCAL then r.sources[n].Local?
      else r.sources[n] == Remote(Source(c.sources[n].typ, c.sources[n].params.m))
    ensures r.View() == ConfigView(c.Content())
  {
    hide MappingsContent;
    forall n | n in r.sources ensures BackendOf(r.sources[n]) == ConfigView(c.Content())[n] {
      if r.sources[n].Local? {
        SharedBags(r.sources[n].l, c);
      }
    }
  }

  class AgentResolver {
    const sources: map<string, SourceObj>
    const remotes: Remotes
    var cfg: map<string, SourceRec>

    constructor (sources: map<string, SourceObj>, remotes: Remotes, cfg: map<string, SourceRec>)
      ensures this.sources == sources && this.remotes == remotes && this.cfg == cfg
    {
      this.sources := sources;
      this.remotes := remotes;
      this.cfg := cfg;
    }

    ghost function Locals(): set<LocalSource> {
      set n | n in sources && sources[n].Local? :: sources[n].l
    }

    ghost function BagsInUse(): set<StrMap>
      reads Locals()
    {
      set l, b | l in Locals() && b in l.Objs() :: b
    }

    ghost function View(): map<string, Backend>
      reads Locals(), BagsInUse()
    {
      map n | n in sources :: BackendOf(sources[n])
    }

    /** fetchVars, shared by FetchEnv and FetchEnvCwd. */
    method FetchAll(vars: seq<Var>) returns (r: Result<map<string, string>, FetchError>)
      ensures r == FetchVars(remotes, View(), vars)
    {
      hide View, FetchVar, FetchVars;
      ghost var view := View();
      var out: map<string, string> := map[];
      FetchVarsNone(remotes, view, vars);
      for i := 0 to |vars|
        invariant View() == view && FetchVars(remotes, view, vars[..i]) == Ok(out)
      {
        FetchVarsStep(remotes, view, vars, i);
        var one := FetchOne(vars[i]);
        if one.Err? {
          FailurePropagates(remotes, view, vars, i + 1);
          return Err(one.error);
        }
        out := out + one.value;
      }
      assert vars[..|vars|] == vars;
      return Ok(out);
    }

    /** One round of fetchVars. */
    method FetchOne(v: Var) returns (r: Result<map<string, string>, FetchError>)
      ensures r == FetchVar(remotes, View(), v) && View() == old(View())
    {
      hide View, Fetch, PickValue;
      ViewOf();
      if !IsBlank(v.value) {
        return Ok(map[Chars(v.name) := Chars(v.value)]);
      }
      if Chars(v.source) !in sources {
        return Err(SourceMissing);
      }
      var raw := Ask(Chars(v.source), Request(Chars(v.ref), Chars(v.key), Strings(v.extra)));
      if raw.Err? {
        return Err(raw.error);
      }
      if IsBlank(v.name) {
        return Ok(raw.value);
      }
      var val := PickValue(raw.value, Chars(v.key));
      if val.Err? {
        return Err(val.error);
      }
      return Ok(map[Chars(v.name) := val.value]);
    }

    lemma ViewOf()
      ensures View().Keys == sources.Keys
    {
    }

    /** Fetches from one source. */
    method Ask(n: string, req: Request) returns (raw: Result<map<string, string>, FetchError>)
      requires n in sources
      ensures n in View() && raw == Fetch(remotes, View()[n], req) && View() == old(View())
    {
      assert View()[n] == BackendOf(sources[n]);
      hide View;
      match sources[n]
      case Local(l) =>
        raw := l.Fetch(req.id, req.key);
        SameView();
      case Remote(src) => raw := remotes(src, req);
    }

    /** The view depends on nothing but the bags in use. */
    twostate lemma SameView()
      requires forall l | l in Locals() :: l.bags == old(l.bags)
      requires forall b | b in old(BagsInUse()) :: b.m == old(b.m)
      ensures View() == old(View())
    {
      forall n | n in sources ensures BackendOf(sources[n]) == old(BackendOf(sources[n])) {
        if sources[n].Local? {
          var l := sources[n].l;
          assert l in Locals() && l.Objs() == old(l.Objs()) && forall b | b in l.Objs() :: b in old(BagsInUse());
          if l.bags.Some? {
            forall b | b in l.bags.value ensures l.bags.value[b].m == old(l.bags.value[b].m) {
              assert l.bags.value[b] in l.Objs();
            }
            assert l.Content().value == old(l.Content()).value;
          }
        }
      }
    }

    /** Wipes every local source, since remote ones hold no plaintext cache, then the parameters kept beside them. */
    method Wipe()
      modifies this`cfg, Locals(), BagsInUse(), ParamObjs(cfg)
      ensures cfg == map[] && forall l | l in Locals() :: l.bags == None
      ensures forall b | b in old(BagsInUse()) :: forall k | k in b.m :: b.m[k] == Text("")
      ensures forall n | n in old(cfg) :: forall k | k in old(cfg)[n].params.m ::
        old(cfg)[n].params.m[k] == Str(Text(""))
    {
      WipeSources();
      WipeParams(cfg);
      cfg := map[];
    }

    method WipeSources()
      modifies Locals(), BagsInUse()
      ensures forall l | l in Locals() :: l.bags == None
      ensures forall b | b in old(BagsInUse()) :: forall k | k in b.m :: b.m[k] == Text("")
    {
      ghost var all := BagsInUse();
      var todo := sources.Keys;
      while todo != {}
        invariant todo <= sources.Keys
        invariant forall n | n in sources && n !in todo && sources[n].Local? :: sources[n].l.bags == None
        invariant forall l | l in Locals() :: l.bags == None || l.bags == old(l.bags)
        invariant forall l | l in Locals() && l.bags == None ::
          forall b | b in old(l.Objs()) :: forall k | k in b.m :: b.m[k] == Text("")
        decreases todo
      {
        var n :| n in todo;
        todo := todo - {n};
        match sources[n]
        case Local(l) =>
          assert l in Locals();
          assert l.Objs() <= old(l.Objs()) <= all;
          l.Wipe();
        case Remote(_) =>
      }
    }
  }

  /** Empties every parameter, of whatever type. */
  method WipeParams(cfg: map<string, SourceRec>)
    modifies ParamObjs(cfg)
    ensures forall n | n in cfg :: cfg[n].params.m == map k | k in old(cfg[n].params.m) :: Str(Text(""))
  {
    var todo := cfg.Keys;
    while todo != {}
      invariant todo <= cfg.Keys
      invariant forall n | n in cfg :: cfg[n].params.m.Keys == old(cfg[n].params.m.Keys)
      invariant forall n | n in cfg && n !in todo ::
        cfg[n].params.m == map k | k in old(cfg[n].params.m) :: Str(Text(""))
      decreases todo
    {
      var n :| n in todo;
      todo := todo - {n};
      var params := cfg[n].params;
      params.m := map k | k in params.m :: Str(Text(""));
    }
  }

  lemma {:induction false} FailurePropagates(remotes: Remotes, view: map<string, Backend>, vars: seq<Var>, n: nat)
    requires n <= |vars| && FetchVars(remotes, view, vars[..n]).Err?
    ensures FetchVars(remotes, view, vars) == FetchVars(remotes, view, vars[..n])
    decreases |vars| - n
  {
    hide FetchVar;
    if n == |vars| {
      assert vars[..n] == vars;
    } else {
      assert vars[..n + 1][..n] == vars[..n];
      FailurePropagates(remotes, view, vars, n + 1);
    }
  }

  lemma FetchVarsNone(remotes: Remotes, view: map<string, Backend>, vars: seq<Var>)
    ensures FetchVars(remotes, view, vars[..0]) == Ok(map[])
  {
  }

  lemma FetchVarsStep(remotes: Remotes, view: map<string, Backend>, vars: seq<Var>, i: nat)
    requires i < |vars|
    ensures FetchVars(remotes, view, vars[..i + 1]) ==
      var init := FetchVars(remotes, view, vars[..i]);
      var last := FetchVar(remotes, view, vars[i]);
      if init.Err? then init else if last.Err? then last else Ok(init.value + last.value)
  {
    hide FetchVar;
    assert vars[..i + 1][..i] == vars[..i];
  }
}
