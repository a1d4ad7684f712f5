/** The config as Go holds it in memory: parameter maps, bag maps, extra maps and vars are shared, mutable objects. */
module Live {
  import opened Wrappers
  import opened Envelope
  import opened ConfigModel
  import Slots

  /** A source's Params map. */
  class ParamMap {
    var m: map<string, ParamValue>
    constructor (m: map<string, ParamValue>)
      ensures this.m == m
    {
      this.m := m;
    }
  }

  /** A bag's key/value map, or a var's Extra map. */
  class StrMap {
    var m: map<string, Value>
    constructor (m: map<string, Value>)
      ensures this.m == m
    {
      this.m := m;
    }
  }

  /** One element of a mapping's Vars slice. */
  class VarCell {
    var name: Value
    var source: Value
    var ref: Value
    var key: Value
    var value: Value
    const extra: StrMap

    constructor (v: Var, extra: StrMap)
      requires extra.m == v.extra
      ensures Content() == v && this.extra == extra
    {
      name, source, ref, key, value := v.name, v.source, v.ref, v.key, v.value;
      this.extra := extra;
    }

    function Content(): Var
      reads this, extra
    {
      Var(name, source, ref, key, value, extra.m)
    }

    function Get(f: Slots.Field): Value
      reads this
    {
      match f
      case Name => name
      case Source => source
      case Ref => ref
      case Key => key
      case Value => value
    }

    method Set(f: Slots.Field, v: Value)
      modifies this
      ensures forall g :: Get(g) == if g == f then v else old(Get(g))
    {
      match f
      case Name => name := v;
      case Source => source := v;
      case Ref => ref := v;
      case Key => key := v;
      case Value => value := v;
    }
  }

  /** The dictionary object Config.IDMap points to. */
  class IdMap {
    var names: NameMap
    constructor (names: NameMap)
      ensures this.names == names
    {
      this.names := names;
    }
  }

  datatype SourceRec = SourceRec(typ: string, params: ParamMap)

  datatype MappingRec =
    MappingRec(path: string, glob: string, cwdGlob: string, commands: seq<string>, vars: seq<VarCell>)

  ghost function CellObjs(vars: seq<VarCell>): set<object> {
    (set v | v in vars :: v as object) + (set v | v in vars :: v.extra as object)
  }

  function CellAt(vars: seq<VarCell>, j: nat): Var
    requires j < |vars|
    reads CellObjs(vars)
  {
    assert vars[j] in vars;
    vars[j].Content()
  }

  function MappingContent(m: MappingRec): Mapping
    reads CellObjs(m.vars)
  {
    Mapping(m.path, m.glob, m.cwdGlob, m.commands,
            seq(|m.vars|, j requires 0 <= j < |m.vars| reads CellObjs(m.vars) => CellAt(m.vars, j)))
  }

  ghost function VarObjs(ms: seq<MappingRec>): set<object> {
    set m, o | m in ms && o in CellObjs(m.vars) :: o
  }

  ghost function ParamObjs(sources: map<string, SourceRec>): set<object> {
    set n | n in sources :: sources[n].params as object
  }

  ghost function BagObjs(secrets: map<string, StrMap>): set<object> {
    set b | b in secrets :: secrets[b] as object
  }

  /** No two slots of the config share an object. */
  ghost predicate CellsApart(vars: seq<VarCell>) {
    forall j, k | 0 <= j < k < |vars| :: vars[j] != vars[k] && vars[j].extra != vars[k].extra
  }

  ghost predicate MappingsApart(ms: seq<MappingRec>) {
    && (forall m | m in ms :: CellsApart(m.vars))
    && (forall i, k | 0 <= i < k < |ms| :: CellObjs(ms[i].vars) !! CellObjs(ms[k].vars))
  }

  ghost predicate ParamsApart(sources: map<string, SourceRec>) {
    forall n, n' | n in sources && n' in sources && n != n' :: sources[n].params != sources[n'].params
  }

  ghost predicate BagsApart(secrets: map<string, StrMap>) {
    forall b, b' | b in secrets && b' in secrets && b != b' :: secrets[b] != secrets[b']
  }

  lemma OneMoreApart(secrets: map<string, StrMap>, b: string, bag: StrMap)
    requires BagsApart(secrets) && bag !in secrets.Values
    ensures BagsApart(secrets[b := bag])
  {
  }

  function SourcesContent(sources: map<string, SourceRec>): map<string, Source>
    reads ParamObjs(sources)
  {
    map n | n in sources :: Source(sources[n].typ, sources[n].params.m)
  }

  function SecretsContent(secrets: map<string, StrMap>): map<string, map<string, Value>>
    reads BagObjs(secrets)
  {
    map b | b in secrets :: secrets[b].m
  }

  function MappingsContent(ms: seq<MappingRec>): seq<Mapping>
    reads VarObjs(ms)
  {
    seq(|ms|, i requires 0 <= i < |ms| reads VarObjs(ms) => MappingContent(ms[i]))
  }

  class LiveConfig {
    var version: int
    var migratedAt: Option<nat>
    var sources: map<string, SourceRec>
    var secrets: map<string, StrMap>
    var mappings: seq<MappingRec>
    var nameMap: NameMapField
    var idMap: IdMap?

    constructor (version: int, migratedAt: Option<nat>, sources: map<string, SourceRec>, secrets: map<string, StrMap>,
                 mappings: seq<MappingRec>, nameMap: NameMapField, idMap: IdMap?)
      ensures this.version == version && this.migratedAt == migratedAt
      ensures this.sources == sources && this.secrets == secrets
      ensures this.mappings == mappings && this.nameMap == nameMap && this.idMap == idMap
    {
      this.version, this.migratedAt, this.sources, this.secrets := version, migratedAt, sources, secrets;
      this.mappings, this.nameMap, this.idMap := mappings, nameMap, idMap;
    }

    ghost predicate Apart()
      reads this
    {
      && ParamsApart(sources) && BagsApart(secrets) && MappingsApart(mappings)
      && BagObjs(secrets) !! VarObjs(mappings)
    }

    /** The objects reachable from the config, apart from its dictionary. */
    ghost function Objs(): set<object>
      reads this
    {
      ParamObjs(sources) + BagObjs(secrets) + VarObjs(mappings)
    }

    /** What the config means, as a value. */
    function Content(): Config
      reads this, ParamObjs(sources), BagObjs(secrets), VarObjs(mappings)
    {
      Config(version, migratedAt, SourcesContent(sources), SecretsContent(secrets), MappingsContent(mappings), nameMap)
    }
  }

  /** Objects of different classes are different objects. */
  lemma KindsApart(c: LiveConfig)
    ensures c !in ParamObjs(c.sources) && c !in BagObjs(c.secrets) && c !in VarObjs(c.mappings)
    ensures ParamObjs(c.sources) !! BagObjs(c.secrets) && ParamObjs(c.sources) !! VarObjs(c.mappings)
  {
  }

  /** What a config refers to exists, and so outlives any call that changes none of it. */
  lemma PartsExist(c: LiveConfig)
    ensures forall o | o in ParamObjs(c.sources) :: allocated(o)
    ensures forall o | o in BagObjs(c.secrets) :: allocated(o)
    ensures forall o | o in VarObjs(c.mappings) :: allocated(o)
  {
  }
}
