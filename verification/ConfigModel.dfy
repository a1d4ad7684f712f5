/** The config as values: what a file holds and what a live config means, after internal/config/config.go. */
module ConfigModel {
  import opened Wrappers
  import opened Envelope
  import Slots

  /** A source parameter: a string, or any other TOML value, which no walker of top-level strings touches. */
  datatype ParamValue = Str(v: Value) | Other(raw: nat)

  datatype Source = Source(typ: string, params: map<string, ParamValue>)

  datatype Var = Var(name: Value, source: Value, ref: Value, key: Value, value: Value, extra: map<string, Value>)

  datatype Mapping = Mapping(path: string, glob: string, cwdGlob: string, commands: seq<string>, vars: seq<Var>)

  /** The dictionary of opaque IDs; key IDs are scoped by bag ID. */
  datatype NameMap = NameMap(
    sources: map<string, string>,
    bags: map<string, string>,
    keys: map<string, map<string, string>>)

  const EMPTY_NAME_MAP := NameMap(map[], map[], map[])

  /** The [_meta].name_map field: absent, a sealed dictionary, or some string that does not open. */
  datatype NameMapField = Blank | SealedNames(key: Key, ad: string, nonce: nat, names: NameMap) | Corrupt(s: string)

  datatype Config = Config(
    version: int,
    migratedAt: Option<nat>,
    sources: map<string, Source>,
    secrets: map<string, map<string, Value>>,
    mappings: seq<Mapping>,
    nameMap: NameMapField)

  const VERSION := 1
  const LOCAL := "local"

  function FieldOf(v: Var, f: Slots.Field): Value {
    match f
    case Name => v.name
    case Source => v.source
    case Ref => v.ref
    case Key => v.key
    case Value => v.value
  }

  // ----- validation -----------------------------------------------------------------------------------------------

  predicate IsCommandChar(c: char) {
    'a' <= c <= 'z' || 'A' <= c <= 'Z' || '0' <= c <= '9' || c in "._-+"
  }

  predicate IsValidCommandName(s: string) {
    s != "" && forall c | c in s :: IsCommandChar(c)
  }

  predicate ExactlyOneKind(m: Mapping) {
    (if m.path != "" then 1 else 0) + (if m.glob != "" then 1 else 0) + (if m.cwdGlob != "" then 1 else 0) == 1
  }

  predicate ValidVar(v: Var) {
    if !IsBlank(v.value) then
      IsBlank(v.source) && IsBlank(v.ref) && IsBlank(v.key) && v.extra == map[] && !IsBlank(v.name)
    else
      !IsBlank(v.source) && (IsBlank(v.name) ==> IsBlank(v.key))
  }

  predicate ValidMapping(m: Mapping) {
    && ExactlyOneKind(m)
    && (m.cwdGlob == "" ==> m.commands == [])
    && (m.cwdGlob != "" ==> m.commands != [] && forall c | c in m.commands :: IsValidCommandName(c))
    && m.vars != []
    && forall v | v in m.vars :: ValidVar(v)
  }

  /** ValidateStructure: safe on the sealed form, since it only asks which fields are present. */
  predicate ValidateStructure(c: Config) {
    && c.version == VERSION
    && (forall n | n in c.sources :: c.sources[n].typ != "" && c.sources[n].typ != "github")
    && forall m | m in c.mappings :: ValidMapping(m)
  }

  predicate SourceDefined(c: Config, v: Var) {
    IsBlank(v.value) ==> v.source.Text? && v.source.s in c.sources
  }

  /** ValidatePost: every var that is not a literal names a defined source. */
  predicate ValidatePost(c: Config) {
    forall m | m in c.mappings :: forall v | v in m.vars :: SourceDefined(c, v)
  }

  predicate Validate(c: Config) {
    ValidateStructure(c) && ValidatePost(c)
  }
}
