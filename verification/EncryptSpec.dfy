/** What EncryptInPlace and DecryptInPlace promise about the values involved, independent of the order in which Go
    iterates a map and of the IDs and nonces drawn (internal/config/encrypt.go, internal/config/decrypt.go). */
module EncryptSpec {
  import opened Wrappers
  import opened Envelope
  import opened ConfigModel
  import Slots

  /** The name-to-ID direction of a dictionary; key names are looked up under the bag's ID. */
  datatype Ids = Ids(src: map<string, string>, bag: map<string, string>, key: map<string, map<string, string>>)

  /** f and g are inverse to each other. */
  ghost predicate Inverse(f: map<string, string>, g: map<string, string>) {
    && (forall n | n in f :: f[n] in g && g[f[n]] == n)
    && (forall id | id in g :: g[id] in f && f[g[id]] == id)
  }

  /** nm is a dictionary of exactly the sources, bags and bag keys of c, and ids its inverse. */
  ghost predicate DictionaryOf(c: Config, ids: Ids, nm: NameMap) {
    && ids.src.Keys == c.sources.Keys && Inverse(ids.src, nm.sources)
    && ids.bag.Keys == c.secrets.Keys && Inverse(ids.bag, nm.bags)
    && ids.key.Keys == nm.keys.Keys == nm.bags.Keys
    && forall b | b in nm.bags :: ids.key[b].Keys == c.secrets[nm.bags[b]].Keys && Inverse(ids.key[b], nm.keys[b])
  }

  // ----- the save direction ---------------------------------------------------------------------------------------

  /** The key of a local var, by ID where it resolves in the bag. */
  function KeyToId(keys: map<string, string>, key: Value): Value {
    if IsSkipped(key) || key.s !in keys then key else Text(keys[key.s])
  }

  /** A var with its source, and for a local source its bag and key, named by ID where they resolve. */
  function ToIds(sources: map<string, Source>, ids: Ids, v: Var): Var {
    if IsSkipped(v.source) || v.source.s !in ids.src then v
    else
      var w := v.(source := Text(ids.src[v.source.s]));
      if v.source.s !in sources || sources[v.source.s].typ != LOCAL then w
      else if IsSkipped(v.ref) || v.ref.s !in ids.bag then w
      else
        var bagId := ids.bag[v.ref.s];
        w.(ref := Text(bagId), key := KeyToId(if bagId in ids.key then ids.key[bagId] else map[], v.key))
  }

  ghost predicate ParamSealed(key: Key, id: string, k: string, p: ParamValue, o: ParamValue, lo: nat) {
    match p
    case Other(_) => o == p
    case Str(v) => o.Str? && SealedAs(key, Slots.SourceParamAad(id, k), v, o.v, lo)
  }

  ghost predicate ParamsSealed(key: Key, id: string, p: map<string, ParamValue>, o: map<string, ParamValue>, lo: nat) {
    o.Keys == p.Keys && forall k | k in p :: ParamSealed(key, id, k, p[k], o[k], lo)
  }

  ghost predicate SourcesSealed(key: Key, c: Config, nm: NameMap, o: map<string, Source>, lo: nat)
    requires forall id | id in nm.sources :: nm.sources[id] in c.sources
  {
    && o.Keys == nm.sources.Keys
    && forall id | id in nm.sources ::
      && o[id].typ == c.sources[nm.sources[id]].typ
      && ParamsSealed(key, id, c.sources[nm.sources[id]].params, o[id].params, lo)
  }

  ghost predicate BagSealed(key: Key, bagId: string, names: map<string, string>, kv: map<string, Value>,
                            o: map<string, Value>, lo: nat)
    requires forall k | k in names :: names[k] in kv
  {
    o.Keys == names.Keys && forall k | k in names :: SealedAs(key, Slots.SecretAad(bagId, k), kv[names[k]], o[k], lo)
  }

  ghost predicate SecretsSealed(key: Key, c: Config, nm: NameMap, o: map<string, map<string, Value>>, lo: nat)
    requires forall b | b in nm.bags ::
      b in nm.keys && nm.bags[b] in c.secrets && forall k | k in nm.keys[b] :: nm.keys[b][k] in c.secrets[nm.bags[b]]
  {
    && o.Keys == nm.bags.Keys
    && forall b | b in nm.bags :: BagSealed(key, b, nm.keys[b], c.secrets[nm.bags[b]], o[b], lo)
  }

  ghost predicate ExtraSealed(key: Key, i: nat, j: nat, p: map<string, Value>, o: map<string, Value>, lo: nat) {
    o.Keys == p.Keys && forall k | k in p :: SealedAs(key, Slots.VarExtraAad(i, j, k), p[k], o[k], lo)
  }

  ghost predicate VarSealed(key: Key, i: nat, j: nat, v: Var, o: Var, lo: nat) {
    && (forall f :: SealedAs(key, Slots.VarFieldAad(i, j, f), FieldOf(v, f), FieldOf(o, f), lo))
    && ExtraSealed(key, i, j, v.extra, o.extra, lo)
  }

  ghost predicate MappingSealed(key: Key, sources: map<string, Source>, ids: Ids, i: nat, m: Mapping, o: Mapping,
                                lo: nat) {
    && o.(vars := m.vars) == m
    && |o.vars| == |m.vars|
    && forall j | 0 <= j < |m.vars| :: VarSealed(key, i, j, ToIds(sources, ids, m.vars[j]), o.vars[j], lo)
  }

  ghost predicate MappingsSealed(key: Key, c: Config, ids: Ids, o: seq<Mapping>, lo: nat) {
    && |o| == |c.mappings|
    && forall i | 0 <= i < |o| :: MappingSealed(key, c.sources, ids, i, c.mappings[i], o[i], lo)
  }

  function OpenNameMap(key: Key, f: NameMapField): Result<NameMap, Failure> {
    match f
    case Blank => Ok(EMPTY_NAME_MAP)
    case SealedNames(k, ad, _, names) => if k == key && ad == Slots.NAME_MAP_AAD then Ok(names) else Err(BadNameMap)
    case Corrupt(_) => Err(BadNameMap)
  }

  /** The dictionary field is resealed exactly when it is absent or its content differs from nm. */
  ghost predicate NameMapSealed(key: Key, before: NameMapField, nm: NameMap, after: NameMapField, lo: nat) {
    if before.Blank? || OpenNameMap(key, before) != Ok(nm)
    then
      after.SealedNames? && after.key == key && after.ad == Slots.NAME_MAP_AAD && after.names == nm && after.nonce >= lo
    else after == before
  }

  /** o is a file that a save of the name-keyed config c may write. */
  ghost predicate EncryptsTo(key: Key, c: Config, ids: Ids, nm: NameMap, o: Config, lo: nat) {
    && DictionaryOf(c, ids, nm)
    && o.version == c.version && o.migratedAt == c.migratedAt
    && SourcesSealed(key, c, nm, o.sources, lo)
    && SecretsSealed(key, c, nm, o.secrets, lo)
    && MappingsSealed(key, c, ids, o.mappings, lo)
    && NameMapSealed(key, c.nameMap, nm, o.nameMap, lo)
  }

  // ----- the load direction ---------------------------------------------------------------------------------------

  function Open(key: Key, v: Value, ad: Result<string, Failure>): Result<Value, Failure> {
    if !IsEnvelope(v) then Ok(v) else
      var a :- ad;
      OpenValue(key, v, a)
  }

  /** The load side builds a parameter's name by appending to "src.<id>", so an empty parameter key does not panic. */
  function ParamAd(id: string, k: string): string {
    "src" + "." + (id + "." + k)
  }

  ghost predicate ParamOpens(key: Key, id: string, k: string, o: ParamValue, p: ParamValue) {
    match o
    case Other(_) => p == o
    case Str(v) => p.Str? && OpenValue(key, v, ParamAd(id, k)) == Ok(p.v)
  }

  ghost predicate ParamsOpen(key: Key, id: string, o: map<string, ParamValue>, p: map<string, ParamValue>) {
    && (o != map[] ==> id != "")
    && p.Keys == o.Keys && forall k | k in o :: ParamOpens(key, id, k, o[k], p[k])
  }

  ghost predicate SourceOpens(key: Key, id: string, o: Source, p: Source) {
    p.typ == o.typ && ParamsOpen(key, id, o.params, p.params)
  }

  ghost predicate BagOpens(key: Key, bagId: string, o: map<string, Value>, p: map<string, Value>) {
    p.Keys == o.Keys && forall k | k in o :: Open(key, o[k], Slots.SecretAad(bagId, k)) == Ok(p[k])
  }

  ghost predicate ExtraOpens(key: Key, i: nat, j: nat, o: map<string, Value>, p: map<string, Value>) {
    p.Keys == o.Keys && forall k | k in o :: Open(key, o[k], Slots.VarExtraAad(i, j, k)) == Ok(p[k])
  }

  ghost predicate VarOpens(key: Key, i: nat, j: nat, o: Var, p: Var) {
    && (forall f :: Open(key, FieldOf(o, f), Slots.VarFieldAad(i, j, f)) == Ok(FieldOf(p, f)))
    && ExtraOpens(key, i, j, o.extra, p.extra)
  }

  ghost predicate MappingOpens(key: Key, i: nat, o: Mapping, p: Mapping) {
    && p.(vars := o.vars) == o
    && |p.vars| == |o.vars|
    && forall j | 0 <= j < |o.vars| :: VarOpens(key, i, j, o.vars[j], p.vars[j])
  }

  /** p is o with every envelope opened; map keys and var references are still IDs. */
  ghost predicate OpensTo(key: Key, o: Config, p: Config) {
    && p.version == o.version && p.migratedAt == o.migratedAt && p.nameMap == o.nameMap
    && p.sources.Keys == o.sources.Keys
    && (forall id | id in o.sources :: SourceOpens(key, id, o.sources[id], p.sources[id]))
    && p.secrets.Keys == o.secrets.Keys && (forall b | b in o.secrets :: BagOpens(key, b, o.secrets[b], p.secrets[b]))
    && |p.mappings| == |o.mappings|
    && forall i | 0 <= i < |o.mappings| :: MappingOpens(key, i, o.mappings[i], p.mappings[i])
  }

  function Rename(names: map<string, string>, id: string): string {
    if id in names then names[id] else id
  }

  /** dst is src with every key renamed; when two keys get one name, either value may stay. */
  ghost predicate Rekeyed<V>(src: map<string, V>, names: map<string, string>, dst: map<string, V>) {
    && (forall id | id in src :: Rename(names, id) in dst)
    && (forall n | n in dst :: exists id :: id in src && Rename(names, id) == n && dst[n] == src[id])
  }

  function KeyNames(nm: NameMap, bagId: string): map<string, string> {
    if bagId in nm.keys then nm.keys[bagId] else map[]
  }

  ghost predicate SecretsRekeyed(src: map<string, map<string, Value>>, nm: NameMap,
                                 dst: map<string, map<string, Value>>) {
    && (forall b | b in src :: Rename(nm.bags, b) in dst)
    && (forall n | n in dst ::
          exists b :: b in src && Rename(nm.bags, b) == n && Rekeyed(src[b], KeyNames(nm, b), dst[n]))
  }

  predicate IsLocalId(sources: map<string, Source>, id: Value) {
    id.Text? && id.s in sources && sources[id.s].typ == LOCAL
  }

  function RenameValue(names: map<string, string>, v: Value): Value {
    if v.Text? then Text(Rename(names, v.s)) else v
  }

  function KeyToName(names: map<string, string>, key: Value): Value {
    if IsBlank(key) then key else RenameValue(names, key)
  }

  /** A var with its IDs turned back into names; `sources` is still keyed by ID. */
  function ToNames(sources: map<string, Source>, nm: NameMap, v: Var): Var {
    if IsBlank(v.source) then v
    else
      var w := v.(source := RenameValue(nm.sources, v.source));
      if !IsLocalId(sources, v.source) then w
      else
        w.(ref := RenameValue(nm.bags, v.ref),
           key := KeyToName(if v.ref.Text? then KeyNames(nm, v.ref.s) else map[], v.key))
  }

  ghost predicate MappingNamed(sources: map<string, Source>, nm: NameMap, p: Mapping, c: Mapping) {
    && c.(vars := p.vars) == p
    && |c.vars| == |p.vars|
    && forall j | 0 <= j < |p.vars| :: c.vars[j] == ToNames(sources, nm, p.vars[j])
  }

  /** c is the opened config p under the names of dictionary nm. */
  ghost predicate NamedAs(p: Config, nm: NameMap, c: Config) {
    && c.version == p.version && c.migratedAt == p.migratedAt && c.nameMap == p.nameMap
    && Rekeyed(p.sources, nm.sources, c.sources)
    && SecretsRekeyed(p.secrets, nm, c.secrets)
    && |c.mappings| == |p.mappings|
    && forall i | 0 <= i < |p.mappings| :: MappingNamed(p.sources, nm, p.mappings[i], c.mappings[i])
  }

  /** Loading o under `key` may yield the live config c with dictionary nm. */
  ghost predicate DecryptsTo(key: Key, o: Config, nm: NameMap, c: Config) {
    OpenNameMap(key, o.nameMap) == Ok(nm) && exists p :: OpensTo(key, o, p) && NamedAs(p, nm, c)
  }

  /** Loading o under `key` succeeds. */
  ghost predicate DecryptSucceeds(key: Key, o: Config) {
    OpenNameMap(key, o.nameMap).Ok? && exists p :: OpensTo(key, o, p)
  }

  // ----- side conditions ------------------------------------------------------------------------------------------

  predicate ParamIsPlain(p: ParamValue) {
    p.Str? ==> !IsEnvelope(p.v)
  }

  predicate VarIsPlain(v: Var) {
    && !IsEnvelope(v.name) && !IsEnvelope(v.source) && !IsEnvelope(v.ref) && !IsEnvelope(v.key) && !IsEnvelope(v.value)
    && forall k | k in v.extra :: !IsEnvelope(v.extra[k])
  }

  /** No plaintext string has the form of an envelope. */
  predicate AllPlain(c: Config) {
    && (forall n | n in c.sources :: forall k | k in c.sources[n].params :: ParamIsPlain(c.sources[n].params[k]))
    && (forall b | b in c.secrets :: forall k | k in c.secrets[b] :: !IsEnvelope(c.secrets[b][k]))
    && (forall m | m in c.mappings :: forall v | v in m.vars :: VarIsPlain(v))
  }

  predicate IsLocalVar(c: Config, v: Var) {
    !IsBlank(v.source) && IsLocalId(c.sources, v.source)
  }

  /** A local var's bag and key either resolve, or are not mistaken for an ID of the dictionary. */
  predicate NotCaptured(c: Config, nm: NameMap, v: Var) {
    IsLocalVar(c, v) && v.ref.Text? ==>
      if IsBlank(v.ref) || v.ref.s !in c.secrets then v.ref.s !in nm.bags
      else v.key.Text? && !IsBlank(v.key) && v.key.s !in c.secrets[v.ref.s] ==>
          forall b | b in nm.bags && nm.bags[b] == v.ref.s :: v.key.s !in KeyNames(nm, b)
  }

  predicate NoCapture(c: Config, nm: NameMap) {
    forall m | m in c.mappings :: forall v | v in m.vars :: NotCaptured(c, nm, v)
  }
}
