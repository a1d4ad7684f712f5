/** Sealed string values, after internal/crypto/envelope.go. The AEAD is ideal: an envelope is a symbolic value that
    opens under exactly the key and associated data it was sealed with (sections 2.1 and 2.2 of RFC 5116). */
module Envelope {
  import opened Wrappers
  import opened Text

  type Key = nat

  /** A string held by a config. `Sealed` is a genuine enc:v2 envelope, `SealedV1` a genuine enc:v1 one, and `Text` any
      other string, including one that merely starts with an envelope prefix. */
  datatype Value =
    | Text(s: string)
    | Sealed(key: Key, ad: string, nonce: nat, body: string)
    | SealedV1(key: Key, nonce: nat, body: string)

  datatype Failure =
    | EmptyAd | EmptyAadPart | BadTag | NotAnEnvelope
    | NoFreeId | BadNameMap

  const PREFIX := "enc:v2:"
  const LEGACY_PREFIX := "enc:v1:"

  predicate IsEnvelope(v: Value) {
    match v
    case Text(s) => PREFIX <= s || LEGACY_PREFIX <= s
    case _ => true
  }

  predicate IsBlank(v: Value) {
    v == Text("")
  }

  /** Values that the save walkers leave alone: the empty string and anything already in an envelope. */
  predicate IsSkipped(v: Value) {
    IsBlank(v) || IsEnvelope(v)
  }

  /** The canonical associated data: the parts joined by dots; an empty part panics in the source. */
  function Aad(parts: seq<string>): Result<string, Failure> {
    if "" in parts then Err(EmptyAadPart) else Ok(Join(parts))
  }

  function DecryptField(key: Key, env: Value, ad: string): Result<string, Failure> {
    match env
    case Sealed(k, a, _, body) =>
      if ad == "" then Err(EmptyAd) else if k == key && a == ad then Ok(body) else Err(BadTag)
    case SealedV1(k, _, body) =>
      if k == key then Ok(body) else Err(BadTag)
    case Text(s) =>
      if IsEnvelope(env) then Err(BadTag) else Err(NotAnEnvelope)
  }

  /** What a save writes for `plain` in the slot whose associated data is `ad`: skipped values stay, the rest is sealed
      with a nonce drawn at or after `lo`. */
  ghost predicate SealedAs(key: Key, ad: Result<string, Failure>, plain: Value, out: Value, lo: nat) {
    if IsSkipped(plain) then out == plain
    else out.Sealed? && out.key == key && ad == Ok(out.ad) && out.ad != "" && plain == Text(out.body) && out.nonce >= lo
  }

  /** What a load makes of one string: an envelope is opened, anything else stays. */
  function OpenValue(key: Key, v: Value, ad: string): Result<Value, Failure> {
    if !IsEnvelope(v) then Ok(v)
    else
      var pt :- DecryptField(key, v, ad);
      Ok(Text(pt))
  }

  /** One slot round-trips exactly when its plaintext is not an envelope. */
  lemma SlotRoundTrip(key: Key, ad: Result<string, Failure>, plain: Value, out: Value, lo: nat)
    requires ad.Ok?
    requires SealedAs(key, ad, plain, out, lo)
    ensures OpenValue(key, out, ad.value) == Ok(plain) <==> !IsEnvelope(plain)
  {
  }

  /** An envelope opens under its own key only, and an enc:v2 one under its own associated data only; a string that
      merely looks like an envelope never opens, and any other stays as it is. */
  lemma OpensExactly(key: Key, v: Value, ad: string)
    ensures match v
            case Sealed(k, a, _, body) =>
              if k == key && a == ad && ad != "" then OpenValue(key, v, ad) == Ok(Text(body))
              else OpenValue(key, v, ad).Err?
            case SealedV1(k, _, body) =>
              if k == key then OpenValue(key, v, ad) == Ok(Text(body)) else OpenValue(key, v, ad).Err?
            case Text(s) =>
              if "enc:v2:" <= s || "enc:v1:" <= s then OpenValue(key, v, ad).Err? else OpenValue(key, v, ad) == Ok(v)
  {
  }
}
