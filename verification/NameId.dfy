/** Opaque IDs and the dictionary that names them, after internal/config/nameid.go and the equality helpers of
    internal/config/encrypt.go. */
module NameId {
  import opened Wrappers
  import opened Envelope
  import opened ConfigModel
  import Slots

  // ----- the random source ----------------------------------------------------------------------------------------

  /** Fresh choices: an arbitrary tape of draws read from left to right. Nonces are positions on the tape, so a nonce
      is never used twice. */
  class Entropy {
    const tape: nat -> nat
    var next: nat

    constructor (tape: nat -> nat)
      ensures this.tape == tape && next == 0
    {
      this.tape := tape;
      next := 0;
    }

    method Draw() returns (r: nat)
      modifies this
      ensures r == tape(old(next)) && next == old(next) + 1
    {
      r := tape(next);
      next := next + 1;
    }

    method Nonce() returns (r: nat)
      modifies this
      ensures r == old(next) && next == old(next) + 1
    {
      r := next;
      next := next + 1;
    }
  }

  /** The ideal seal. Every call draws a nonce of its own. */
  method EncryptField(key: Key, plaintext: string, ad: string, rng: Entropy) returns (r: Result<Value, Failure>)
    modifies rng
    ensures if ad == "" then r == Err(EmptyAd) && rng.next == old(rng.next)
            else r == Ok(Sealed(key, ad, old(rng.next), plaintext)) && rng.next == old(rng.next) + 1
  {
    if ad == "" {
      return Err(EmptyAd);
    }
    var nonce := rng.Nonce();
    return Ok(Sealed(key, ad, nonce, plaintext));
  }

  /** The `len` lower-case hexadecimal digits of a draw. */
  function Hex(n: nat, len: nat): string {
    if len == 0 then "" else ["0123456789abcdef"[n % 16]] + Hex(n / 16, len - 1)
  }

  lemma {:induction false} HexIsHex(n: nat, len: nat)
    ensures |Hex(n, len)| == len && forall c | c in Hex(n, len) :: Slots.IsHex(c)
  {
    if len != 0 {
      HexIsHex(n / 16, len - 1);
    }
  }

  function Candidate(prefix: string, draw: nat): (id: string)
    ensures Slots.IsId(id, prefix)
  {
    HexIsHex(draw, Slots.ID_HEX_LEN);
    assert forall i | |prefix| <= i < |prefix| + Slots.ID_HEX_LEN ::
      (prefix + Hex(draw, Slots.ID_HEX_LEN))[i] in Hex(draw, Slots.ID_HEX_LEN);
    prefix + Hex(draw, Slots.ID_HEX_LEN)
  }

  const ATTEMPTS := 64

  const PREFIXES := {Slots.SOURCE_PREFIX, Slots.BAG_PREFIX, Slots.KEY_PREFIX}

  /** What the draws from lo to hi could mint. */
  ghost function Drawn(tape: nat -> nat, lo: nat, hi: nat): set<string> {
    set k, prefix | lo <= k < hi && prefix in PREFIXES :: Candidate(prefix, tape(k))
  }

  /** Nothing but the given IDs and the ones the draws since lo could mint. */
  ghost predicate TakenOnly(taken: set<string>, used: set<string>, tape: nat -> nat, lo: nat, hi: nat) {
    taken <= used + Drawn(tape, lo, hi)
  }

  lemma MoreDraws(taken: set<string>, used: set<string>, tape: nat -> nat, lo: nat, hi: nat, hi': nat)
    requires TakenOnly(taken, used, tape, lo, hi) && hi <= hi'
    ensures TakenOnly(taken, used, tape, lo, hi')
  {
  }

  /** The last sixty-four draws gave no new ID of some kind: each is one of the given IDs or one an earlier draw since
      lo could mint. */
  ghost predicate Exhausted(used: set<string>, tape: nat -> nat, lo: nat, hi: nat) {
    && lo + ATTEMPTS <= hi
    && exists prefix | prefix in PREFIXES ::
      forall k | hi - ATTEMPTS <= k < hi :: Candidate(prefix, tape(k)) in used + Drawn(tape, lo, hi - ATTEMPTS)
  }

  /** Mints the first candidate that is not taken, or fails when sixty-four draws in a row are taken. */
  method NewId(prefix: string, taken: set<string>, rng: Entropy) returns (r: Result<string, Failure>)
    modifies rng
    ensures old(rng.next) < rng.next <= old(rng.next) + 64
    ensures forall k | old(rng.next) <= k < rng.next - 1 :: Candidate(prefix, rng.tape(k)) in taken
    ensures r.Ok? ==> r.value == Candidate(prefix, rng.tape(rng.next - 1)) && r.value !in taken
    ensures r.Err? ==> r.error == NoFreeId && rng.next == old(rng.next) + 64
                       && Candidate(prefix, rng.tape(rng.next - 1)) in taken
  {
    for attempt := 0 to ATTEMPTS
      invariant rng.next == old(rng.next) + attempt
      invariant forall k | old(rng.next) <= k < rng.next :: Candidate(prefix, rng.tape(k)) in taken
    {
      var draw := rng.Draw();
      var id := Candidate(prefix, draw);
      if id !in taken {
        return Ok(id);
      }
    }
    return Err(NoFreeId);
  }

  // ----- inverting and comparing dictionaries ---------------------------------------------------------------------

  /** out names one ID for every name of the dictionary. */
  ghost predicate SomeInverse(idToName: map<string, string>, out: map<string, string>) {
    && (forall id | id in idToName :: idToName[id] in out)
    && (forall n | n in out :: out[n] in idToName && idToName[out[n]] == n)
  }

  /** Inverts a dictionary; for a name held by several IDs the first one visited wins. */
  method NameToId(idToName: map<string, string>) returns (out: map<string, string>)
    ensures SomeInverse(idToName, out)
  {
    out := map[];
    var todo := idToName.Keys;
    while todo != {}
      invariant todo <= idToName.Keys
      invariant forall id | id in idToName && id !in todo :: idToName[id] in out
      invariant forall n | n in out :: out[n] in idToName && idToName[out[n]] == n
      decreases todo
    {
      var id :| id in todo;
      todo := todo - {id};
      if idToName[id] !in out {
        out := out[idToName[id] := id];
      }
    }
  }

  /** From a dictionary whose names are unique the inverse is determined. */
  lemma UniqueNamesInvert(idToName: map<string, string>, out: map<string, string>, id: string)
    requires SomeInverse(idToName, out) && id in idToName
    requires forall id' | id' in idToName && idToName[id'] == idToName[id] :: id' == id
    ensures out[idToName[id]] == id
  {
  }

  lemma SameKeys<V>(a: map<string, V>, b: map<string, V>)
    requires |a| == |b| && a.Keys <= b.Keys
    ensures a.Keys == b.Keys
  {
    var extra := b.Keys - a.Keys;
    assert b.Keys == a.Keys + extra;
    assert |b.Keys| == |a.Keys| + |extra| && |a.Keys| == |a| && |b.Keys| == |b|;
  }

  method StringMapEqual(a: map<string, string>, b: map<string, string>) returns (eq: bool)
    ensures eq <==> a == b
  {
    if |a| != |b| {
      return false;
    }
    var todo := a.Keys;
    while todo != {}
      invariant todo <= a.Keys
      invariant forall k | k in a && k !in todo :: k in b && a[k] == b[k]
      decreases todo
    {
      var k :| k in todo;
      if k !in b || b[k] != a[k] {
        return false;
      }
      todo := todo - {k};
    }
    SameKeys(a, b);
    return true;
  }

  /** Order-independent equality of two dictionaries. */
  method NameMapEqual(a: NameMap, b: NameMap) returns (eq: bool)
    ensures eq <==> a == b
  {
    var sourcesEq := StringMapEqual(a.sources, b.sources);
    var bagsEq := StringMapEqual(a.bags, b.bags);
    if !sourcesEq || !bagsEq || |a.keys| != |b.keys| {
      return false;
    }
    var todo := a.keys.Keys;
    while todo != {}
      invariant todo <= a.keys.Keys
      invariant forall k | k in a.keys && k !in todo :: k in b.keys && a.keys[k] == b.keys[k]
      decreases todo
    {
      var bagId :| bagId in todo;
      if bagId !in b.keys {
        return false;
      }
      var keysEq := StringMapEqual(a.keys[bagId], b.keys[bagId]);
      if !keysEq {
        return false;
      }
      todo := todo - {bagId};
    }
    SameKeys(a.keys, b.keys);
    return true;
  }

  // ----- shape ----------------------------------------------------------------------------------------------------

  predicate HasOpaqueIdShape(sources: set<string>, secrets: map<string, set<string>>) {
    && (forall n | n in sources :: Slots.IsSourceId(n))
    && (forall b | b in secrets :: Slots.IsBagId(b) && forall k | k in secrets[b] :: Slots.IsKeyId(k))
  }

  predicate NeedsIdMigration(c: Config) {
    !HasOpaqueIdShape(c.sources.Keys, map b | b in c.secrets :: c.secrets[b].Keys)
  }

  /** An opaque ID is eight characters: one letter for the kind, an underscore and six hexadecimal digits. */
  lemma IdsLookLike(s: string)
    ensures Slots.IsSourceId(s) <==>
            |s| == 8 && s[0] == 's' && s[1] == '_' && forall i | 2 <= i < 8 :: s[i] in "0123456789abcdef"
    ensures Slots.IsBagId(s) <==>
            |s| == 8 && s[0] == 'b' && s[1] == '_' && forall i | 2 <= i < 8 :: s[i] in "0123456789abcdef"
    ensures Slots.IsKeyId(s) <==>
            |s| == 8 && s[0] == 'k' && s[1] == '_' && forall i | 2 <= i < 8 :: s[i] in "0123456789abcdef"
  {
    HexDigits();
    assert |s| >= 2 ==> s[..2] == [s[0], s[1]];
  }

  lemma HexDigits()
    ensures forall c :: Slots.IsHex(c) <==> c in "0123456789abcdef"
  {
    forall c ensures Slots.IsHex(c) <==> c in "0123456789abcdef" {
      if '0' <= c <= '9' {
        assert "0123456789abcdef"[(c - '0') as int] == c;
      } else if 'a' <= c <= 'f' {
        assert "0123456789abcdef"[(c - 'a') as int + 10] == c;
      }
    }
  }

  /** A config needs the migration exactly when some source, bag or key is not named by an ID. */
  lemma NeedsIdMigrationExactly(c: Config)
    ensures NeedsIdMigration(c) <==>
            || (exists n :: n in c.sources && !Slots.IsSourceId(n))
            || (exists b :: b in c.secrets && !Slots.IsBagId(b))
            || (exists b, k :: b in c.secrets && k in c.secrets[b] && !Slots.IsKeyId(k))
  {
    hide Slots.IsId;
    var keysOf := map b | b in c.secrets :: c.secrets[b].Keys;
    assert forall b | b in c.secrets :: b in keysOf && keysOf[b] == c.secrets[b].Keys;
    assert forall b, k | b in c.secrets && k in c.secrets[b] :: k in keysOf[b];
  }
}
