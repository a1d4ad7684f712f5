/** The associated data that binds every sealed value to its place in the config, after internal/config/edit.go. */
module Slots {
  import opened Wrappers
  import opened Text
  import opened Envelope

  datatype Field = Name | Source | Ref | Key | Value

  function FieldName(f: Field): string {
    match f
    case Name => "name"
    case Source => "source"
    case Ref => "ref"
    case Key => "key"
    case Value => "value"
  }

  const FIELDS := [Name, Source, Ref, Key, Value]

  lemma FieldsAreAll(f: Field)
    ensures f in FIELDS
  {
    assert FIELDS[0] == Name && FIELDS[1] == Source && FIELDS[2] == Ref && FIELDS[3] == Key && FIELDS[4] == Value;
  }

  datatype Slot =
    | SourceParam(sourceId: string, param: string)
    | Secret(bagId: string, keyId: string)
    | VarField(mapping: nat, variable: nat, field: Field)
    | VarExtra(mapping: nat, variable: nat, extra: string)
    | NameMapSlot

  function SourceParamAad(sourceId: string, param: string): Result<string, Failure> {
    Aad(["src", sourceId, param])
  }

  function SecretAad(bagId: string, keyId: string): Result<string, Failure> {
    Aad(["secret", bagId, keyId])
  }

  function VarFieldAad(i: nat, j: nat, f: Field): Result<string, Failure> {
    Aad(["var", Decimal(i), Decimal(j), FieldName(f)])
  }

  function VarExtraAad(i: nat, j: nat, k: string): Result<string, Failure> {
    Aad(["var", Decimal(i), Decimal(j), "extra", k])
  }

  const NAME_MAP_AAD := "meta.name_map"

  function SlotAad(s: Slot): Result<string, Failure> {
    match s
    case SourceParam(id, p) => SourceParamAad(id, p)
    case Secret(b, k) => SecretAad(b, k)
    case VarField(i, j, f) => VarFieldAad(i, j, f)
    case VarExtra(i, j, k) => VarExtraAad(i, j, k)
    case NameMapSlot => Ok(NAME_MAP_AAD)
  }

  /** Opaque IDs: a two-character prefix and six lower-case hexadecimal digits. */
  const SOURCE_PREFIX := "s_"
  const BAG_PREFIX := "b_"
  const KEY_PREFIX := "k_"
  const ID_HEX_LEN := 6

  predicate IsHex(c: char) {
    '0' <= c <= '9' || 'a' <= c <= 'f'
  }

  predicate IsId(s: string, prefix: string) {
    prefix <= s && |s| == |prefix| + ID_HEX_LEN && forall i | |prefix| <= i < |s| :: IsHex(s[i])
  }

  predicate IsSourceId(s: string) { IsId(s, SOURCE_PREFIX) }
  predicate IsBagId(s: string) { IsId(s, BAG_PREFIX) }
  predicate IsKeyId(s: string) { IsId(s, KEY_PREFIX) }

  /** The slots a save of an ID-keyed config can write. */
  predicate IdShaped(s: Slot) {
    match s
    case SourceParam(id, _) => IsSourceId(id)
    case Secret(b, k) => IsBagId(b) && IsKeyId(k)
    case _ => true
  }

  lemma IdHasNoDot(s: string, prefix: string)
    requires IsId(s, prefix) && '.' !in prefix
    ensures '.' !in s && s != ""
  {
    forall i | 0 <= i < |s| ensures s[i] != '.' {
      if i < |prefix| {
        assert s[i] == prefix[i];
      }
    }
    assert |s| >= ID_HEX_LEN;
  }

  lemma JoinUnfolds(a: string, b: string, c: string, d: string, e: string)
    ensures Join([a, b, c]) == a + "." + (b + "." + c)
    ensures Join([a, b, c, d]) == a + "." + (b + "." + (c + "." + d))
    ensures Join([a, b, c, d, e]) == a + "." + (b + "." + (c + "." + (d + "." + e)))
  {
    JoinThree(a, b, c);
    JoinThree(b, c, d);
    JoinThree(c, d, e);
    assert [a, b, c, d][1..] == [b, c, d];
    assert [b, c, d, e][1..] == [c, d, e];
    assert [a, b, c, d, e][1..] == [b, c, d, e];
    assert Join([b, c, d, e]) == b + "." + Join([c, d, e]);
  }

  lemma JoinThree(a: string, b: string, c: string)
    ensures Join([a, b, c]) == a + "." + (b + "." + c)
  {
    assert [a, b, c][1..] == [b, c];
    assert [b, c][1..] == [c];
    assert Join([c]) == c;
    assert Join([b, c]) == b + "." + Join([c]);
  }

  /** The first dotted part names the kind of slot. */
  function Kind(s: Slot): string {
    match s
    case SourceParam(_, _) => "src"
    case Secret(_, _) => "secret"
    case VarField(_, _, _) => "var"
    case VarExtra(_, _, _) => "var"
    case NameMapSlot => "meta"
  }

  /** What follows the kind. */
  function Tail(s: Slot): string {
    match s
    case SourceParam(id, p) => id + "." + p
    case Secret(b, k) => b + "." + k
    case VarField(i, j, f) => Decimal(i) + "." + (Decimal(j) + "." + FieldName(f))
    case VarExtra(i, j, k) => Decimal(i) + "." + (Decimal(j) + "." + ("extra" + "." + k))
    case NameMapSlot => "name_map"
  }

  /** The dotted name of a slot. */
  function SlotName(s: Slot): string {
    Kind(s) + "." + Tail(s)
  }

  lemma SlotAadIsSlotName(s: Slot)
    requires SlotAad(s).Ok?
    ensures SlotAad(s).value == SlotName(s)
  {
    match s
    case SourceParam(id, p) => JoinUnfolds("src", id, p, "", "");
    case Secret(b, k) => JoinUnfolds("secret", b, k, "", "");
    case VarField(i, j, f) => JoinUnfolds("var", Decimal(i), Decimal(j), FieldName(f), "");
    case VarExtra(i, j, k) => JoinUnfolds("var", Decimal(i), Decimal(j), "extra", k);
    case NameMapSlot =>
  }

  lemma DecimalHasNoDot(n: nat)
    ensures '.' !in Decimal(n)
  {
    DecimalReadsBack(n);
  }

  lemma VarTailInjective(i: nat, j: nat, x: string, i': nat, j': nat, x': string)
    requires Decimal(i) + "." + (Decimal(j) + "." + x) == Decimal(i') + "." + (Decimal(j') + "." + x')
    ensures i == i' && j == j' && x == x'
  {
    DecimalHasNoDot(i); DecimalHasNoDot(j); DecimalHasNoDot(i'); DecimalHasNoDot(j');
    HeadIsRecovered(Decimal(i), Decimal(i'), Decimal(j) + "." + x, Decimal(j') + "." + x');
    HeadIsRecovered(Decimal(j), Decimal(j'), x, x');
    DecimalInjective(i, i');
    DecimalInjective(j, j');
  }

  lemma IdHeadIsRecovered(prefix: string, id: string, x: string, id': string, x': string)
    requires '.' !in prefix && IsId(id, prefix) && IsId(id', prefix) && id + "." + x == id' + "." + x'
    ensures id == id' && x == x'
  {
    IdHasNoDot(id, prefix);
    IdHasNoDot(id', prefix);
    HeadIsRecovered(id, id', x, x');
  }

  lemma FieldNamesDiffer(f: Field, g: Field)
    requires FieldName(f) == FieldName(g)
    ensures f == g
  {
    assert |"key"| != |"ref"| || "key"[0] != "ref"[0];
    assert |"source"| == 6 && |"value"| == 5 && |"name"| == 4;
  }

  /** Slots over ID-shaped coordinates, any indices, fields, parameter names and extra names have distinct names. */
  lemma SlotNamesAreInjective(s: Slot, t: Slot)
    requires IdShaped(s) && IdShaped(t)
    requires SlotName(s) == SlotName(t)
    ensures s == t
  {
    SameKind(s, t);
    hide IsId, Decimal, FieldName;
    match (s, t) {
      case (SourceParam(id, p), SourceParam(id', p')) => IdHeadIsRecovered(SOURCE_PREFIX, id, p, id', p');
      case (Secret(b, k), Secret(b', k')) => IdHeadIsRecovered(BAG_PREFIX, b, k, b', k');
      case (VarField(i, j, f), VarField(i', j', f')) =>
        VarTailInjective(i, j, FieldName(f), i', j', FieldName(f'));
        FieldNamesDiffer(f, f');
      case (VarExtra(i, j, k), VarExtra(i', j', k')) =>
        VarTailInjective(i, j, "extra" + "." + k, i', j', "extra" + "." + k');
        HeadIsRecovered("extra", "extra", k, k');
      case (VarField(i, j, f), VarExtra(i', j', k')) =>
        VarTailInjective(i, j, FieldName(f), i', j', "extra" + "." + k');
        ExtraIsNoField(f, k');
      case (VarExtra(i, j, k), VarField(i', j', f')) =>
        VarTailInjective(i, j, "extra" + "." + k, i', j', FieldName(f'));
        ExtraIsNoField(f', k);
      case (NameMapSlot, NameMapSlot) =>
      case _ => KindsDiffer(s, t);
    }
  }

  /** A slot that is not over ID-shaped coordinates shares its name with one that is only if both are parameters. */
  lemma SharedName(s: Slot, t: Slot)
    requires s != t && IdShaped(t) && SlotName(s) == SlotName(t)
    ensures s.SourceParam? && t.SourceParam? && !IsSourceId(s.sourceId) && s.sourceId != ""
  {
    if IdShaped(s) {
      SlotNamesAreInjective(s, t);
    }
    SameKind(s, t);
    KindsDiffer(s, t);
    if s.Secret? {
      SecretNameIsRecovered(s, t);
    } else {
      ParamIdIsNotEmpty(s, t);
    }
  }

  lemma ParamIdIsNotEmpty(s: Slot, t: Slot)
    requires s.SourceParam? && t.SourceParam? && IsSourceId(t.sourceId) && Tail(s) == Tail(t)
    ensures s.sourceId != ""
  {
    FirstOf(s.sourceId, s.param);
    FirstOf(t.sourceId, t.param);
    assert t.sourceId[0] == SOURCE_PREFIX[0];
  }

  lemma FirstOf(a: string, x: string)
    ensures (a + "." + x)[0] == if a == "" then '.' else a[0]
  {
  }

  /** The one dot of a secret's tail separates its two parts. */
  lemma SecretNameIsRecovered(s: Slot, t: Slot)
    requires s.Secret? && t.Secret? && IdShaped(t) && Tail(s) == Tail(t)
    ensures s == t
  {
    IdHasNoDot(t.bagId, BAG_PREFIX);
    IdHasNoDot(t.keyId, KEY_PREFIX);
    var x, y := Tail(s), Tail(t);
    assert forall i | 0 <= i < |y| :: y[i] == '.' <==> i == |t.bagId| by {
      assert forall i | 0 <= i < |t.bagId| :: y[i] == t.bagId[i];
      assert forall i | |t.bagId| < i < |y| :: y[i] == t.keyId[i - |t.bagId| - 1];
    }
    assert x[|s.bagId|] == '.';
    assert s.bagId == x[..|s.bagId|] && t.bagId == y[..|t.bagId|];
    assert s.keyId == x[|s.bagId| + 1..] && t.keyId == y[|t.bagId| + 1..];
  }

  lemma SameKind(s: Slot, t: Slot)
    requires SlotName(s) == SlotName(t)
    ensures Kind(s) == Kind(t) && Tail(s) == Tail(t)
  {
    hide Tail;
    assert '.' !in Kind(s) && '.' !in Kind(t);
    HeadIsRecovered(Kind(s), Kind(t), Tail(s), Tail(t));
  }

  lemma ExtraIsNoField(f: Field, k: string)
    ensures FieldName(f) != "extra" + "." + k
  {
    assert ("extra" + "." + k)[5] == '.';
    match f {
      case Source => assert "source"[5] == 'e';
      case _ =>
    }
  }

  lemma KindsDiffer(s: Slot, t: Slot)
    requires Kind(s) == Kind(t)
    ensures Kind(s) == "var" || (s.SourceParam? && t.SourceParam?) || (s.Secret? && t.Secret?) || s == t
  {
    assert |"src"| == 3 && |"secret"| == 6 && |"var"| == 3 && |"meta"| == 4;
    assert "src"[0] != "var"[0];
  }

  /** The names in full. */
  lemma SlotNamesInFull(id: string, p: string, i: nat, j: nat, k: string)
    ensures SlotName(SourceParam(id, p)) == "src." + id + "." + p
    ensures SlotName(Secret(id, p)) == "secret." + id + "." + p
    ensures SlotName(VarExtra(i, j, k)) == "var." + Decimal(i) + "." + Decimal(j) + ".extra." + k
    ensures SlotName(NameMapSlot) == "meta.name_map"
  {
    hide Decimal;
    TwoParts("src", "src.", id, p);
    TwoParts("secret", "secret.", id, p);
    var m, n := Decimal(i), Decimal(j);
    ThreeParts(m, n, "extra" + "." + k);
    assert "." + ("extra" + "." + k) == ".extra." + k;
    Regroup("var." + m + "." + n, ".extra.", k);
    assert "meta" + "." + "name_map" == "meta.name_map";
  }

  lemma TwoParts(kind: string, dotted: string, a: string, b: string)
    requires dotted == kind + "."
    ensures kind + "." + (a + "." + b) == dotted + a + "." + b
  {
  }

  lemma ThreeParts(m: string, n: string, rest: string)
    ensures "var" + "." + (m + "." + (n + "." + rest)) == "var." + m + "." + n + ("." + rest)
  {
    assert "var" + "." == "var.";
  }

  lemma Regroup(a: string, b: string, c: string)
    ensures a + (b + c) == a + b + c
  {
  }

  lemma FieldNamesInFull(i: nat, j: nat)
    ensures var head := "var." + Decimal(i) + "." + Decimal(j);
            && SlotName(VarField(i, j, Name)) == head + ".name"
            && SlotName(VarField(i, j, Source)) == head + ".source"
            && SlotName(VarField(i, j, Ref)) == head + ".ref"
            && SlotName(VarField(i, j, Key)) == head + ".key"
            && SlotName(VarField(i, j, Value)) == head + ".value"
  {
    FieldNameInFull(i, j, Name, "name", ".name");
    FieldNameInFull(i, j, Source, "source", ".source");
    FieldNameInFull(i, j, Ref, "ref", ".ref");
    FieldNameInFull(i, j, Key, "key", ".key");
    FieldNameInFull(i, j, Value, "value", ".value");
    hide SlotName, Decimal;
  }

  lemma FieldNameInFull(i: nat, j: nat, f: Field, n: string, dotted: string)
    requires FieldName(f) == n && dotted == "." + n
    ensures SlotName(VarField(i, j, f)) == "var." + Decimal(i) + "." + Decimal(j) + dotted
  {
    hide Decimal, FieldName;
    ThreeParts(Decimal(i), Decimal(j), n);
  }
}
