/** Merging parsed pairs into a bag (internal/cli/bag_import.go:298-310, internal/cli/bag.go:60-94). */
module BagImport {
  import opened Envelope
  import opened ConfigModel
  import opened Live
  import Editor

  datatype Entry = Entry(key: string, value: string)

  datatype Policy = Overwrite | Skip | Ask

  datatype Stats = Stats(added: nat, overwritten: nat, skipped: nat)

  type Bag = map<string, Value>

  function Keys(pairs: seq<Entry>): set<string> {
    set p | p in pairs :: p.key
  }

  // ----- keeping the last of each key -----------------------------------------------------------------------------

  /** Position i is the last with its key. */
  predicate IsLast(pairs: seq<Entry>, i: nat)
    requires i < |pairs|
  {
    forall j | i < j < |pairs| :: pairs[j].key != pairs[i].key
  }

  /** The last occurrences among the first n positions. */
  function LastOnes(pairs: seq<Entry>, n: nat): seq<Entry>
    requires n <= |pairs|
  {
    if n == 0 then []
    else if IsLast(pairs, n - 1) then LastOnes(pairs, n - 1) + [pairs[n - 1]]
    else LastOnes(pairs, n - 1)
  }

  method DedupePairs(pairs: seq<Entry>) returns (out: seq<Entry>)
    ensures out == LastOnes(pairs, |pairs|)
  {
    var lastIdx: map<string, nat> := map[];
    for i := 0 to |pairs|
      invariant forall k | k in lastIdx :: lastIdx[k] < i && pairs[lastIdx[k]].key == k
      invariant forall j | 0 <= j < i :: pairs[j].key in lastIdx && j <= lastIdx[pairs[j].key]
    {
      lastIdx := lastIdx[pairs[i].key := i];
    }
    out := [];
    for i := 0 to |pairs|
      invariant out == LastOnes(pairs, i)
    {
      assert IsLast(pairs, i) <==> lastIdx[pairs[i].key] == i;
      if lastIdx[pairs[i].key] == i {
        out := out + [Entry(pairs[i].key, pairs[i].value)];
      }
    }
  }

  lemma {:induction false} LastOnesComeFrom(pairs: seq<Entry>, n: nat, k: string)
    requires n <= |pairs|
    ensures k in Keys(LastOnes(pairs, n)) <==> exists i :: 0 <= i < n && IsLast(pairs, i) && pairs[i].key == k
  {
    if n > 0 {
      LastOnesComeFrom(pairs, n - 1, k);
      var init := LastOnes(pairs, n - 1);
      if IsLast(pairs, n - 1) {
        assert Keys(init + [pairs[n - 1]]) == Keys(init) + {pairs[n - 1].key} by { KeysOfAppend(init, pairs[n - 1]); }
      }
    }
  }

  lemma KeysOfAppend(ps: seq<Entry>, p: Entry)
    ensures Keys(ps + [p]) == Keys(ps) + {p.key}
  {
    forall k | k in Keys(ps) ensures k in Keys(ps + [p]) {
      var q :| q in ps && q.key == k;
      assert q in ps + [p];
    }
    assert p in ps + [p];
  }

  /** The last position of a key that occurs at i or later. */
  lemma {:induction false} SomeIsLast(pairs: seq<Entry>, i: nat) returns (l: nat)
    requires i < |pairs|
    ensures i <= l < |pairs| && IsLast(pairs, l) && pairs[l].key == pairs[i].key
    decreases |pairs| - i
  {
    if IsLast(pairs, i) {
      l := i;
    } else {
      var j :| i < j < |pairs| && pairs[j].key == pairs[i].key;
      l := SomeIsLast(pairs, j);
    }
  }

  /** Every key of the input is kept exactly once. */
  lemma DedupeKeepsKeys(pairs: seq<Entry>)
    ensures Keys(LastOnes(pairs, |pairs|)) == Keys(pairs) && |LastOnes(pairs, |pairs|)| == |Keys(pairs)|
  {
    forall k ensures k in Keys(LastOnes(pairs, |pairs|)) <==> k in Keys(pairs) {
      LastOnesComeFrom(pairs, |pairs|, k);
      if k in Keys(pairs) {
        var i :| 0 <= i < |pairs| && pairs[i].key == k;
        var l := SomeIsLast(pairs, i);
      }
    }
    DistinctKeys(pairs, |pairs|);
  }

  lemma {:induction false} DistinctKeys(pairs: seq<Entry>, n: nat)
    requires n <= |pairs|
    ensures |LastOnes(pairs, n)| == |Keys(LastOnes(pairs, n))|
    ensures IsSetOfKeys(LastOnes(pairs, n))
  {
    if n > 0 {
      DistinctKeys(pairs, n - 1);
      if IsLast(pairs, n - 1) {
        LastOnesComeFrom(pairs, n - 1, pairs[n - 1].key);
        OneMoreKey(LastOnes(pairs, n - 1), pairs[n - 1]);
      }
    }
  }

  lemma OneMoreKey(ps: seq<Entry>, p: Entry)
    requires |ps| == |Keys(ps)| && IsSetOfKeys(ps) && p.key !in Keys(ps)
    ensures |ps + [p]| == |Keys(ps + [p])| && IsSetOfKeys(ps + [p])
  {
    KeysOfAppend(ps, p);
    KeysAreIn(ps);
  }

  /** No key occurs twice. */
  predicate IsSetOfKeys(ps: seq<Entry>) {
    forall i, j | 0 <= i < j < |ps| :: ps[i].key != ps[j].key
  }

  lemma KeysAreIn(ps: seq<Entry>)
    ensures forall i | 0 <= i < |ps| :: ps[i].key in Keys(ps)
  {
  }

  // ----- the merge ------------------------------------------------------------------------------------------------

  function Overwrites(policy: Policy, ask: string -> bool, key: string): bool {
    match policy
    case Overwrite => true
    case Skip => false
    case Ask => ask(key)
  }

  /** The bag after merging pair by pair. */
  function Merged(bag: Bag, pairs: seq<Entry>, policy: Policy, ask: string -> bool): Bag {
    if pairs == [] then bag
    else
      var before := Merged(bag, pairs[..|pairs| - 1], policy, ask);
      var p := pairs[|pairs| - 1];
      if p.key in before && !Overwrites(policy, ask, p.key) then before else before[p.key := Text(p.value)]
  }

  /** The bag after assigning the pairs one by one, as a shell that sources the file would. */
  function Assigned(bag: Bag, pairs: seq<Entry>): Bag {
    if pairs == [] then bag
    else Assigned(bag, pairs[..|pairs| - 1])[pairs[|pairs| - 1].key := Text(pairs[|pairs| - 1].value)]
  }

  function BagOf(c: Config, name: string): Bag {
    if name in c.secrets then c.secrets[name] else map[]
  }

  /** A new bag where there is none. */
  method EnsureBag(c: LiveConfig, name: string)
    requires c.Apart()
    modifies c`secrets
    ensures c.Apart() && name in c.secrets
    ensures c.Content() == old(c.Content()).(secrets := old(c.Content()).secrets[name := BagOf(old(c.Content()), name)])
    ensures if name in old(c.secrets) then c.secrets == old(c.secrets) else fresh(c.secrets[name])
  {
    hide SourcesContent, MappingsContent, SecretsContent, ParamsApart, MappingsApart;
    KindsApart(c);
    HeldBag(c.secrets, name);
    if name !in c.secrets {
      var made := new StrMap(map[]);
      NewBag(c.secrets, name, made);
      c.secrets := c.secrets[name := made];
      assert c !in BagObjs(c.secrets);
    }
  }

  lemma HeldBag(secrets: map<string, StrMap>, name: string)
    ensures SecretsContent(secrets).Keys == secrets.Keys
    ensures name in secrets ==>
      SecretsContent(secrets)[name := SecretsContent(secrets)[name]] == SecretsContent(secrets)
  {
  }

  lemma NewBag(secrets: map<string, StrMap>, name: string, bag: StrMap)
    ensures SecretsContent(secrets[name := bag]) == SecretsContent(secrets)[name := bag.m]
  {
  }

  /** bagUpsert: the named bag, made if there was none, gets the merged content; nothing else in the config changes. */
  method BagUpsert(c: LiveConfig, name: string, pairs: seq<Entry>, policy: Policy, ask: string -> bool)
    returns (stats: Stats)
    requires c.Apart()
    modifies c`secrets, if name in c.secrets then {c.secrets[name]} else {}
    ensures var before := old(c.Content());
            var bag := BagOf(before, name);
            && c.Content() == before.(secrets := before.secrets[name := Merged(bag, pairs, policy, ask)])
            && stats == Counted(bag, pairs, policy, ask)
  {
    hide SourcesContent, MappingsContent, SecretsContent, ParamsApart, BagsApart, MappingsApart, Merged, Counted;
    ghost var before := c.Content().secrets;
    EnsureBag(c, name);
    Editor.BagContent(c.secrets, name);
    Editor.DictionaryApart(c);
    ghost var ensured := c.Content();
    var kv;
    kv, stats := MergePairs(c.secrets[name].m, pairs, policy, ask);
    assert c.Content() == ensured;
    Editor.SetBag(c, name, kv);
    assert ensured.secrets[name := kv] == before[name := kv];
  }

  /** What each pair counts as. */
  function Counted(bag: Bag, pairs: seq<Entry>, policy: Policy, ask: string -> bool): Stats {
    if pairs == [] then Stats(0, 0, 0)
    else
      var s := Counted(bag, pairs[..|pairs| - 1], policy, ask);
      var p := pairs[|pairs| - 1];
      if p.key !in Merged(bag, pairs[..|pairs| - 1], policy, ask) then s.(added := s.added + 1)
      else if Overwrites(policy, ask, p.key) then s.(overwritten := s.overwritten + 1)
      else s.(skipped := s.skipped + 1)
  }

  /** The loop of bagUpsert. */
  method MergePairs(bag: Bag, pairs: seq<Entry>, policy: Policy, ask: string -> bool) returns (kv: Bag, stats: Stats)
    ensures kv == Merged(bag, pairs, policy, ask) && stats == Counted(bag, pairs, policy, ask)
  {
    kv := bag;
    var added, overwritten, skipped := 0, 0, 0;
    for i := 0 to |pairs|
      invariant kv == Merged(bag, pairs[..i], policy, ask)
      invariant Stats(added, overwritten, skipped) == Counted(bag, pairs[..i], policy, ask)
    {
      var p := pairs[i];
      assert pairs[..i + 1][..i] == pairs[..i] && pairs[..i + 1][i] == p;
      if p.key in kv {
        var overwrite := false;
        match policy {
          case Overwrite => overwrite := true;
          case Skip => overwrite := false;
          case Ask => overwrite := ask(p.key);
        }
        if !overwrite {
          skipped := skipped + 1;
          continue;
        }
        kv := kv[p.key := Text(p.value)];
        overwritten := overwritten + 1;
        continue;
      }
      kv := kv[p.key := Text(p.value)];
      added := added + 1;
    }
    assert pairs[..|pairs|] == pairs;
    stats := Stats(added, overwritten, skipped);
  }

  // ----- what an import does --------------------------------------------------------------------------------------

  lemma {:induction false} EveryPairCounts(bag: Bag, pairs: seq<Entry>, policy: Policy, ask: string -> bool)
    ensures var s := Counted(bag, pairs, policy, ask); s.added + s.overwritten + s.skipped == |pairs|
  {
    if pairs != [] {
      EveryPairCounts(bag, pairs[..|pairs| - 1], policy, ask);
    }
  }

  lemma {:induction false} OverwriteAssigns(bag: Bag, pairs: seq<Entry>, ask: string -> bool)
    ensures Merged(bag, pairs, Overwrite, ask) == Assigned(bag, pairs)
  {
    if pairs != [] {
      OverwriteAssigns(bag, pairs[..|pairs| - 1], ask);
    }
  }

  ghost predicate Occurs(pairs: seq<Entry>, k: string) {
    exists i :: 0 <= i < |pairs| && pairs[i].key == k
  }

  lemma OccursInLonger(init: seq<Entry>, p: Entry, k: string)
    ensures Occurs(init + [p], k) <==> Occurs(init, k) || p.key == k
  {
    var pairs := init + [p];
    if i :| 0 <= i < |init| && init[i].key == k {
      assert pairs[i].key == k;
    }
    assert pairs[|init|] == p;
  }

  /** Which keys the bag has afterwards, and that those without a pair keep their value. */
  lemma {:induction false} AssignedKeys(bag: Bag, pairs: seq<Entry>, k: string)
    ensures k in Assigned(bag, pairs) <==> k in bag || Occurs(pairs, k)
    ensures k in bag && !Occurs(pairs, k) ==> Assigned(bag, pairs)[k] == bag[k]
  {
    if pairs != [] {
      var init, p := pairs[..|pairs| - 1], pairs[|pairs| - 1];
      assert pairs == init + [p];
      AssignedKeys(bag, init, k);
      OccursInLonger(init, p, k);
      hide Occurs;
    }
  }

  /** The value a key gets is that of its last pair. */
  lemma {:induction false} LastAssignmentWins(bag: Bag, pairs: seq<Entry>, i: nat)
    requires i < |pairs| && IsLast(pairs, i)
    ensures pairs[i].key in Assigned(bag, pairs) && Assigned(bag, pairs)[pairs[i].key] == Text(pairs[i].value)
  {
    var init := pairs[..|pairs| - 1];
    if i < |init| {
      assert init[i] == pairs[i] && pairs[|pairs| - 1].key != pairs[i].key;
      assert IsLast(init, i);
      hide IsLast;
      LastAssignmentWins(bag, init, i);
    }
  }

  /** Assigning only the last pair of each key is as good as assigning all. */
  lemma DedupeKeepsAssignment(bag: Bag, pairs: seq<Entry>)
    ensures Assigned(bag, LastOnes(pairs, |pairs|)) == Assigned(bag, pairs)
  {
    var once := LastOnes(pairs, |pairs|);
    DedupeKeepsKeys(pairs);
    DistinctKeys(pairs, |pairs|);
    forall k
      ensures k in Assigned(bag, once) <==> k in Assigned(bag, pairs)
      ensures k in Assigned(bag, once) ==> Assigned(bag, once)[k] == Assigned(bag, pairs)[k]
    {
      AssignedKeys(bag, once, k);
      AssignedKeys(bag, pairs, k);
      SameOccurrences(pairs, k);
      if i :| 0 <= i < |pairs| && pairs[i].key == k {
        var l := SomeIsLast(pairs, i);
        var j := KeptAt(pairs, |pairs|, l);
        assert IsLast(once, j);
        LastAssignmentWins(bag, pairs, l);
        LastAssignmentWins(bag, once, j);
      }
    }
  }

  lemma SameOccurrences(pairs: seq<Entry>, k: string)
    ensures Occurs(pairs, k) <==> Occurs(LastOnes(pairs, |pairs|), k)
  {
    DedupeKeepsKeys(pairs);
    KeysByPosition(pairs, k);
    KeysByPosition(LastOnes(pairs, |pairs|), k);
  }

  lemma KeysByPosition(ps: seq<Entry>, k: string)
    ensures k in Keys(ps) <==> Occurs(ps, k)
  {
    KeysAreIn(ps);
  }

  lemma {:induction false} KeptAt(pairs: seq<Entry>, n: nat, l: nat) returns (j: nat)
    requires l < n <= |pairs| && IsLast(pairs, l)
    ensures j < |LastOnes(pairs, n)| && LastOnes(pairs, n)[j] == pairs[l]
  {
    if l == n - 1 {
      j := |LastOnes(pairs, n - 1)|;
    } else {
      j := KeptAt(pairs, n - 1, l);
    }
  }

  /** An import that overwrites gives the bag that assigning all parsed pairs one by one gives, and its counts add up to
      the number of distinct keys. */
  lemma ImportIsAssignment(bag: Bag, pairs: seq<Entry>, ask: string -> bool)
    ensures var once := LastOnes(pairs, |pairs|);
            var s := Counted(bag, once, Overwrite, ask);
            && Merged(bag, once, Overwrite, ask) == Assigned(bag, pairs)
            && s.added + s.overwritten + s.skipped == |Keys(pairs)|
            && s.skipped == 0
  {
    var once := LastOnes(pairs, |pairs|);
    OverwriteAssigns(bag, once, ask);
    DedupeKeepsAssignment(bag, pairs);
    DedupeKeepsKeys(pairs);
    EveryPairCounts(bag, once, Overwrite, ask);
    NothingSkipped(bag, once, ask);
  }

  lemma {:induction false} NothingSkipped(bag: Bag, pairs: seq<Entry>, ask: string -> bool)
    ensures Counted(bag, pairs, Overwrite, ask).skipped == 0
  {
    if pairs != [] {
      NothingSkipped(bag, pairs[..|pairs| - 1], ask);
    }
  }

  lemma {:induction false} MergedKeys(bag: Bag, pairs: seq<Entry>, policy: Policy, ask: string -> bool)
    ensures Merged(bag, pairs, policy, ask).Keys == bag.Keys + Keys(pairs)
  {
    if pairs != [] {
      var init, p := pairs[..|pairs| - 1], pairs[|pairs| - 1];
      MergedKeys(bag, init, policy, ask);
      assert pairs == init + [p];
      KeysOfAppend(init, p);
    }
  }

  lemma {:induction false} MergeKeepsOthers(bag: Bag, pairs: seq<Entry>, policy: Policy, ask: string -> bool, k: string)
    requires k in bag && !(k in Keys(pairs) && Overwrites(policy, ask, k))
    ensures k in Merged(bag, pairs, policy, ask) && Merged(bag, pairs, policy, ask)[k] == bag[k]
  {
    if pairs != [] {
      var init, p := pairs[..|pairs| - 1], pairs[|pairs| - 1];
      assert pairs == init + [p];
      KeysOfAppend(init, p);
      MergeKeepsOthers(bag, init, policy, ask, k);
    }
  }

  lemma OneMore(ks: set<string>, held: set<string>, k: string)
    ensures |ks + {k} - held| == |ks - held| + if k in ks + held then 0 else 1
  {
    if k in ks + held {
      assert ks + {k} - held == ks - held;
    } else {
      assert ks + {k} - held == (ks - held) + {k};
    }
  }

  lemma NoKeys(bag: Bag)
    ensures |Keys([]) - bag.Keys| == 0
  {
    assert Keys([]) == {};
  }

  lemma NothingCounted(bag: Bag, policy: Policy, ask: string -> bool)
    ensures Counted(bag, [], policy, ask).added == 0
  {
  }

  lemma CountedOne(bag: Bag, pairs: seq<Entry>, policy: Policy, ask: string -> bool)
    requires pairs != []
    ensures var init := pairs[..|pairs| - 1];
            Counted(bag, pairs, policy, ask).added ==
            Counted(bag, init, policy, ask).added
            + if pairs[|pairs| - 1].key in Merged(bag, init, policy, ask) then 0 else 1
  {
    hide Merged, Overwrites;
  }

  lemma {:induction false} AddedAreNew(bag: Bag, pairs: seq<Entry>, policy: Policy, ask: string -> bool)
    ensures Counted(bag, pairs, policy, ask).added == |Keys(pairs) - bag.Keys|
  {
    hide Keys, Merged, Counted;
    if pairs == [] {
      NoKeys(bag);
      NothingCounted(bag, policy, ask);
    } else {
      CountedOne(bag, pairs, policy, ask);
      var init, p := pairs[..|pairs| - 1], pairs[|pairs| - 1];
      AddedAreNew(bag, init, policy, ask);
      MergedKeys(bag, init, policy, ask);
      assert pairs == init + [p];
      KeysOfAppend(init, p);
      OneMore(Keys(init), bag.Keys, p.key);
    }
  }

  /** Whatever the policy, a merge never drops or renames a key, changes a key only if told to overwrite it, and counts
      as added exactly the keys the bag did not have. */
  lemma MergeRespectsPolicy(bag: Bag, pairs: seq<Entry>, policy: Policy, ask: string -> bool)
    ensures var merged := Merged(bag, pairs, policy, ask);
            && merged.Keys == bag.Keys + Keys(pairs)
            && (forall k | k in bag && !(k in Keys(pairs) && Overwrites(policy, ask, k)) :: merged[k] == bag[k])
            && Counted(bag, pairs, policy, ask).added == |Keys(pairs) - bag.Keys|
  {
    MergedKeys(bag, pairs, policy, ask);
    AddedAreNew(bag, pairs, policy, ask);
    forall k | k in bag && !(k in Keys(pairs) && Overwrites(policy, ask, k))
      ensures Merged(bag, pairs, policy, ask)[k] == bag[k]
    {
      MergeKeepsOthers(bag, pairs, policy, ask, k);
    }
  }

  // ----- the policies in words ------------------------------------------------------------------------------------

  /** With skip no key of the bag changes; with overwrite every imported key has its last value; when asked, the answer
      decides. */
  lemma PoliciesMean(bag: Bag, pairs: seq<Entry>, ask: string -> bool)
    ensures forall k | k in bag ::
      k in Merged(bag, pairs, Skip, ask) && Merged(bag, pairs, Skip, ask)[k] == bag[k]
    ensures forall i | 0 <= i < |pairs| && (forall j | i < j < |pairs| :: pairs[j].key != pairs[i].key) ::
      && pairs[i].key in Merged(bag, pairs, Overwrite, ask)
      && Merged(bag, pairs, Overwrite, ask)[pairs[i].key] == Text(pairs[i].value)
    ensures forall k | k in bag && !ask(k) ::
      k in Merged(bag, pairs, Ask, ask) && Merged(bag, pairs, Ask, ask)[k] == bag[k]
    ensures (forall k :: ask(k)) ==> Merged(bag, pairs, Ask, ask) == Merged(bag, pairs, Overwrite, ask)
    ensures Counted(bag, pairs, Skip, ask).overwritten == 0 && Counted(bag, pairs, Overwrite, ask).skipped == 0
  {
    MergedKeys(bag, pairs, Skip, ask);
    MergedKeys(bag, pairs, Ask, ask);
    forall k | k in bag ensures Merged(bag, pairs, Skip, ask)[k] == bag[k] {
      MergeKeepsOthers(bag, pairs, Skip, ask, k);
    }
    forall k | k in bag && !ask(k) ensures Merged(bag, pairs, Ask, ask)[k] == bag[k] {
      MergeKeepsOthers(bag, pairs, Ask, ask, k);
    }
    OverwriteAssigns(bag, pairs, ask);
    forall i | 0 <= i < |pairs| && (forall j | i < j < |pairs| :: pairs[j].key != pairs[i].key)
      ensures pairs[i].key in Assigned(bag, pairs) && Assigned(bag, pairs)[pairs[i].key] == Text(pairs[i].value)
    {
      LastAssignmentWins(bag, pairs, i);
    }
    if forall k :: ask(k) {
      YesIsOverwrite(bag, pairs, ask);
    }
    PoliciesCount(bag, pairs, ask);
  }

  /** Of several pairs for a key that the bag does not have, the first one stays unless the policy is to overwrite. */
  lemma {:induction false} FirstOfManyStays(bag: Bag, pairs: seq<Entry>, policy: Policy, ask: string -> bool, i: nat)
    requires i < |pairs| && pairs[i].key !in bag && forall j | 0 <= j < i :: pairs[j].key != pairs[i].key
    requires policy == Skip || (policy == Ask && !ask(pairs[i].key))
    ensures pairs[i].key in Merged(bag, pairs, policy, ask)
    ensures Merged(bag, pairs, policy, ask)[pairs[i].key] == Text(pairs[i].value)
  {
    var init := pairs[..|pairs| - 1];
    if i == |init| {
      MergedKeys(bag, init, policy, ask);
    } else {
      FirstOfManyStays(bag, init, policy, ask, i);
    }
  }

  lemma {:induction false} YesIsOverwrite(bag: Bag, pairs: seq<Entry>, ask: string -> bool)
    requires forall k :: ask(k)
    ensures Merged(bag, pairs, Ask, ask) == Merged(bag, pairs, Overwrite, ask)
  {
    if pairs != [] {
      YesIsOverwrite(bag, pairs[..|pairs| - 1], ask);
    }
  }

  lemma {:induction false} PoliciesCount(bag: Bag, pairs: seq<Entry>, ask: string -> bool)
    ensures Counted(bag, pairs, Skip, ask).overwritten == 0 && Counted(bag, pairs, Overwrite, ask).skipped == 0
  {
    if pairs != [] {
      PoliciesCount(bag, pairs[..|pairs| - 1], ask);
    }
  }
}
