/** Filling a map from a list of readings, refusing bad readings and repeated keys. The contract
    validator and the document assembler both do this in a loop. */
module KeyedEntries {
  import opened JsonValues
  import opened Sorting

  datatype Entry<K, V> = Bad | Skip | Entry(key: K, value: V)

  function Add<K(==), V>(m: map<K, V>, entry: Entry<K, V>): Result<map<K, V>> {
    match entry
    case Bad => Err
    case Skip => Ok(m)
    case Entry(key, value) => if key in m then Err else Ok(m[key := value])
  }

  /** One reading after the other. */
  function Collect<K(==), V>(s: seq<Entry<K, V>>): Result<map<K, V>> {
    if s == [] then Ok(map[])
    else match Collect(s[..|s| - 1])
      case Err => Err
      case Ok(m) => Add(m, s[|s| - 1])
  }

  lemma CollectStep<K, V>(s: seq<Entry<K, V>>, i: nat)
    requires i < |s|
    ensures Collect(s[..i + 1]) == match Collect(s[..i]) case Err => Err case Ok(m) => Add(m, s[i])
  {
    assert s[..i + 1][..i] == s[..i];
  }

  /** Once the loop has failed it fails. */
  lemma {:induction false} FailureStays<K, V>(s: seq<Entry<K, V>>, i: nat)
    requires i <= |s| && Collect(s[..i]).Err?
    ensures Collect(s).Err?
    decreases |s|
  {
    if i < |s| {
      assert s[..|s| - 1][..i] == s[..i];
      FailureStays(s[..|s| - 1], i);
    } else {
      assert s[..i] == s;
    }
  }

  function IsBad<K, V>(): Entry<K, V> -> bool { (e: Entry<K, V>) => e.Bad? }

  function HasKey<K(==), V>(key: K): Entry<K, V> -> bool { (e: Entry<K, V>) => e.Entry? && e.key == key }

  function At<K(==), V>(key: K, s: seq<Entry<K, V>>): seq<Entry<K, V>> { Filter(HasKey(key), s) }

  function Single<K(==), V>(key: K, m: map<K, V>): seq<Entry<K, V>> {
    if key in m then [Entry(key, m[key])] else []
  }

  /** No reading is bad, and each key is read exactly as often as the map holds it, with that value. */
  ghost predicate Describes<K(!new), V>(s: seq<Entry<K, V>>, m: map<K, V>) {
    Filter(IsBad(), s) == [] && forall key :: At(key, s) == Single(key, m)
  }

  lemma SplitLast<K, V>(keep: Entry<K, V> -> bool, s: seq<Entry<K, V>>)
    requires s != []
    ensures Filter(keep, s) == Filter(keep, s[..|s| - 1]) + if keep(s[|s| - 1]) then [s[|s| - 1]] else []
  {
    var last := s[|s| - 1];
    FilterJoins(keep, s[..|s| - 1], [last]);
    assert s == s[..|s| - 1] + [last];
    assert [last][1..] == [];
  }

  /** The loop succeeds with a map exactly when the readings describe that map. */
  lemma {:induction false} CollectIff<K(!new), V>(s: seq<Entry<K, V>>, m: map<K, V>)
    ensures Collect(s) == Ok(m) <==> Describes(s, m)
    decreases |s|, 1
  {
    if s == [] {
      if Describes(s, m) {
        forall key ensures key !in m {
          assert At(key, s) == Single(key, m);
        }
      }
    } else {
      if Collect(s) == Ok(m) {
        CollectGrows(s, m);
      }
      if Describes(s, m) {
        DescribedCollects(s, m);
      }
    }
  }

  lemma {:induction false} CollectGrows<K(!new), V>(s: seq<Entry<K, V>>, m: map<K, V>)
    requires s != [] && Collect(s) == Ok(m)
    ensures Describes(s, m)
    decreases |s|, 0
  {
    var shorter, last := s[..|s| - 1], s[|s| - 1];
    var before := Collect(shorter).value;
    CollectIff(shorter, before);
    SplitLast(IsBad(), s);
    forall key ensures At(key, s) == Single(key, m) {
      SplitLast(HasKey(key), s);
      assert At(key, shorter) == Single(key, before);
    }
  }

  lemma {:induction false} DescribedCollects<K(!new), V>(s: seq<Entry<K, V>>, m: map<K, V>)
    requires s != [] && Describes(s, m)
    ensures Collect(s) == Ok(m)
    decreases |s|, 0
  {
    var shorter, last := s[..|s| - 1], s[|s| - 1];
    SplitLast(IsBad(), s);
    var before := if last.Entry? then m - {last.key} else m;
    forall key ensures At(key, shorter) == Single(key, before) {
      SplitLast(HasKey(key), s);
      assert At(key, s) == Single(key, m);
    }
    CollectIff(shorter, before);
    if last.Entry? {
      SplitLast(HasKey(last.key), s);
      assert At(last.key, s) == Single(last.key, m);
      assert At(last.key, s) == [last];
      assert m == before[last.key := last.value];
    }
  }

  /** The order of the readings does not matter. */
  lemma CollectIgnoresOrder<K(!new), V>(s: seq<Entry<K, V>>, t: seq<Entry<K, V>>)
    requires multiset(s) == multiset(t)
    ensures Collect(s) == Collect(t)
  {
    if Collect(s).Ok? {
      PermutationDescribes(s, t, Collect(s).value);
    } else if Collect(t).Ok? {
      PermutationDescribes(t, s, Collect(t).value);
    }
  }

  lemma PermutationDescribes<K(!new), V>(s: seq<Entry<K, V>>, t: seq<Entry<K, V>>, m: map<K, V>)
    requires multiset(s) == multiset(t) && Collect(s) == Ok(m)
    ensures Collect(t) == Ok(m)
  {
    CollectIff(s, m);
    FilterKeepsPermutation(IsBad(), s, t);
    ShortPermutationsAgree(Filter(IsBad(), s), Filter(IsBad(), t));
    forall key ensures At(key, t) == Single(key, m) {
      assert At(key, s) == Single(key, m);
      FilterKeepsPermutation(HasKey(key), s, t);
      ShortPermutationsAgree(At(key, s), At(key, t));
    }
    CollectIff(t, m);
  }

  /** Each reading of a successful run is in the map. */
  lemma CollectedEntry<K(!new), V>(s: seq<Entry<K, V>>, i: nat)
    requires Collect(s).Ok? && i < |s|
    ensures !s[i].Bad?
    ensures s[i].Entry? ==> s[i].key in Collect(s).value && Collect(s).value[s[i].key] == s[i].value
  {
    var m := Collect(s).value;
    CollectIff(s, m);
    FilterMembers(IsBad(), s, s[i]);
    if s[i].Entry? {
      FilterMembers(HasKey(s[i].key), s, s[i]);
      assert At(s[i].key, s) == Single(s[i].key, m);
    }
  }

  /** No two readings of a successful run share a key. */
  lemma CollectedKeysDiffer<K(!new), V>(s: seq<Entry<K, V>>, i: nat, j: nat)
    requires Collect(s).Ok? && i < j < |s| && s[i].Entry? && s[j].Entry?
    ensures s[i].key != s[j].key
  {
    var m := Collect(s).value;
    CollectIff(s, m);
    var keep := HasKey<K, V>(s[i].key);
    assert s[..j] + s[j..] == s && s[j..][0] == s[j] && s[..j][i] == s[i];
    FilterJoins(keep, s[..j], s[j..]);
    assert At(s[i].key, s) == Single(s[i].key, m);
    FilterMembers(keep, s[..j], s[i]);
    FilterMembers(keep, s[j..], s[j]);
  }

  /** Everything in the map was read. */
  lemma CollectedKey<K(!new), V>(s: seq<Entry<K, V>>, key: K) returns (i: nat)
    requires Collect(s).Ok? && key in Collect(s).value
    ensures i < |s| && s[i] == Entry(key, Collect(s).value[key])
  {
    var m := Collect(s).value;
    CollectIff(s, m);
    assert At(key, s) == Single(key, m);
    FilterMembers(HasKey(key), s, At(key, s)[0]);
    i :| 0 <= i < |s| && s[i] == At(key, s)[0];
  }

  ghost predicate DistinctKeys<K, V>(s: seq<Entry<K, V>>) {
    forall i, j :: 0 <= i < j < |s| && s[i].Entry? && s[j].Entry? ==> s[i].key != s[j].key
  }

  ghost predicate NoneBad<K, V>(s: seq<Entry<K, V>>) { forall i :: 0 <= i < |s| ==> !s[i].Bad? }

  /** The loop succeeds exactly when no reading is bad and no key is read twice. */
  lemma CollectSucceedsIff<K(!new), V>(s: seq<Entry<K, V>>)
    ensures Collect(s).Ok? <==> NoneBad(s) && DistinctKeys(s)
  {
    if Collect(s).Ok? {
      forall i | 0 <= i < |s| ensures !s[i].Bad? { CollectedEntry(s, i); }
      forall i, j | 0 <= i < j < |s| && s[i].Entry? && s[j].Entry? ensures s[i].key != s[j].key { CollectedKeysDiffer(s, i, j); }
    }
    if NoneBad(s) && DistinctKeys(s) {
      DistinctCollects(s);
    }
  }

  lemma {:induction false} DistinctCollects<K(!new), V>(s: seq<Entry<K, V>>)
    requires NoneBad(s) && DistinctKeys(s)
    ensures Collect(s).Ok?
  {
    if s != [] {
      var shorter, last := s[..|s| - 1], s[|s| - 1];
      DistinctCollects(shorter);
      if last.Entry? && last.key in Collect(shorter).value {
        var i := CollectedKey(shorter, last.key);
      }
    }
  }
}
