/** Stable insertion sort over an arbitrary order, and why its result does not depend on the input order.

    The source sorts twice: route entries by their derived order and JSON array elements by
    their rendered text. Both are library sorts; any stable sort computes this function. */
module Sorting {

  ghost predicate TotalPreorder<T(!new)>(le: (T, T) -> bool) {
    && (forall a, b :: le(a, b) || le(b, a))
    && (forall a, b, c :: le(a, b) && le(b, c) ==> le(a, c))
  }

  ghost predicate Antisymmetric<T(!new)>(le: (T, T) -> bool) {
    forall a, b :: le(a, b) && le(b, a) ==> a == b
  }

  ghost predicate Sorted<T>(le: (T, T) -> bool, s: seq<T>) {
    forall i, j :: 0 <= i < j < |s| ==> le(s[i], s[j])
  }

  ghost predicate Reorders<T>(s: seq<T>, t: seq<T>) { |s| == |t| && multiset(s) == multiset(t) }

  function Insert<T>(le: (T, T) -> bool, x: T, s: seq<T>): seq<T> {
    if s == [] || le(x, s[0]) then [x] + s else [s[0]] + Insert(le, x, s[1..])
  }

  function Sort<T>(le: (T, T) -> bool, s: seq<T>): seq<T> {
    if s == [] then [] else Insert(le, s[0], Sort(le, s[1..]))
  }

  lemma {:induction false} InsertKeepsElements<T>(le: (T, T) -> bool, x: T, s: seq<T>)
    ensures multiset(Insert(le, x, s)) == multiset{x} + multiset(s)
  {
    if s != [] && !le(x, s[0]) {
      InsertKeepsElements(le, x, s[1..]);
      assert s == [s[0]] + s[1..];
    }
  }

  lemma {:induction false} InsertKeepsSorted<T(!new)>(le: (T, T) -> bool, x: T, s: seq<T>)
    requires TotalPreorder(le) && Sorted(le, s)
    ensures Sorted(le, Insert(le, x, s))
  {
    if s != [] && !le(x, s[0]) {
      var rest := Insert(le, x, s[1..]);
      InsertKeepsSorted(le, x, s[1..]);
      InsertKeepsElements(le, x, s[1..]);
      forall j | 0 <= j < |rest| ensures le(s[0], rest[j]) {
        assert rest[j] in multiset(rest);
        assert rest[j] == x || rest[j] in multiset(s[1..]);
        if rest[j] != x {
          assert rest[j] in s[1..];
        }
      }
    }
  }

  /** Sorting permutes. */
  lemma {:induction false} SortKeepsElements<T>(le: (T, T) -> bool, s: seq<T>)
    ensures multiset(Sort(le, s)) == multiset(s)
    ensures |Sort(le, s)| == |s|
  {
    if s != [] {
      SortKeepsElements(le, s[1..]);
      InsertKeepsElements(le, s[0], Sort(le, s[1..]));
      assert s == [s[0]] + s[1..];
    }
    assert |multiset(Sort(le, s))| == |Sort(le, s)|;
  }

  lemma {:induction false} SortSorts<T(!new)>(le: (T, T) -> bool, s: seq<T>)
    requires TotalPreorder(le)
    ensures Sorted(le, Sort(le, s))
  {
    if s != [] {
      SortSorts(le, s[1..]);
      InsertKeepsSorted(le, s[0], Sort(le, s[1..]));
    }
  }

  /** A sorted sequence is a fixed point. */
  lemma {:induction false} SortFixesSorted<T>(le: (T, T) -> bool, s: seq<T>)
    requires Sorted(le, s)
    ensures Sort(le, s) == s
  {
    if s != [] {
      SortFixesSorted(le, s[1..]);
      assert s == [s[0]] + s[1..];
    }
  }

  lemma {:induction false} SortedHeadsAgree<T(!new)>(le: (T, T) -> bool, s: seq<T>, t: seq<T>)
    requires TotalPreorder(le) && Antisymmetric(le) && s != [] && t != []
    requires Sorted(le, s) && Sorted(le, t) && multiset(s) == multiset(t)
    ensures s[0] == t[0]
  {
    assert s[0] in multiset(t) && t[0] in multiset(s);
    assert s[0] in t && t[0] in s;
    assert le(s[0], t[0]) && le(t[0], s[0]);
  }

  lemma {:induction false} TailsPermute<T>(s: seq<T>, t: seq<T>)
    requires s != [] && t != [] && s[0] == t[0] && multiset(s) == multiset(t)
    ensures multiset(s[1..]) == multiset(t[1..])
  {
    assert s == [s[0]] + s[1..] && t == [t[0]] + t[1..];
    assert multiset(s[1..]) == multiset(s) - multiset{s[0]};
    assert multiset(t[1..]) == multiset(t) - multiset{t[0]};
  }

  lemma {:induction false} SortedPermutationsAgree<T(!new)>(le: (T, T) -> bool, s: seq<T>, t: seq<T>)
    requires TotalPreorder(le) && Antisymmetric(le)
    requires Sorted(le, s) && Sorted(le, t) && multiset(s) == multiset(t)
    ensures s == t
  {
    assert |multiset(s)| == |s| && |multiset(t)| == |t|;
    if s != [] {
      SortedHeadsAgree(le, s, t);
      TailsPermute(s, t);
      SortedPermutationsAgree(le, s[1..], t[1..]);
      assert s == [s[0]] + s[1..] && t == [t[0]] + t[1..];
    }
  }

  /** Under a total order two sequences sort to the same result exactly when one permutes the other. */
  lemma SortIgnoresOrder<T(!new)>(le: (T, T) -> bool, s: seq<T>, t: seq<T>)
    requires TotalPreorder(le) && Antisymmetric(le)
    ensures Sort(le, s) == Sort(le, t) <==> multiset(s) == multiset(t)
  {
    SortKeepsElements(le, s);
    SortKeepsElements(le, t);
    if multiset(s) == multiset(t) {
      SortSorts(le, s);
      SortSorts(le, t);
      SortedPermutationsAgree(le, Sort(le, s), Sort(le, t));
    }
  }

  /** Lexicographic order of strings by code point. */
  predicate StringLe(a: string, b: string) {
    a == [] || (b != [] && (a[0] < b[0] || (a[0] == b[0] && StringLe(a[1..], b[1..]))))
  }

  lemma {:induction false} StringLeTotal(a: string, b: string)
    ensures StringLe(a, b) || StringLe(b, a)
    ensures StringLe(a, b) && StringLe(b, a) ==> a == b
  {
    if a != [] && b != [] {
      StringLeTotal(a[1..], b[1..]);
      assert a == [a[0]] + a[1..] && b == [b[0]] + b[1..];
    }
  }

  lemma {:induction false} StringLeTransitive(a: string, b: string, c: string)
    requires StringLe(a, b) && StringLe(b, c)
    ensures StringLe(a, c)
  {
    if a != [] && a[0] == b[0] == c[0] {
      StringLeTransitive(a[1..], b[1..], c[1..]);
    }
  }

  /** Mapping a function over permuted sequences gives permuted images. */
  function Map<A, B>(f: A -> B, s: seq<A>): (r: seq<B>)
    ensures |r| == |s| && forall i :: 0 <= i < |s| ==> r[i] == f(s[i])
  {
    if s == [] then [] else [f(s[0])] + Map(f, s[1..])
  }

  lemma {:induction false} MapSplits<A, B>(f: A -> B, s: seq<A>, i: nat)
    requires i < |s|
    ensures multiset(Map(f, s)) == multiset(Map(f, s[..i] + s[i+1..])) + multiset{f(s[i])}
  {
    var rest := s[..i] + s[i+1..];
    assert Map(f, s) == Map(f, s)[..i] + [f(s[i])] + Map(f, s)[i+1..];
    assert Map(f, rest) == Map(f, s)[..i] + Map(f, s)[i+1..];
  }

  /** The head of a sequence can be taken out of any permutation of it. */
  lemma {:induction false} HeadInPermutation<A>(s: seq<A>, t: seq<A>) returns (i: nat)
    requires multiset(s) == multiset(t) && s != []
    ensures i < |t| && t[i] == s[0] && multiset(s[1..]) == multiset(t[..i] + t[i+1..])
  {
    assert s[0] in multiset(t);
    i :| 0 <= i < |t| && t[i] == s[0];
    assert s == [s[0]] + s[1..];
    assert t == t[..i] + [t[i]] + t[i+1..];
    assert multiset(s[1..]) == multiset(s) - multiset{s[0]};
    assert multiset(t[..i] + t[i+1..]) == multiset(t) - multiset{s[0]};
  }

  lemma {:induction false} MapKeepsPermutation<A, B>(f: A -> B, s: seq<A>, t: seq<A>)
    requires multiset(s) == multiset(t)
    ensures multiset(Map(f, s)) == multiset(Map(f, t))
  {
    assert |multiset(s)| == |s| && |multiset(t)| == |t|;
    if s != [] {
      var i := HeadInPermutation(s, t);
      MapSplits(f, s, 0);
      MapSplits(f, t, i);
      assert s[..0] + s[1..] == s[1..];
      MapKeepsPermutation(f, s[1..], t[..i] + t[i+1..]);
    }
  }

  function Filter<A>(keep: A -> bool, s: seq<A>): seq<A> {
    if s == [] then [] else (if keep(s[0]) then [s[0]] else []) + Filter(keep, s[1..])
  }

  lemma {:induction false} FilterMembers<A>(keep: A -> bool, s: seq<A>, x: A)
    ensures x in Filter(keep, s) <==> x in s && keep(x)
  {
    if s != [] {
      FilterMembers(keep, s[1..], x);
      assert s == [s[0]] + s[1..];
    }
  }

  function KeptHead<A>(keep: A -> bool, x: A): seq<A> { if keep(x) then [x] else [] }

  lemma {:induction false} FilterUnfolds<A>(keep: A -> bool, x: A, s: seq<A>)
    ensures Filter(keep, [x] + s) == KeptHead(keep, x) + Filter(keep, s)
  {
    assert ([x] + s)[1..] == s;
  }

  lemma {:induction false} FilterJoins<A>(keep: A -> bool, s: seq<A>, t: seq<A>)
    ensures Filter(keep, s + t) == Filter(keep, s) + Filter(keep, t)
  {
    if s == [] {
      assert s + t == t;
    } else {
      var x, rest := s[0], s[1..];
      assert s == [x] + rest && s + t == [x] + (rest + t);
      FilterUnfolds(keep, x, rest + t);
      FilterUnfolds(keep, x, rest);
      FilterJoins(keep, rest, t);
    }
  }

  lemma {:induction false} MiddleToFront<A>(a: seq<A>, m: seq<A>, b: seq<A>)
    ensures multiset(a + (m + b)) == multiset(m) + multiset(a + b)
  {
    assert multiset(a + (m + b)) == multiset(a) + multiset(m) + multiset(b);
  }

  lemma {:induction false} FilterAround<A>(keep: A -> bool, first: seq<A>, x: A, last: seq<A>)
    ensures multiset(Filter(keep, first + ([x] + last))) == multiset(KeptHead(keep, x)) + multiset(Filter(keep, first + last))
  {
    FilterJoins(keep, first, last);
    FilterJoins(keep, first, [x] + last);
    FilterUnfolds(keep, x, last);
    MiddleToFront(Filter(keep, first), KeptHead(keep, x), Filter(keep, last));
  }

  lemma {:induction false} FilterTakesOut<A>(keep: A -> bool, t: seq<A>, i: nat)
    requires i < |t|
    ensures multiset(Filter(keep, t)) == multiset(KeptHead(keep, t[i])) + multiset(Filter(keep, t[..i] + t[i+1..]))
  {
    FilterAround(keep, t[..i], t[i], t[i+1..]);
    assert t == t[..i] + ([t[i]] + t[i+1..]);
  }

  /** Filtering permuted sequences gives permuted results. */
  lemma {:induction false} FilterKeepsPermutation<A>(keep: A -> bool, s: seq<A>, t: seq<A>)
    requires multiset(s) == multiset(t)
    ensures multiset(Filter(keep, s)) == multiset(Filter(keep, t))
  {
    assert |multiset(s)| == |s| && |multiset(t)| == |t|;
    if s != [] {
      var i := HeadInPermutation(s, t);
      FilterKeepsPermutation(keep, s[1..], t[..i] + t[i+1..]);
      FilterTakesOut(keep, t, i);
      FilterTakesOut(keep, s, 0);
      assert s[..0] + s[1..] == s[1..];
    }
  }

  lemma ShortPermutationsAgree<T>(s: seq<T>, t: seq<T>)
    requires multiset(s) == multiset(t)
    ensures |s| == |t| && (|s| <= 1 ==> s == t)
  {
    assert |multiset(s)| == |s| && |multiset(t)| == |t|;
    if |s| == 1 {
      assert s[0] in multiset(t);
    }
  }

  // ---------------------------------------------------------------- aligning permuted images

  lemma {:induction false} AlignHead<A, B>(f: A -> B, s: seq<A>, t: seq<A>) returns (i: nat)
    requires multiset(Map(f, s)) == multiset(Map(f, t)) && s != []
    ensures i < |t| && f(t[i]) == f(s[0])
    ensures multiset(Map(f, s[1..])) == multiset(Map(f, t[..i] + t[i+1..]))
  {
    i := HeadInPermutation(Map(f, s), Map(f, t));
    MapTail(f, s);
    MapWithout(f, t, i);
  }

  lemma {:induction false} MapTail<A, B>(f: A -> B, s: seq<A>)
    requires s != []
    ensures Map(f, s)[0] == f(s[0]) && Map(f, s)[1..] == Map(f, s[1..])
  {
  }

  lemma {:induction false} MapWithout<A, B>(f: A -> B, t: seq<A>, i: nat)
    requires i < |t|
    ensures Map(f, t)[i] == f(t[i]) && Map(f, t)[..i] + Map(f, t)[i+1..] == Map(f, t[..i] + t[i+1..])
  {
  }

  /** If the images of two arrays are permutations of each other, the second array can be reordered
      so that the images agree position by position. */
  lemma {:induction false} Realign<A, B>(f: A -> B, s: seq<A>, t: seq<A>) returns (r: seq<A>)
    requires multiset(Map(f, s)) == multiset(Map(f, t))
    ensures |r| == |s| == |t| && multiset(r) == multiset(t)
    ensures forall k :: 0 <= k < |r| ==> f(r[k]) == f(s[k])
    decreases |s|
  {
    assert |multiset(Map(f, s))| == |s| && |multiset(Map(f, t))| == |t|;
    if s == [] {
      r := [];
    } else {
      var i := AlignHead(f, s, t);
      var rest := Realign(f, s[1..], t[..i] + t[i+1..]);
      Retaken(t, i, rest);
      r := [t[i]] + rest;
    }
  }

  lemma {:induction false} Retaken<A>(t: seq<A>, i: nat, rest: seq<A>)
    requires i < |t| && multiset(rest) == multiset(t[..i] + t[i+1..])
    ensures multiset([t[i]] + rest) == multiset(t)
  {
    MiddleToFront(t[..i], [t[i]], t[i+1..]);
    assert t[..i] + ([t[i]] + t[i+1..]) == t;
    assert multiset([t[i]] + rest) == multiset([t[i]]) + multiset(rest);
  }

  // ---------------------------------------------------------------- sorted on one side or on both

  function SortIf<T>(le: (T, T) -> bool, loose: bool, s: seq<T>): seq<T> { if loose then Sort(le, s) else s }

  /** Two sequences of which at least one is sorted first come out equal exactly when they are
      permutations of each other and the one that is not sorted first is in order already. */
  lemma {:induction false} SortIfEqualIff<T(!new)>(le: (T, T) -> bool, a: bool, s: seq<T>, b: bool, t: seq<T>)
    requires TotalPreorder(le) && Antisymmetric(le) && (a || b)
    ensures SortIf(le, a, s) == SortIf(le, b, t) <==>
              multiset(s) == multiset(t) && (!a ==> Sorted(le, s)) && (!b ==> Sorted(le, t))
  {
    SortIgnoresOrder(le, s, t);
    SortKeepsElements(le, s);
    SortKeepsElements(le, t);
    SortSorts(le, s);
    SortSorts(le, t);
    if multiset(s) == multiset(t) {
      if !a && Sorted(le, s) {
        SortedPermutationsAgree(le, s, Sort(le, t));
      } else if !b && Sorted(le, t) {
        SortedPermutationsAgree(le, Sort(le, s), t);
      }
    }
  }
}
