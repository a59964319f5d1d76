/** Shares and finite sets. */
module Counting {

  /** `a.div_ceil(b)`. */
  function DivCeil(a: nat, b: nat): nat
    requires b > 0
  {
    (a + b - 1) / b
  }

  /** A rounded-up share is the least that covers the whole. */
  lemma ShareIsLeast(total: nat, parties: nat, share: nat)
    requires parties > 0
    ensures share >= DivCeil(total, parties) <==> parties * share >= total
  {
    var least, raised := DivCeil(total, parties), total + parties - 1;
    SharesCover(total, parties);
    DivisionIs(raised, parties);
    if share >= least {
      ProductGrows(parties, least, share);
    } else {
      ProductGrows(parties, share + 1, least);
      Distributes(parties, share);
    }
  }

  lemma DivisionIs(a: nat, b: nat)
    requires b > 0
    ensures b * (a / b) <= a < b * (a / b) + b
  {
    assert a == b * (a / b) + a % b;
  }

  lemma ProductGrows(n: nat, a: nat, b: nat)
    requires a <= b
    ensures n * a <= n * b
  {
    assert n * b == n * a + n * (b - a);
  }

  lemma Distributes(n: nat, a: nat)
    ensures n * (a + 1) == n * a + n
  {
  }

  /** Rounded-up shares cover the whole, and no share is empty unless the whole is. */
  lemma SharesCover(total: nat, parties: nat)
    requires parties > 0
    ensures parties * DivCeil(total, parties) >= total
    ensures total > 0 ==> DivCeil(total, parties) >= 1
  {
    var raised := total + parties - 1;
    assert raised == parties * (raised / parties) + raised % parties;
  }

  lemma {:induction false} SubsetIsSmaller<T>(a: set<T>, b: set<T>)
    requires a <= b
    ensures |a| <= |b|
  {
    if a != {} {
      var x :| x in a;
      SubsetIsSmaller(a - {x}, b - {x});
    }
  }
}
