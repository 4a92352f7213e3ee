/** Counting distinct numbers below a bound. */
module Pigeonhole {

  ghost predicate DistinctBelow(order: seq<nat>, n: nat) {
    (forall i | 0 <= i < |order| :: order[i] < n)
    && (forall i, j | 0 <= i < j < |order| :: order[i] != order[j])
  }

  function Upto(n: nat): set<nat> {
    if n == 0 then {} else Upto(n - 1) + {n - 1}
  }

  lemma {:induction false} UptoMeans(n: nat, x: nat)
    ensures |Upto(n)| == n && (x in Upto(n) <==> x < n)
  {
    if n > 0 {
      UptoMeans(n - 1, x);
      UptoMeans(n - 1, n - 1);
    }
  }

  function Members(order: seq<nat>): set<nat> {
    if order == [] then {} else Members(order[..|order| - 1]) + {order[|order| - 1]}
  }

  lemma {:induction false} MembersMean(order: seq<nat>, n: nat, x: nat)
    requires DistinctBelow(order, n)
    ensures |Members(order)| == |order| && (x in Members(order) <==> x in order)
  {
    if order != [] {
      var k := |order| - 1;
      MembersMean(order[..k], n, x);
      MembersMean(order[..k], n, order[k]);
      assert x in order <==> x in order[..k] || x == order[k];
    }
  }

  lemma {:induction false} SubsetSize(a: set<nat>, b: set<nat>)
    requires a <= b
    ensures |a| <= |b|
    ensures |a| == |b| ==> a == b
  {
    assert b == a + (b - a);
  }

  // Distinct numbers below n: at most n of them, and n only if all are there.
  lemma {:induction false} Distinct(order: seq<nat>, n: nat)
    requires DistinctBelow(order, n)
    ensures |order| <= n
    ensures |order| == n <==> forall x | 0 <= x < n :: x in order
  {
    forall x: nat ensures (x in Members(order) <==> x in order) && (x in Upto(n) <==> x < n) {
      MembersMean(order, n, x);
      UptoMeans(n, x);
    }
    UptoMeans(n, 0);
    MembersMean(order, n, 0);
    SubsetSize(Members(order), Upto(n));
    if forall x | 0 <= x < n :: x in order {
      assert Members(order) == Upto(n);
    }
  }
}
