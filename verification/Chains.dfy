/** Growing chains of finite sets of numbers: where a fixpoint is reached. */
module Chains {
  /** Step k of a chain of sets: it grows, and where it stops growing it has stopped. */
  predicate Rises(levels: seq<set<nat>>, k: nat) {
    k + 1 < |levels| ==>
      && levels[k] <= levels[k + 1]
      && (k + 2 < |levels| && levels[k] == levels[k + 1] ==> levels[k + 1] == levels[k + 2])
  }

  /** A level is the last one, or the next has more than k members. */
  lemma {:induction false} Climbs(levels: seq<set<nat>>, k: nat)
    requires forall j: nat :: j <= k ==> Rises(levels, j)
    requires k + 1 < |levels|
    ensures levels[k] == levels[k + 1] || |levels[k + 1]| > k
    decreases k
  {
    assert Rises(levels, k);
    if k > 0 {
      Climbs(levels, k - 1);
      assert Rises(levels, k - 1);
    }
    if levels[k] != levels[k + 1] {
      Smaller(levels[k], levels[k + 1]);
    }
  }

  /** A chain of sets of numbers below n has stopped growing after n steps. */
  lemma {:induction false} ChainStops(levels: seq<set<nat>>, n: nat)
    requires |levels| == n + 2 && (forall j: nat :: j <= n ==> Rises(levels, j))
    requires Below(levels[n + 1], n)
    ensures levels[n] == levels[n + 1]
  {
    Climbs(levels, n);
    AtMost(levels[n + 1], n);
  }

  lemma {:induction false} Smaller(a: set<nat>, b: set<nat>)
    requires a <= b && a != b
    ensures |a| < |b|
  {
    var x :| x in b && x !in a;
    var rest := b - a;
    assert x in rest && b == a + rest;
  }

  predicate Below(a: set<nat>, n: nat) {
    forall x :: x in a ==> x < n
  }

  lemma {:induction false} AtMost(a: set<nat>, n: nat)
    requires Below(a, n)
    ensures |a| <= n
    decreases n
  {
    if n == 0 {
      assert a == {};
    } else {
      AtMost(a - {n - 1}, n - 1);
      assert a <= (a - {n - 1}) + {n - 1};
      if n - 1 in a {
        assert a == (a - {n - 1}) + {n - 1};
      } else {
        assert a == a - {n - 1};
      }
    }
  }
}
