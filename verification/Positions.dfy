/** The positions of a list that a test picks out, in order. */
module Positions {
  predicate Ascending(s: seq<nat>) { forall i, j :: 0 <= i < j < |s| ==> s[i] < s[j] }

  lemma AscendingIsInjective(s: seq<nat>, i: nat, j: nat)
    requires Ascending(s) && i < |s| && j < |s| && s[i] == s[j]
    ensures i == j
  {
  }

  /** Every position below `n` that passes the test, and no other, in order. */
  function Pick(n: nat, test: nat -> bool): (ps: seq<nat>)
    ensures Ascending(ps)
    ensures forall p: nat :: p in ps <==> p < n && test(p)
  {
    if n == 0 then []
    else
      var ps := Pick(n - 1, test);
      assert forall i :: 0 <= i < |ps| ==> ps[i] in ps;
      ps + if test(n - 1) then [n - 1] else []
  }

  /** Only what the test says below `n` matters. */
  lemma {:induction false} PickSame(n: nat, test: nat -> bool, other: nat -> bool)
    requires forall p: nat :: p < n ==> test(p) == other(p)
    ensures Pick(n, test) == Pick(n, other)
  {
    if n == 0 {
    } else {
      PickSame(n - 1, test, other);
    }
  }
}
