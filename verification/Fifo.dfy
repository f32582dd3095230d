/** Queues whose members leave at either end and join at the back keep the order of those that stay. */
module Fifo {
  import opened Common

  /** From q to q': some left at the ends, and newcomers x joined at the back. */
  predicate FlowsBy(q: seq<Tid>, q': seq<Tid>, k: nat, l: nat, x: seq<Tid>) {
    k <= l <= |q| && q' == q[k..l] + x && forall i :: 0 <= i < |x| ==> x[i] !in q
  }

  ghost predicate Flows(q: seq<Tid>, q': seq<Tid>) {
    exists k: nat, l: nat, x: seq<Tid> :: FlowsBy(q, q', k, l, x)
  }

  predicate BeforeAt(q: seq<Tid>, i: nat, j: nat, u: Tid, v: Tid) {
    i < j < |q| && q[i] == u && q[j] == v
  }

  ghost predicate Before(q: seq<Tid>, u: Tid, v: Tid) {
    exists i: nat, j: nat :: BeforeAt(q, i, j, u, v)
  }

  /** While u and v both stay in the queue, u stays ahead of v. */
  lemma FlowKeeps(q: seq<Tid>, q': seq<Tid>, u: Tid, v: Tid)
    requires Flows(q, q') && Distinct(q) && Distinct(q') && Before(q, u, v) && u in q' && v in q'
    ensures Before(q', u, v)
  {
    var k: nat, l: nat, x: seq<Tid> :| FlowsBy(q, q', k, l, x);
    var i: nat, j: nat :| BeforeAt(q, i, j, u, v);
    Stayed(q, q', k, l, x, i);
    Stayed(q, q', k, l, x, j);
    assert BeforeAt(q', i - k, j - k, u, v);
  }

  lemma Stayed(q: seq<Tid>, q': seq<Tid>, k: nat, l: nat, x: seq<Tid>, i: nat)
    requires FlowsBy(q, q', k, l, x) && Distinct(q) && i < |q| && q[i] in q'
    ensures k <= i < l && q'[i - k] == q[i]
  {
    var m: nat :| m < |q'| && q'[m] == q[i];
    if m < l - k { assert q'[m] == q[k + m]; }
  }

  lemma NotFirst(q: seq<Tid>, u: Tid, v: Tid)
    requires Before(q, u, v) && Distinct(q)
    ensures q != [] && q[0] != v
  {
  }
}
