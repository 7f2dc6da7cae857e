/** Weighted sums over the positions of a sequence of threads.

Every protocol below keeps one program position per thread in a sequence, so that a
thread is its index and the number of threads is the length. Invariants that count
threads are equations between such sums, and stay linear arithmetic under a step.
*/
module Counting {

  /** The sum of weight w over all positions. */
  ghost function Total<P>(pcs: seq<P>, w: P -> nat): nat
  {
    if pcs == [] then 0 else Total(pcs[..|pcs| - 1], w) + w(pcs[|pcs| - 1])
  }

  /** Moving one thread changes the sum by that thread's weights only. */
  lemma {:induction false} TotalUpdate<P>(pcs: seq<P>, t: nat, p: P, w: P -> nat)
    requires t < |pcs|
    ensures Total(pcs[t := p], w) + w(pcs[t]) == Total(pcs, w) + w(p)
  {
    var k := |pcs| - 1;
    if t < k {
      TotalUpdate(pcs[..k], t, p, w);
      assert pcs[t := p][..k] == pcs[..k][t := p];
    } else {
      assert pcs[t := p][..k] == pcs[..k];
    }
  }

  /** Sums compare as their weights do, up to a slack of d a thread. */
  lemma {:induction false} TotalSlack<P>(a: seq<P>, b: seq<P>, v: P -> nat, w: P -> nat, d: nat)
    requires |a| == |b|
    requires forall i :: 0 <= i < |a| ==> v(a[i]) <= w(b[i]) + d
    ensures Total(a, v) <= Total(b, w) + d * |a|
  {
    var k := |a| - 1;
    if a != [] {
      TotalSlack(a[..k], b[..k], v, w, d);
      assert d * |a| == d * k + d;
    }
  }

  /** Threads of equal weight can be exchanged for one another. */
  lemma TotalSame<P>(a: seq<P>, b: seq<P>, v: P -> nat, w: P -> nat)
    requires |a| == |b|
    requires forall i :: 0 <= i < |a| ==> v(a[i]) == w(b[i])
    ensures Total(a, v) == Total(b, w)
  {
    TotalSlack(a, b, v, w, 0);
    TotalSlack(b, a, w, v, 0);
  }

  /** A thread's weight is part of the sum. */
  lemma {:induction false} TotalAtLeast<P>(pcs: seq<P>, t: nat, w: P -> nat)
    requires t < |pcs|
    ensures w(pcs[t]) <= Total(pcs, w)
  {
    var k := |pcs| - 1;
    if t < k {
      TotalAtLeast(pcs[..k], t, w);
    }
  }

  /** Two threads' weights are both part of the sum. */
  lemma {:induction false} TotalTwo<P>(pcs: seq<P>, t: nat, u: nat, w: P -> nat)
    requires t < |pcs| && u < |pcs| && t != u
    ensures w(pcs[t]) + w(pcs[u]) <= Total(pcs, w)
  {
    var k := |pcs| - 1;
    if t < k && u < k {
      TotalTwo(pcs[..k], t, u, w);
    } else {
      TotalAtLeast(pcs[..k], if t < k then t else u, w);
    }
  }

  /** A positive sum has a thread of positive weight. */
  lemma {:induction false} TotalWitness<P>(pcs: seq<P>, w: P -> nat) returns (t: nat)
    requires Total(pcs, w) > 0
    ensures t < |pcs| && w(pcs[t]) > 0
  {
    var k := |pcs| - 1;
    if w(pcs[k]) > 0 {
      t := k;
    } else {
      t := TotalWitness(pcs[..k], w);
    }
  }

  /** Sums of separate weights add up. */
  lemma {:induction false} TotalAdd<P>(pcs: seq<P>, u: P -> nat, v: P -> nat, w: P -> nat)
    requires forall i :: 0 <= i < |pcs| ==> u(pcs[i]) + v(pcs[i]) == w(pcs[i])
    ensures Total(pcs, u) + Total(pcs, v) == Total(pcs, w)
  {
    if pcs != [] {
      TotalAdd(pcs[..|pcs| - 1], u, v, w);
    }
  }

  /** A weight that no thread has sums to nothing. */
  lemma {:induction false} TotalNone<P>(pcs: seq<P>, w: P -> nat)
    requires forall i :: 0 <= i < |pcs| ==> w(pcs[i]) == 0
    ensures Total(pcs, w) == 0
  {
    if pcs != [] {
      TotalNone(pcs[..|pcs| - 1], w);
    }
  }

  /** A weight of at most d a thread. */
  lemma {:induction false} TotalAtMost<P>(pcs: seq<P>, w: P -> nat, d: nat)
    requires forall i :: 0 <= i < |pcs| ==> w(pcs[i]) <= d
    ensures Total(pcs, w) <= d * |pcs|
  {
    if pcs != [] {
      TotalAtMost(pcs[..|pcs| - 1], w, d);
      assert d * |pcs| == d * (|pcs| - 1) + d;
    }
  }

  /** A weight of at most one counts at most every thread. */
  lemma {:induction false} TotalBound<P>(pcs: seq<P>, w: P -> nat)
    requires forall i :: 0 <= i < |pcs| ==> w(pcs[i]) <= 1
    ensures Total(pcs, w) <= |pcs|
  {
    if pcs != [] {
      TotalBound(pcs[..|pcs| - 1], w);
    }
  }

  /** A weight that every thread has counts them all. */
  lemma {:induction false} TotalAll<P>(pcs: seq<P>, w: P -> nat)
    requires forall i :: 0 <= i < |pcs| ==> w(pcs[i]) == 1
    ensures Total(pcs, w) == |pcs|
  {
    if pcs != [] {
      TotalAll(pcs[..|pcs| - 1], w);
    }
  }

  /** The weight of a number that is itself a count. */
  function Itself(n: nat): nat { n }

  lemma TotalIncrement(counts: seq<nat>, t: nat)
    requires t < |counts|
    ensures Total(counts[t := counts[t] + 1], Itself) == Total(counts, Itself) + 1
  {
    TotalUpdate(counts, t, counts[t] + 1, Itself);
  }

  /** What comes before the last element of a schedule with one more. */
  lemma AllButLast<M>(moves: seq<M>, m: M)
    ensures (moves + [m])[..|moves + [m]| - 1] == moves
  {
  }
}
