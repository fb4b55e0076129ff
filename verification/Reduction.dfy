/**
 The parallel sum of the K-means kernel: in round h every thread adds the cell 2^h further on to its
 own. Over exact numbers, and for any number of cells and rounds.
 */
module Reduction {
  import opened Words

  /** The cells from `lo` up to `hi`, summed from the left. */
  function Sum(a: seq<real>, lo: nat, hi: nat): real
    requires lo <= hi <= |a|
    decreases hi
  {
    if lo == hi then 0.0 else Sum(a, lo, hi - 1) + a[hi - 1]
  }

  lemma {:induction false} SumSplit(a: seq<real>, lo: nat, mid: nat, hi: nat)
    requires lo <= mid <= hi <= |a|
    ensures Sum(a, lo, hi) == Sum(a, lo, mid) + Sum(a, mid, hi)
    decreases hi
  {
    if mid < hi {
      SumSplit(a, lo, mid, hi - 1);
    }
  }

  // ----- Rounds in lock-step -----

  function Min(x: nat, y: nat): nat {
    if x < y then x else y
  }

  function Cell(a: seq<real>, i: nat, distance: nat): real
    requires i < |a|
  {
    if i + distance < |a| then a[i] + a[i + distance] else a[i]
  }

  /** All threads read before any of them writes. */
  function Round(a: seq<real>, distance: nat): (b: seq<real>)
    ensures |b| == |a|
  {
    seq(|a|, i requires 0 <= i < |a| => Cell(a, i, distance))
  }

  function Rounds(a: seq<real>, h: nat): (b: seq<real>)
    ensures |b| == |a|
  {
    if h == 0 then a else Round(Rounds(a, h - 1), Pow2(h - 1))
  }

  lemma SumDouble(a: seq<real>, i: nat, d: nat)
    requires i < |a| && d > 0
    ensures Sum(a, i, Min(|a|, i + 2 * d))
         == Sum(a, i, Min(|a|, i + d)) + if i + d < |a| then Sum(a, i + d, Min(|a|, i + d + d)) else 0.0
  {
    if i + d < |a| {
      SumSplit(a, i, i + d, Min(|a|, i + 2 * d));
    }
  }

  lemma SumOne(a: seq<real>, i: nat)
    requires i < |a|
    ensures Sum(a, i, i + 1) == a[i]
  {
    assert Sum(a, i, i) == 0.0;
  }

  lemma RoundsStep(a: seq<real>, h: nat, i: nat)
    requires i < |a|
    ensures h == 0 ==> Rounds(a, h) == a && Pow2(h) == 1
    ensures h > 0 ==> Rounds(a, h)[i] == Cell(Rounds(a, h - 1), i, Pow2(h - 1)) && Pow2(h) == 2 * Pow2(h - 1)
  {
  }

  /** After h rounds cell i holds the sum of 2^h cells from i on, as far as there are any. */
  lemma {:induction false} RoundsSum(a: seq<real>, h: nat, i: nat)
    requires i < |a|
    ensures Rounds(a, h)[i] == Sum(a, i, Min(|a|, i + Pow2(h)))
    decreases h
  {
    hide Sum, Rounds, Round, Pow2;
    RoundsStep(a, h, i);
    if h == 0 {
      SumOne(a, i);
    } else {
      var d := Pow2(h - 1);
      RoundsSum(a, h - 1, i);
      if i + d < |a| {
        RoundsSum(a, h - 1, i + d);
      }
      SumDouble(a, i, d);
    }
  }

  /** With 2^h at least the number of cells, cell 0 holds the sum of all of them. */
  lemma ReductionTotal(a: seq<real>, h: nat)
    requires 0 < |a| <= Pow2(h)
    ensures Rounds(a, h)[0] == Sum(a, 0, |a|)
  {
    RoundsSum(a, h, 0);
  }

  // ----- Rounds in place, thread after thread -----

  function Turn(a: seq<real>, distance: nat, i: nat): (b: seq<real>)
    requires i < |a|
    ensures |b| == |a|
  {
    a[i := Cell(a, i, distance)]
  }

  function InPlace(a: seq<real>, distance: nat, order: seq<nat>): (b: seq<real>)
    requires forall k :: 0 <= k < |order| ==> order[k] < |a|
    ensures |b| == |a|
  {
    if order == [] then a
    else Turn(InPlace(a, distance, order[..|order| - 1]), distance, order[|order| - 1])
  }

  /** Every thread has one turn. */
  predicate Complete(order: seq<nat>, n: nat) {
    && |order| == n && (forall k :: 0 <= k < n ==> order[k] < n)
    && forall j, k :: 0 <= j < k < n ==> order[j] != order[k]
  }

  /** No thread that will change its cell has its turn before the thread that reads that cell. */
  predicate ReadersFirst(order: seq<nat>, distance: nat, n: nat) {
    forall j, k :: 0 <= j < k < |order| && order[k] + distance == order[j] ==> order[j] + distance >= n
  }

  /** `b` is `a` with the turns of some threads done. */
  predicate Done(a: seq<real>, distance: nat, turns: seq<nat>, b: seq<real>) {
    && |b| == |a|
    && (forall k :: 0 <= k < |turns| ==> turns[k] < |a| && b[turns[k]] == Cell(a, turns[k], distance))
    && (forall i :: 0 <= i < |a| && i !in turns ==> b[i] == a[i])
  }

  lemma NextDone(a: seq<real>, distance: nat, turns: seq<nat>, b: seq<real>, i: nat)
    requires Done(a, distance, turns, b) && i < |a| && i !in turns && distance > 0
    requires i + distance in turns ==> i + 2 * distance >= |a|
    ensures Done(a, distance, turns + [i], Turn(b, distance, i))
  {
    if i + distance < |a| {
      if i + distance in turns {
        var j :| 0 <= j < |turns| && turns[j] == i + distance;
        assert b[i + distance] == Cell(a, turns[j], distance);
      }
      assert b[i + distance] == a[i + distance];
    }
  }

  /** Threads that had their turn have the new value, the others the old one. */
  lemma {:induction false} Halfway(a: seq<real>, distance: nat, order: seq<nat>, m: nat)
    requires Complete(order, |a|) && ReadersFirst(order, distance, |a|) && distance > 0 && m <= |order|
    ensures Done(a, distance, order[..m], InPlace(a, distance, order[..m]))
  {
    hide Done, Turn;
    if m == 0 {
      NoneDone(a, distance);
    } else {
      Halfway(a, distance, order, m - 1);
      var turns, i := order[..m - 1], order[m - 1];
      assert order[..m][..m - 1] == turns && order[..m] == turns + [i];
      if i + distance in turns {
        var j :| 0 <= j < m - 1 && order[j] == i + distance;
      }
      NextDone(a, distance, turns, InPlace(a, distance, turns), i);
    }
  }

  lemma NoneDone(a: seq<real>, distance: nat)
    ensures Done(a, distance, [], a)
  {
  }

  function Below(n: nat): (s: set<nat>)
    ensures |s| == n && forall k: nat :: k in s <==> k < n
  {
    if n == 0 then {} else Below(n - 1) + {n - 1}
  }

  lemma CompleteCovers(order: seq<nat>, n: nat, i: nat)
    requires Complete(order, n) && i < n
    ensures i in order
  {
    if i !in order {
      var seen := set k | 0 <= k < n :: order[k];
      DistinctCount(order, n);
      assert seen <= Below(n) - {i};
      SubsetCount(seen, Below(n) - {i});
    }
  }

  lemma {:induction false} DistinctCount(order: seq<nat>, m: nat)
    requires m <= |order| && forall j, k :: 0 <= j < k < |order| ==> order[j] != order[k]
    ensures |set k | 0 <= k < m :: order[k]| == m
  {
    var seen := set k | 0 <= k < m :: order[k];
    if m == 0 {
      assert seen == {};
    } else {
      DistinctCount(order, m - 1);
      assert seen == (set k | 0 <= k < m - 1 :: order[k]) + {order[m - 1]};
    }
  }

  lemma {:induction false} SubsetCount<T>(a: set<T>, b: set<T>)
    requires a <= b
    ensures |a| <= |b|
  {
    if a != {} {
      var x :| x in a;
      SubsetCount(a - {x}, b - {x});
    }
  }

  /** Any order with readers first gives what lock-step gives. */
  lemma InPlaceIsLockStep(a: seq<real>, distance: nat, order: seq<nat>)
    requires Complete(order, |a|) && ReadersFirst(order, distance, |a|) && distance > 0
    ensures forall k :: 0 <= k < |order| ==> order[k] < |a|
    ensures InPlace(a, distance, order) == Round(a, distance)
  {
    Halfway(a, distance, order, |order|);
    assert order[..|order|] == order;
    var b := InPlace(a, distance, order);
    forall i | 0 <= i < |a| ensures b[i] == Round(a, distance)[i] {
      CompleteCovers(order, |a|, i);
      var k :| 0 <= k < |order| && order[k] == i;
      assert b[order[k]] == Cell(a, order[k], distance);
    }
  }

  /** Ascending order is such an order. */
  lemma AscendingReadersFirst(n: nat, distance: nat)
    ensures var order := seq(n, i requires 0 <= i < n => i);
            Complete(order, n) && (distance > 0 ==> ReadersFirst(order, distance, n))
  {
  }

  function Ones(n: nat): (a: seq<real>)
    ensures |a| == n
  {
    seq(n, i => 1.0)
  }

  /** In an array of ones cells only grow, and a thread with a partner leaves at least two. */
  lemma {:induction false} OnesGrow(n: nat, distance: nat, order: seq<nat>, m: nat)
    requires Complete(order, n) && m <= n
    ensures var b := InPlace(Ones(n), distance, order[..m]);
            && (forall i :: 0 <= i < n ==> b[i] >= 1.0)
            && (forall k :: 0 <= k < m && order[k] + distance < n ==> b[order[k]] >= 2.0)
  {
    if m > 0 {
      OnesGrow(n, distance, order, m - 1);
      assert order[..m][..m - 1] == order[..m - 1];
    }
  }

  /** A cell does not change after its turn. */
  lemma {:induction false} TurnIsLast(a: seq<real>, distance: nat, order: seq<nat>, k: nat, m: nat)
    requires Complete(order, |a|) && k < m <= |a|
    ensures InPlace(a, distance, order[..m])[order[k]] == InPlace(a, distance, order[..k + 1])[order[k]]
    decreases m
  {
    if m > k + 1 {
      assert order[..m][..m - 1] == order[..m - 1];
      TurnIsLast(a, distance, order, k, m - 1);
    }
  }

  /** An order that breaks the rule gives three instead of two somewhere in an array of ones. */
  lemma BrokenOrderDiffers(n: nat, distance: nat, order: seq<nat>)
    requires Complete(order, n) && !ReadersFirst(order, distance, n)
    ensures InPlace(Ones(n), distance, order) != Round(Ones(n), distance)
  {
    var j, k :| 0 <= j < k < |order| && order[k] + distance == order[j] && order[j] + distance < n;
    OnesAfter(n, distance, order, j, k);
    TurnIsLast(Ones(n), distance, order, k, n);
    assert order[..n] == order;
    assert Round(Ones(n), distance)[order[k]] == Cell(Ones(n), order[k], distance) == 2.0;
  }

  lemma OnesAfter(n: nat, distance: nat, order: seq<nat>, j: nat, k: nat)
    requires Complete(order, n) && j < k < n && order[k] + distance == order[j] && order[j] + distance < n
    ensures InPlace(Ones(n), distance, order[..k + 1])[order[k]] >= 3.0
  {
    hide Ones;
    OnesGrow(n, distance, order, k);
    var b := InPlace(Ones(n), distance, order[..k]);
    assert order[..k + 1][..k] == order[..k];
    assert b[order[j]] >= 2.0 && b[order[k]] >= 1.0;
  }

  /** The orders that give what lock-step gives, on every array, are exactly those with readers first. */
  lemma OrderExact(n: nat, distance: nat, order: seq<nat>)
    requires Complete(order, n) && distance > 0
    ensures (forall a: seq<real> :: |a| == n ==> InPlace(a, distance, order) == Round(a, distance))
            <==> ReadersFirst(order, distance, n)
  {
    if ReadersFirst(order, distance, n) {
      forall a: seq<real> | |a| == n ensures InPlace(a, distance, order) == Round(a, distance) {
        InPlaceIsLockStep(a, distance, order);
      }
    } else {
      BrokenOrderDiffers(n, distance, order);
    }
  }

  // ----- The kernel's loops -----

  /** Row k of a buffer of clusters by points. */
  ghost function Row(a: array2<real>, k: nat): seq<real>
    requires k < a.Length0
    reads a
  {
    seq(a.Length1, i requires 0 <= i < a.Length1 reads a => a[k, i])
  }

  /** The turn of thread i: its cell of every cluster, in each of the three buffers. */
  method AddPartner(a: array2<real>, b: array2<real>, c: array2<real>, i: nat, distance: nat)
    requires a != b && b != c && a != c
    requires a.Length0 == b.Length0 == c.Length0 && a.Length1 == b.Length1 == c.Length1 && i < a.Length1
    modifies a, b, c
    ensures forall k :: 0 <= k < a.Length0 ==> Row(a, k) == Turn(old(Row(a, k)), distance, i)
    ensures forall k :: 0 <= k < a.Length0 ==> Row(b, k) == Turn(old(Row(b, k)), distance, i)
    ensures forall k :: 0 <= k < a.Length0 ==> Row(c, k) == Turn(old(Row(c, k)), distance, i)
  {
    var index := i + distance;
    if index < a.Length1 {
      for k := 0 to a.Length0
        invariant forall m, j :: 0 <= m < a.Length0 && 0 <= j < a.Length1 ==>
          a[m, j] == if m < k && j == i then old(a[m, j] + a[m, index]) else old(a[m, j])
        invariant forall m, j :: 0 <= m < a.Length0 && 0 <= j < a.Length1 ==>
          b[m, j] == if m < k && j == i then old(b[m, j] + b[m, index]) else old(b[m, j])
        invariant forall m, j :: 0 <= m < a.Length0 && 0 <= j < a.Length1 ==>
          c[m, j] == if m < k && j == i then old(c[m, j] + c[m, index]) else old(c[m, j])
      {
        a[k, i] := a[k, i] + a[k, index];
        b[k, i] := b[k, i] + b[k, index];
        c[k, i] := c[k, i] + c[k, index];
      }
    }
  }

  /** One round, the threads in ascending order. */
  method OneRound(a: array2<real>, b: array2<real>, c: array2<real>, distance: nat)
    requires a != b && b != c && a != c && distance > 0
    requires a.Length0 == b.Length0 == c.Length0 && a.Length1 == b.Length1 == c.Length1
    modifies a, b, c
    ensures forall k :: 0 <= k < a.Length0 ==> Row(a, k) == Round(old(Row(a, k)), distance)
    ensures forall k :: 0 <= k < a.Length0 ==> Row(b, k) == Round(old(Row(b, k)), distance)
    ensures forall k :: 0 <= k < a.Length0 ==> Row(c, k) == Round(old(Row(c, k)), distance)
  {
    ghost var order := seq(a.Length1, i requires 0 <= i < a.Length1 => i);
    for i := 0 to a.Length1
      invariant forall k :: 0 <= k < a.Length0 ==> Row(a, k) == InPlace(old(Row(a, k)), distance, order[..i])
      invariant forall k :: 0 <= k < a.Length0 ==> Row(b, k) == InPlace(old(Row(b, k)), distance, order[..i])
      invariant forall k :: 0 <= k < a.Length0 ==> Row(c, k) == InPlace(old(Row(c, k)), distance, order[..i])
    {
      AddPartner(a, b, c, i, distance);
      assert order[..i + 1][..i] == order[..i];
    }
    assert order[..a.Length1] == order;
    AscendingReadersFirst(a.Length1, distance);
    forall k | 0 <= k < a.Length0
      ensures Row(a, k) == Round(old(Row(a, k)), distance)
      ensures Row(b, k) == Round(old(Row(b, k)), distance)
      ensures Row(c, k) == Round(old(Row(c, k)), distance)
    {
      InPlaceIsLockStep(old(Row(a, k)), distance, order);
      InPlaceIsLockStep(old(Row(b, k)), distance, order);
      InPlaceIsLockStep(old(Row(c, k)), distance, order);
    }
  }

  /** The rounds between barriers; afterwards column 0 holds the sums of the rows. */
  method Reduce(a: array2<real>, b: array2<real>, c: array2<real>, rounds: nat)
    requires a != b && b != c && a != c
    requires a.Length0 == b.Length0 == c.Length0 && a.Length1 == b.Length1 == c.Length1
    requires 0 < a.Length1 <= Pow2(rounds)
    modifies a, b, c
    ensures forall k :: 0 <= k < a.Length0 ==> a[k, 0] == Sum(old(Row(a, k)), 0, a.Length1)
    ensures forall k :: 0 <= k < a.Length0 ==> b[k, 0] == Sum(old(Row(b, k)), 0, b.Length1)
    ensures forall k :: 0 <= k < a.Length0 ==> c[k, 0] == Sum(old(Row(c, k)), 0, c.Length1)
  {
    for h := 0 to rounds
      invariant forall k :: 0 <= k < a.Length0 ==> Row(a, k) == Rounds(old(Row(a, k)), h)
      invariant forall k :: 0 <= k < a.Length0 ==> Row(b, k) == Rounds(old(Row(b, k)), h)
      invariant forall k :: 0 <= k < a.Length0 ==> Row(c, k) == Rounds(old(Row(c, k)), h)
    {
      OneRound(a, b, c, Pow2(h));
    }
    forall k | 0 <= k < a.Length0
      ensures a[k, 0] == Sum(old(Row(a, k)), 0, a.Length1)
      ensures b[k, 0] == Sum(old(Row(b, k)), 0, b.Length1)
      ensures c[k, 0] == Sum(old(Row(c, k)), 0, c.Length1)
    {
      ReductionTotal(old(Row(a, k)), rounds);
      ReductionTotal(old(Row(b, k)), rounds);
      ReductionTotal(old(Row(c, k)), rounds);
      assert Row(a, k)[0] == a[k, 0] && Row(b, k)[0] == b[k, 0] && Row(c, k)[0] == c[k, 0];
    }
  }
}
