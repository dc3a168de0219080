/** What writing a basic block may take: shadows, registers and blocks
    (src/ExecBlock/ExecBlockManager.cpp, writeBasicBlock). */
module Budgets {
  import opened Guest
  import opened Blocks
  import opened PageWrites
  import opened Folding

  /** The shadows that the patches from m to n may take: their own, and one for the tail of each. */
  function Need(bb: seq<Patch>, m: nat, n: nat): nat
    requires m <= n <= |bb|
  {
    TotalShadows(bb[m..n]) + n - m
  }

  lemma {:induction false} ShadowsJoin(a: seq<Patch>, b: seq<Patch>)
    ensures TotalShadows(a + b) == TotalShadows(a) + TotalShadows(b)
  {
    if a == [] {
      assert a + b == b;
    } else {
      assert (a + b)[1..] == a[1..] + b;
      ShadowsJoin(a[1..], b);
    }
  }

  lemma NeedSplit(bb: seq<Patch>, m: nat, e: nat, n: nat)
    requires m <= e <= n <= |bb|
    ensures Need(bb, m, n) == Need(bb, m, e) + Need(bb, e, n)
    ensures TotalShadows(bb[m..n]) == TotalShadows(bb[m..e]) + TotalShadows(bb[e..n])
  {
    assert bb[m..n] == bb[m..e] + bb[e..n];
    ShadowsJoin(bb[m..e], bb[e..n]);
  }

  // ------------------------------------------------------------------------
  // Blocks while a basic block is written
  // ------------------------------------------------------------------------

  function TakenBefore(x: seq<Block>, i: nat): nat { if i < |x| then x[i].shadowIdx else 0 }

  function CapacityOf(x: seq<Block>, i: nat, cap: nat): nat { if i < |x| then x[i].shadowCapacity else cap }

  /** Blocks y are x and new ones, and with `rest` shadows more none has taken more than `total`; folded. */
  ghost predicate Budgeted(x: seq<Block>, y: seq<Block>, cap: nat, rest: nat, total: nat) {
    forall u {:trigger Asked(ASearch, u)} :: Asked(ASearch, u) ==>
      && rest <= total
      && forall i :: 0 <= i < |y| ==>
           y[i].shadowCapacity == CapacityOf(x, i, cap) && y[i].shadowIdx + rest <= TakenBefore(x, i) + total
  }

  lemma BudgetStart(x: seq<Block>, cap: nat, total: nat)
    ensures Budgeted(x, x, cap, total, total)
  {
  }

  lemma BudgetPage(x: seq<Block>, y: seq<Block>, cap: nat, rest: nat, total: nat, z: seq<Block>)
    requires Budgeted(x, y, cap, rest, total) && |x| <= |y| && |z| == |y| + 1 && y <= z
    requires z[|y|].shadowIdx == 0 && z[|y|].shadowCapacity == cap
    ensures Budgeted(x, z, cap, rest, total)
  {
    assert Asked(ASearch, 0);
  }

  lemma BudgetSame(x: seq<Block>, y: seq<Block>, cap: nat, rest: nat, total: nat, i: nat, c: Block)
    requires Budgeted(x, y, cap, rest, total) && i < |y|
    requires c.shadowIdx == y[i].shadowIdx && c.shadowCapacity == y[i].shadowCapacity
    ensures Budgeted(x, y[i := c], cap, rest, total)
  {
    assert Asked(ASearch, 0);
  }

  /** A sequence takes no more than what its patches need. */
  lemma BudgetSpent(x: seq<Block>, y: seq<Block>, cap: nat, bb: seq<Patch>, m: nat, e: nat, n: nat, total: nat, i: nat, c: Block)
    requires m < e <= n <= |bb| && Budgeted(x, y, cap, Need(bb, m, n), total) && i < |y|
    requires c.shadowIdx + TotalShadows(bb[e..n]) <= y[i].shadowIdx + TotalShadows(bb[m..n]) + 1
    requires c.shadowCapacity == y[i].shadowCapacity
    ensures Budgeted(x, y[i := c], cap, Need(bb, e, n), total)
  {
    NeedSplit(bb, m, e, n);
    assert Asked(ASearch, 0);
  }

  /** One of the blocks, or a new one, has too few shadows. */
  ghost predicate ShadowsShort(x: seq<Block>, cap: nat, need: nat) {
    cap < need || exists i :: 0 <= i < |x| && x[i].shadowCapacity < x[i].shadowIdx + need
  }

  lemma BudgetExceeded(x: seq<Block>, y: seq<Block>, cap: nat, bb: seq<Patch>, m: nat, n: nat, total: nat, i: nat)
    requires m < n <= |bb| && Budgeted(x, y, cap, Need(bb, m, n), total) && i < |y|
    requires y[i].shadowCapacity < y[i].shadowIdx + TotalShadows(bb[m..n]) + 1
    ensures ShadowsShort(x, cap, total)
  {
    assert Asked(ASearch, 0);
  }
}
