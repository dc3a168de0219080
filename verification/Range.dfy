/** Half-open ranges of addresses and sets of addresses kept as lists of ranges
    (include/QBDI/Range.h). */
module Ranges {

  /** One past the largest machine word: `rword` arithmetic is modulo WORD. */
  const WORD: nat := 0x1_0000_0000_0000_0000

  /** An unsigned int. */
  const WORD32: nat := 0x1_0000_0000

  function Min(a: int, b: int): int { if a < b then a else b }

  function Max(a: int, b: int): int { if a > b then a else b }

  datatype Range = Range(start: int, end: int) {

    /** The constructor of the source: reversed bounds give an empty range. */
    static function Make(start: int, end: int): Range {
      if start < end then Range(start, end) else Range(start, start)
    }

    function SetStart(s: int): Range {
      Range(s, if end < s then s else end)
    }

    function SetEnd(e: int): Range {
      Range(if e < start then e else start, e)
    }

    function Size(): int { end - start }

    predicate IsEmpty() { end <= start }

    predicate Has(x: int) { start <= x < end }

    predicate Contains(r: Range) { start <= r.start && r.end <= end }

    predicate Overlaps(r: Range) { start < r.end && r.start < end }

    function Intersect(r: Range): Range {
      Make(Max(start, r.start), Min(end, r.end))
    }
  }

  /** `Overlaps` answers whether the two ranges share an address, as long as neither is
      empty; an empty range strictly inside the other one is reported as overlapping. */
  lemma OverlapsIsSharing(a: Range, b: Range)
    ensures !a.IsEmpty() && !b.IsEmpty() ==>
              (a.Overlaps(b) <==> exists x :: a.Has(x) && b.Has(x))
    ensures (exists x :: a.Has(x) && b.Has(x)) ==> a.Overlaps(b)
    ensures a.IsEmpty() ==> (a.Overlaps(b) <==> b.start < a.end <= a.start < b.end)
  {
    if !a.IsEmpty() && !b.IsEmpty() && a.Overlaps(b) {
      var x := Max(a.start, b.start);
      assert a.Has(x) && b.Has(x);
    }
  }

  // ------------------------------------------------------------------------
  // The denoted set, and the canonical lists that represent it
  // ------------------------------------------------------------------------

  /** x belongs to one of the ranges. */
  ghost predicate Mem(rs: seq<Range>, x: int) {
    exists i :: 0 <= i < |rs| && rs[i].Has(x)
  }

  /** Sorted, no empty range, and no two ranges touch. */
  ghost predicate Canonical(rs: seq<Range>) {
    && (forall i :: 0 <= i < |rs| ==> rs[i].start < rs[i].end)
    && (forall i, j :: 0 <= i < j < |rs| ==> rs[i].end < rs[j].start)
  }

  lemma MemConcat(a: seq<Range>, b: seq<Range>, x: int)
    ensures Mem(a + b, x) <==> Mem(a, x) || Mem(b, x)
  {
    if Mem(a, x) {
      var i :| 0 <= i < |a| && a[i].Has(x);
      assert (a + b)[i].Has(x);
    }
    if Mem(b, x) {
      var i :| 0 <= i < |b| && b[i].Has(x);
      assert (a + b)[|a| + i].Has(x);
    }
  }

  lemma MemSplit(rs: seq<Range>, k: nat, x: int)
    requires k <= |rs|
    ensures Mem(rs, x) <==> Mem(rs[..k], x) || Mem(rs[k..], x)
  {
    assert rs == rs[..k] + rs[k..];
    MemConcat(rs[..k], rs[k..], x);
  }

  lemma MemSingle(r: Range, x: int)
    ensures Mem([r], x) <==> r.Has(x)
  {
    if r.Has(x) {
      assert [r][0].Has(x);
    }
  }

  /** What replacing the ranges [k, e) by one range does to the denoted set. */
  lemma MemSplice(rs: seq<Range>, k: nat, e: nat, mid: seq<Range>, x: int)
    requires k <= e <= |rs|
    ensures Mem(rs[..k] + mid + rs[e..], x) <==> Mem(rs[..k], x) || Mem(mid, x) || Mem(rs[e..], x)
    ensures Mem(rs, x) <==> Mem(rs[..k], x) || Mem(rs[k..e], x) || Mem(rs[e..], x)
  {
    MemConcat(rs[..k] + mid, rs[e..], x);
    MemConcat(rs[..k], mid, x);
    MemSplit(rs, e, x);
    MemSplit(rs[..e], k, x);
    assert rs[..e][..k] == rs[..k];
    assert rs[..e][k..] == rs[k..e];
  }

  /** Two canonical lists that denote the same set are the same list. */
  lemma {:induction false} CanonicalUnique(a: seq<Range>, b: seq<Range>)
    requires Canonical(a) && Canonical(b)
    requires forall x :: Mem(a, x) <==> Mem(b, x)
    ensures a == b
  {
    if a == [] || b == [] {
      if a != [] {
        assert a[0].Has(a[0].start);
        assert Mem(a, a[0].start);
      }
      if b != [] {
        assert b[0].Has(b[0].start);
        assert Mem(b, b[0].start);
      }
    } else {
      SameFirst(a, b);
      forall x
        ensures Mem(a[1..], x) <==> Mem(b[1..], x)
      {
        TailMem(a, x);
        TailMem(b, x);
      }
      CanonicalUnique(a[1..], b[1..]);
      assert a == [a[0]] + a[1..];
      assert b == [b[0]] + b[1..];
    }
  }

  lemma TailMem(rs: seq<Range>, x: int)
    requires Canonical(rs) && rs != []
    ensures Mem(rs[1..], x) <==> Mem(rs, x) && rs[0].end <= x
  {
    MemSplit(rs, 1, x);
    assert rs[..1] == [rs[0]];
    MemSingle(rs[0], x);
  }

  lemma SameFirst(a: seq<Range>, b: seq<Range>)
    requires Canonical(a) && Canonical(b) && a != [] && b != []
    requires forall x :: Mem(a, x) <==> Mem(b, x)
    ensures a[0] == b[0]
  {
    FirstIsLeast(a, b);
    FirstIsLeast(b, a);
    EndIsOutside(a);
    EndIsOutside(b);
    assert a[0].end < b[0].end ==> b[0].Has(a[0].end);
    assert b[0].end < a[0].end ==> a[0].Has(b[0].end);
  }

  lemma FirstIsLeast(a: seq<Range>, b: seq<Range>)
    requires Canonical(a) && Canonical(b) && a != [] && b != []
    requires forall x :: Mem(a, x) <==> Mem(b, x)
    ensures b[0].start <= a[0].start
  {
    assert a[0].Has(a[0].start);
    assert Mem(a, a[0].start);
  }

  lemma EndIsOutside(rs: seq<Range>)
    requires Canonical(rs) && rs != []
    ensures !Mem(rs, rs[0].end)
  {
  }

  // ------------------------------------------------------------------------
  // Sizes
  // ------------------------------------------------------------------------

  function Total(rs: seq<Range>): int {
    if rs == [] then 0 else rs[0].Size() + Total(rs[1..])
  }

  function Points(r: Range): set<int> {
    set x | r.start <= x < r.end && r.Has(x)
  }

  ghost function Denoted(rs: seq<Range>): set<int> {
    if rs == [] then {} else Points(rs[0]) + Denoted(rs[1..])
  }

  lemma {:induction false} DenotedIsMem(rs: seq<Range>, x: int)
    ensures x in Denoted(rs) <==> Mem(rs, x)
  {
    if rs != [] {
      DenotedIsMem(rs[1..], x);
      MemSplit(rs, 1, x);
      assert rs[..1] == [rs[0]];
      MemSingle(rs[0], x);
    }
  }

  lemma {:induction false} PointsCount(r: Range)
    requires r.start <= r.end
    ensures |Points(r)| == r.Size()
    decreases r.end - r.start
  {
    if r.start == r.end {
      assert Points(r) == {};
    } else {
      var shorter := Range(r.start, r.end - 1);
      PointsCount(shorter);
      assert Points(r) == Points(shorter) + {r.end - 1};
    }
  }

  /** The sum of the sizes counts the addresses of the denoted set. */
  lemma {:induction false} TotalCounts(rs: seq<Range>)
    requires Canonical(rs)
    ensures Total(rs) == |Denoted(rs)|
  {
    if rs != [] {
      TotalCounts(rs[1..]);
      PointsCount(rs[0]);
      forall x | x in Denoted(rs[1..])
        ensures x !in Points(rs[0])
      {
        DenotedIsMem(rs[1..], x);
        TailMem(rs, x);
      }
      assert Points(rs[0]) !! Denoted(rs[1..]);
    }
  }

  /** Sizes obey inclusion and exclusion, whatever lists represent the union and the
      intersection. */
  lemma {:induction false} SizeUnionIntersection(a: seq<Range>, b: seq<Range>, union: seq<Range>, inter: seq<Range>)
    requires Canonical(a) && Canonical(b) && Canonical(union) && Canonical(inter)
    requires forall x :: Mem(union, x) <==> Mem(a, x) || Mem(b, x)
    requires forall x :: Mem(inter, x) <==> Mem(a, x) && Mem(b, x)
    ensures Total(union) + Total(inter) == Total(a) + Total(b)
  {
    var da := DenotedSet(a);
    var db := DenotedSet(b);
    var du := DenotedSet(union);
    var di := DenotedSet(inter);
    assert forall x :: x in du <==> x in da || x in db;
    assert forall x :: x in di <==> x in da && x in db;
    CardinalitySum(da, db, du, di);
  }

  lemma CardinalitySum(a: set<int>, b: set<int>, union: set<int>, inter: set<int>)
    requires forall x :: x in union <==> x in a || x in b
    requires forall x :: x in inter <==> x in a && x in b
    ensures |union| + |inter| == |a| + |b|
  {
    assert forall x :: x in a + b ==> x in union;
    assert forall x :: x in union ==> x in a + b;
    assert union == a + b;
    assert forall x :: x in a * b ==> x in inter;
    assert forall x :: x in inter ==> x in a * b;
    assert inter == a * b;
  }

  lemma DenotedSet(rs: seq<Range>) returns (d: set<int>)
    requires Canonical(rs)
    ensures |d| == Total(rs)
    ensures forall x :: x in d <==> Mem(rs, x)
  {
    d := Denoted(rs);
    TotalCounts(rs);
    forall x
      ensures x in d <==> Mem(rs, x)
    {
      DenotedIsMem(rs, x);
    }
  }

  lemma {:induction false} TotalBound(rs: seq<Range>, lo: int, hi: int)
    requires Canonical(rs) && lo <= hi
    requires forall i :: 0 <= i < |rs| ==> lo <= rs[i].start && rs[i].end <= hi
    ensures 0 <= Total(rs) <= hi - lo
  {
    if rs != [] {
      if |rs| > 1 {
        TotalBound(rs[1..], rs[0].end, hi);
      }
    }
  }

  lemma {:induction false} TotalAppend(rs: seq<Range>, r: Range)
    ensures Total(rs + [r]) == Total(rs) + r.Size()
  {
    if rs == [] {
      assert rs + [r] == [r];
    } else {
      assert (rs + [r])[1..] == rs[1..] + [r];
      TotalAppend(rs[1..], r);
    }
  }

  // ------------------------------------------------------------------------
  // The class
  // ------------------------------------------------------------------------

  /** `std::lower_bound` over the ends of a canonical list: the first range that is not
      entirely before `value` (touching counts as before unless `strict`). */
  method LowerBound(rs: seq<Range>, value: int, strict: bool) returns (k: nat)
    requires Canonical(rs)
    ensures k <= |rs|
    ensures forall i :: 0 <= i < k ==> rs[i].end < value || (!strict && rs[i].end == value)
    ensures forall i :: k <= i < |rs| ==> value < rs[i].end || (strict && rs[i].end == value)
  {
    k := 0;
    var count := |rs|;
    while count > 0
      invariant 0 <= k && 0 <= count && k + count <= |rs|
      invariant forall i :: 0 <= i < k ==> rs[i].end < value || (!strict && rs[i].end == value)
      invariant forall i :: k + count <= i < |rs| ==> value < rs[i].end || (strict && rs[i].end == value)
    {
      var step := count / 2;
      if rs[k + step].end < value || (!strict && rs[k + step].end == value) {
        forall i | 0 <= i < k + step + 1
          ensures rs[i].end < value || (!strict && rs[i].end == value)
        {
          assert i < k + step ==> rs[i].end < rs[k + step].start;
        }
        k := k + step + 1;
        count := count - step - 1;
      } else {
        forall i | k + step <= i < |rs|
          ensures value < rs[i].end || (strict && rs[i].end == value)
        {
          assert k + step < i ==> rs[k + step].end < rs[i].start;
        }
        count := step;
      }
    }
  }

  class RangeSet {
    var ranges: seq<Range>

    ghost predicate Valid()
      reads this
    {
      Canonical(ranges)
    }

    constructor ()
      ensures Valid() && ranges == []
      ensures forall x :: !Mem(ranges, x)
    {
      ranges := [];
    }

    /** `size()`: the sum wraps like a machine word, but never does so on a set of words. */
    method Size() returns (r: int)
      requires Valid()
      requires forall i :: 0 <= i < |ranges| ==> 0 <= ranges[i].start && ranges[i].end < WORD
      ensures r == |Denoted(ranges)|
    {
      r := 0;
      TotalCounts(ranges);
      for i := 0 to |ranges|
        invariant r == Total(ranges[..i])
      {
        assert ranges[..i + 1] == ranges[..i] + [ranges[i]];
        TotalAppend(ranges[..i], ranges[i]);
        TotalBound(ranges[..i + 1], 0, WORD - 1);
        r := (r + ranges[i].Size()) % WORD;
      }
      assert ranges[..|ranges|] == ranges;
    }

    /** `contains(t)` and `getElementRange(t)`: the range that holds an address, if any. */
    method ElementRange(x: int) returns (found: bool, r: Range)
      requires Valid()
      ensures found <==> Mem(ranges, x)
      ensures found ==> r in ranges && r.Has(x)
    {
      var k := LowerBound(ranges, x, false);
      if k == |ranges| || !ranges[k].Has(x) {
        if k < |ranges| {
          assert forall i :: k < i < |ranges| ==> ranges[k].end < ranges[i].start;
        }
        return false, Range(x, x);
      }
      return true, ranges[k];
    }

    /** `contains(Range)`: exactly the ranges all of whose addresses are in the set. */
    method ContainsRange(t: Range) returns (r: bool)
      requires Valid()
      ensures r <==> forall x :: t.Has(x) ==> Mem(ranges, x)
    {
      if t.IsEmpty() {
        return true;
      }
      var k := LowerBound(ranges, t.start, false);
      assert t.Has(t.start);
      if k == |ranges| {
        assert !Mem(ranges, t.start);
        return false;
      }
      r := ranges[k].Contains(t);
      if r {
        assert forall x :: t.Has(x) ==> ranges[k].Has(x);
      } else if t.start < ranges[k].start {
        assert forall i :: k < i < |ranges| ==> ranges[k].end < ranges[i].start;
        assert !Mem(ranges, t.start);
      } else {
        assert t.Has(ranges[k].end);
        assert forall i :: k < i < |ranges| ==> ranges[k].end < ranges[i].start;
        assert forall i :: 0 <= i < k ==> ranges[i].end < ranges[k].start;
        assert !Mem(ranges, ranges[k].end);
      }
    }

    /** `overlaps(Range)`: shares an address with the set, except that every empty range is
        reported as overlapping. */
    method OverlapsRange(t: Range) returns (r: bool)
      requires Valid()
      ensures r <==> t.IsEmpty() || exists x :: t.Has(x) && Mem(ranges, x)
    {
      if t.IsEmpty() {
        return true;
      }
      var k := LowerBound(ranges, t.start, false);
      if k == |ranges| {
        return false;
      }
      r := ranges[k].Overlaps(t);
      if r {
        var x := Max(ranges[k].start, t.start);
        assert ranges[k].Has(x);
        assert t.Has(x) && Mem(ranges, x);
      } else {
        assert forall i :: k < i < |ranges| ==> ranges[k].end < ranges[i].start;
        assert forall i :: 0 <= i < |ranges| ==> !ranges[i].Overlaps(t);
      }
    }

    /** `operator==` */
    method Equals(other: RangeSet) returns (r: bool)
      requires Valid() && other.Valid()
      ensures r <==> forall x :: Mem(ranges, x) <==> Mem(other.ranges, x)
    {
      if |ranges| != |other.ranges| {
        if forall x :: Mem(ranges, x) <==> Mem(other.ranges, x) {
          CanonicalUnique(ranges, other.ranges);
        }
        return false;
      }
      for i := 0 to |ranges|
        invariant forall j :: 0 <= j < i ==> ranges[j] == other.ranges[j]
      {
        if ranges[i] != other.ranges[i] {
          if forall x :: Mem(ranges, x) <==> Mem(other.ranges, x) {
            CanonicalUnique(ranges, other.ranges);
          }
          return false;
        }
      }
      assert ranges == other.ranges;
      return true;
    }

    /** `add(Range)` is set union. */
    method Add(t: Range)
      requires Valid()
      modifies this
      ensures Valid()
      ensures forall x :: Mem(ranges, x) <==> Mem(old(ranges), x) || t.Has(x)
    {
      if t.IsEmpty() {
        return;
      }
      ghost var rs := ranges;
      var k := LowerBound(ranges, t.start, true);
      if k == |ranges| {
        ranges := ranges + [t];
        AddInserted(rs, k, t);
        assert ranges == rs[..k] + [t] + rs[k..];
        return;
      }
      if t.end < ranges[k].start {
        ranges := ranges[..k] + [t] + ranges[k..];
        AddInserted(rs, k, t);
        return;
      }
      MergeAt(k, t);
    }

    /** Range k takes over t, which it meets, and every later range that then meets it. */
    method MergeAt(k: nat, t: Range)
      requires Valid() && t.start < t.end && k < |ranges| && ranges[k].start <= t.end && t.start <= ranges[k].end
      requires forall i :: 0 <= i < k ==> ranges[i].end < t.start
      modifies this
      ensures Valid()
      ensures forall x :: Mem(ranges, x) <==> Mem(old(ranges), x) || t.Has(x)
    {
      ghost var rs := ranges;
      if t.start < ranges[k].start {
        ranges := ranges[k := ranges[k].SetStart(t.start)];
      }
      if ranges[k].end < t.end {
        ranges := ranges[k := ranges[k].SetEnd(t.end)];
      }
      var e := k + 1;
      while e < |ranges|
        invariant k < e <= |rs| && ranges == Joined(rs, k, e, t) && MeetsAll(rs, k, e, t)
      {
        if ranges[k].end < ranges[e].start {
          break;
        }
        JoinedNext(rs, k, e, t);
        if ranges[k].end < ranges[e].end {
          ranges := ranges[k := ranges[k].SetEnd(ranges[e].end)];
        }
        e := e + 1;
      }
      JoinedCut(rs, k, e, t);
      AddMerged(rs, k, e, t);
      ranges := ranges[..k + 1] + ranges[e..];
    }

    /** `add(RangeSet)` */
    method AddSet(t: RangeSet)
      requires Valid() && t.Valid()
      modifies this
      ensures Valid() && (t == this ==> ranges == old(ranges))
      ensures forall x :: Mem(ranges, x) <==> Mem(old(ranges), x) || Mem(t.ranges, x)
    {
      ghost var rs, ts := ranges, t.ranges;
      for i := 0 to |t.ranges|
        invariant Valid()
        invariant t == this ==> ranges == rs
        invariant |t.ranges| == |ts| && t.ranges == ts && forall x :: Mem(ranges, x) <==> Mem(rs, x) || Mem(ts[..i], x)
      {
        Add(t.ranges[i]);
        forall x
          ensures Mem(ts[..i + 1], x) <==> Mem(ts[..i], x) || ts[i].Has(x)
        {
          assert ts[..i + 1] == ts[..i] + [ts[i]];
          MemConcat(ts[..i], [ts[i]], x);
          MemSingle(ts[i], x);
        }
        if t == this {
          CanonicalUnique(ranges, rs);
        }
      }
      assert ts[..|ts|] == ts;
    }

    /** `remove(Range)` is set difference. */
    method Remove(t: Range)
      requires Valid()
      modifies this
      ensures Valid()
      ensures forall x :: Mem(ranges, x) <==> Mem(old(ranges), x) && !t.Has(x)
    {
      if t.IsEmpty() {
        return;
      }
      ghost var rs := ranges;
      var k := LowerBound(ranges, t.start, false);
      if k == |ranges| {
        return;
      }
      if t.end <= ranges[k].start {
        assert forall i :: k < i < |ranges| ==> ranges[k].end < ranges[i].start;
        return;
      }
      if ranges[k].start < t.start {
        if t.end < ranges[k].end {
          var pre := Range.Make(ranges[k].start, t.start);
          ranges := ranges[k := ranges[k].SetStart(t.end)];
          ranges := ranges[..k] + [pre] + ranges[k..];
          HoleMem(rs, k, t);
          assert ranges == rs[..k] + [pre, Range(t.end, rs[k].end)] + rs[k + 1..];
          return;
        }
      }
      CutFrom(k, t);
    }

    /** Cuts t, which ends behind range k or starts before it, out of the ranges from k on. */
    method CutFrom(first: nat, t: Range)
      requires Valid() && t.start < t.end && first < |ranges|
      requires t.start < ranges[first].end && (ranges[first].start < t.start ==> ranges[first].end <= t.end)
      requires forall i :: 0 <= i < first ==> ranges[i].end <= t.start
      modifies this
      ensures Valid()
      ensures forall x :: Mem(ranges, x) <==> Mem(old(ranges), x) && !t.Has(x)
    {
      ghost var rs := ranges;
      var k := first;
      if ranges[k].start < t.start {
        ranges := ranges[k := ranges[k].SetEnd(t.start)];
        k := k + 1;
      }
      var begin := k;
      while k < |ranges|
        invariant first <= begin <= k <= |ranges| == |rs|
        invariant forall i :: 0 <= i < first || begin <= i < |rs| ==> ranges[i] == rs[i]
        invariant begin == first || (begin == first + 1 && rs[first].start < t.start <= rs[first].end <= t.end
                                     && ranges[first] == Range(rs[first].start, t.start))
        invariant begin == first ==> t.start <= rs[first].start
        invariant forall i :: begin <= i < k ==> rs[i].end <= t.end
      {
        if t.end <= ranges[k].start {
          break;
        }
        if t.end < ranges[k].end {
          ranges := ranges[k := ranges[k].SetStart(t.end)];
          break;
        }
        k := k + 1;
      }
      ghost var cut := ranges;
      ranges := ranges[..begin] + ranges[k..];
      TrimmedAround(rs, cut, first, begin, k, t);
      RemoveCanonical(rs, cut, begin, k, t);
      forall x
        ensures Mem(ranges, x) <==> Mem(rs, x) && !t.Has(x)
      {
        RemoveMem(rs, cut, begin, k, t, x);
      }
    }

    /** `remove(RangeSet)` */
    method RemoveSet(t: RangeSet)
      requires Valid() && t.Valid() && t != this
      modifies this
      ensures Valid()
      ensures forall x :: Mem(ranges, x) <==> Mem(old(ranges), x) && !Mem(t.ranges, x)
    {
      ghost var rs := ranges;
      for i := 0 to |t.ranges|
        invariant Valid()
        invariant forall x :: Mem(ranges, x) <==> Mem(rs, x) && !Mem(t.ranges[..i], x)
      {
        Remove(t.ranges[i]);
        forall x
          ensures Mem(t.ranges[..i + 1], x) <==> Mem(t.ranges[..i], x) || t.ranges[i].Has(x)
        {
          assert t.ranges[..i + 1] == t.ranges[..i] + [t.ranges[i]];
          MemConcat(t.ranges[..i], [t.ranges[i]], x);
          MemSingle(t.ranges[i], x);
        }
      }
      assert t.ranges[..|t.ranges|] == t.ranges;
    }

    /** `intersect(RangeSet)` */
    method IntersectSet(t: RangeSet)
      requires Valid() && t.Valid()
      modifies this
      ensures Valid()
      ensures forall x :: Mem(ranges, x) <==> Mem(old(ranges), x) && Mem(old(t.ranges), x)
    {
      var a, b := ranges, t.ranges;
      var inter := new RangeSet();
      var i, j := 0, 0;
      while i < |a| && j < |b|
        invariant 0 <= i <= |a| && 0 <= j <= |b| && fresh(inter)
        invariant a == old(ranges) && b == old(t.ranges)
        invariant inter.Valid()
        invariant forall x :: Mem(inter.ranges, x) <==> Swept(a, b, i, j, x)
        decreases |a| - i + |b| - j
      {
        ghost var was := inter.ranges;
        if a[i].Overlaps(b[j]) {
          inter.Add(a[i].Intersect(b[j]));
        }
        assert forall x :: Mem(inter.ranges, x) <==> Mem(was, x) || (a[i].Has(x) && b[j].Has(x));
        ghost var i', j' := i, j;
        if a[i].end < b[j].end {
          i := i + 1;
        } else if a[i].end == b[j].end {
          i, j := i + 1, j + 1;
        } else {
          j := j + 1;
        }
        forall x
          ensures Swept(a, b, i, j, x) <==> Swept(a, b, i', j', x) || (a[i'].Has(x) && b[j'].Has(x))
        {
          SweptStep(a, b, i', j', i, j, x);
        }
      }
      forall x
        ensures Swept(a, b, i, j, x) <==> Mem(a, x) && Mem(b, x)
      {
        assert i == |a| ==> a[..i] == a;
        assert j == |b| ==> b[..j] == b;
        MemSplit(a, i, x);
        MemSplit(b, j, x);
      }
      ranges := inter.ranges;
    }

    /** `intersect(Range)` */
    method IntersectRange(t: Range)
      requires Valid()
      modifies this
      ensures Valid()
      ensures forall x :: Mem(ranges, x) <==> Mem(old(ranges), x) && t.Has(x)
    {
      var k := LowerBound(ranges, t.start, false);
      if k == |ranges| {
        ranges := [];
        return;
      }
      var inter := new RangeSet();
      var lower := k;
      while lower < |ranges| && t.Overlaps(ranges[lower])
        invariant k <= lower <= |ranges| && fresh(inter) && ranges == old(ranges)
        invariant inter.Valid()
        invariant forall x :: Mem(inter.ranges, x) <==> Mem(ranges[k..lower], x) && t.Has(x)
      {
        inter.Add(t.Intersect(ranges[lower]));
        forall x
          ensures Mem(ranges[k..lower + 1], x) <==> Mem(ranges[k..lower], x) || ranges[lower].Has(x)
        {
          assert ranges[k..lower + 1] == ranges[k..lower] + [ranges[lower]];
          MemConcat(ranges[k..lower], [ranges[lower]], x);
          MemSingle(ranges[lower], x);
        }
        lower := lower + 1;
      }
      forall x | t.Has(x)
        ensures Mem(ranges, x) <==> Mem(ranges[k..lower], x)
      {
        MemSplice(ranges, k, lower, [], x);
        assert lower < |ranges| ==> forall i :: lower < i < |ranges| ==> ranges[lower].end < ranges[i].start;
      }
      ranges := inter.ranges;
    }
  }

  // ------------------------------------------------------------------------
  // Proof support for the in-place updates
  // ------------------------------------------------------------------------

  lemma SpliceMem(rs: seq<Range>, k: nat, e: nat, r: Range)
    requires k <= e <= |rs|
    ensures forall x :: Mem(rs[..k] + [r] + rs[e..], x) <==> Mem(rs[..k], x) || r.Has(x) || Mem(rs[e..], x)
    ensures forall x :: Mem(rs, x) <==> Mem(rs[..k], x) || Mem(rs[k..e], x) || Mem(rs[e..], x)
  {
    forall x
      ensures Mem(rs[..k] + [r] + rs[e..], x) <==> Mem(rs[..k], x) || r.Has(x) || Mem(rs[e..], x)
      ensures Mem(rs, x) <==> Mem(rs[..k], x) || Mem(rs[k..e], x) || Mem(rs[e..], x)
    {
      MemSplice(rs, k, e, [r], x);
      MemSingle(r, x);
    }
  }

  /** Inserting t between ranges it does not touch gives the union. */
  lemma AddInserted(rs: seq<Range>, k: nat, t: Range)
    requires Canonical(rs) && k <= |rs| && t.start < t.end
    requires forall i :: 0 <= i < k ==> rs[i].end < t.start
    requires k < |rs| ==> t.end < rs[k].start
    ensures Canonical(rs[..k] + [t] + rs[k..])
    ensures forall x :: Mem(rs[..k] + [t] + rs[k..], x) <==> Mem(rs, x) || t.Has(x)
  {
    SpliceCanonical(rs, k, k, t);
    SpliceMem(rs, k, k, t);
    assert rs[k..k] == [];
  }

  /** The list when range k has taken over t and the ranges before e. */
  ghost function Joined(rs: seq<Range>, k: nat, e: nat, t: Range): seq<Range>
    requires k < e <= |rs|
  {
    rs[k := Range(Min(t.start, rs[k].start), Max(t.end, rs[e - 1].end))]
  }

  ghost predicate MeetsAll(rs: seq<Range>, k: nat, e: nat, t: Range)
    requires k < e <= |rs|
  {
    forall i :: k <= i < e ==> rs[i].start <= t.end
  }

  lemma JoinedNext(rs: seq<Range>, k: nat, e: nat, t: Range)
    requires Canonical(rs) && k < e < |rs| && MeetsAll(rs, k, e, t) && rs[e].start <= Joined(rs, k, e, t)[k].end
    ensures MeetsAll(rs, k, e + 1, t)
    ensures var j := Joined(rs, k, e, t);
            Joined(rs, k, e + 1, t) == if j[k].end < j[e].end then j[k := j[k].SetEnd(j[e].end)] else j
  {
    assert rs[e - 1].end < rs[e].start;
  }

  lemma JoinedCut(rs: seq<Range>, k: nat, e: nat, t: Range)
    requires k < e <= |rs|
    ensures Joined(rs, k, e, t)[..k + 1] + Joined(rs, k, e, t)[e..]
            == rs[..k] + [Range(Min(t.start, rs[k].start), Max(t.end, rs[e - 1].end))] + rs[e..]
  {
  }

  /** Merging t with the ranges [k, e) it overlaps or touches gives the union. */
  lemma AddMerged(rs: seq<Range>, k: nat, e: nat, t: Range)
    requires Canonical(rs) && k < e <= |rs| && t.start < t.end
    requires forall i :: 0 <= i < k ==> rs[i].end < t.start
    requires forall i :: k <= i < e ==> t.start <= rs[i].end && rs[i].start <= t.end
    requires e < |rs| ==> Max(t.end, rs[e - 1].end) < rs[e].start
    ensures var out := rs[..k] + [Range(Min(t.start, rs[k].start), Max(t.end, rs[e - 1].end))] + rs[e..];
            && Canonical(out)
            && forall x :: Mem(out, x) <==> Mem(rs, x) || t.Has(x)
  {
    var merged := Range(Min(t.start, rs[k].start), Max(t.end, rs[e - 1].end));
    SpliceCanonical(rs, k, e, merged);
    SpliceMem(rs, k, e, merged);
    forall x
      ensures merged.Has(x) <==> t.Has(x) || Mem(rs[k..e], x)
    {
      MergedHas(rs, k, e, t, x);
    }
  }

  lemma MergedHas(rs: seq<Range>, k: nat, e: nat, t: Range, x: int)
    requires Canonical(rs) && k < e <= |rs| && t.start < t.end
    requires forall i :: k <= i < e ==> t.start <= rs[i].end && rs[i].start <= t.end
    ensures Range(Min(t.start, rs[k].start), Max(t.end, rs[e - 1].end)).Has(x) <==> t.Has(x) || Mem(rs[k..e], x)
  {
    var part := rs[k..e];
    if rs[k].Has(x) { assert part[0].Has(x); }
    if rs[e - 1].Has(x) { assert part[e - 1 - k].Has(x); }
    if Mem(part, x) {
      var i :| 0 <= i < |part| && part[i].Has(x);
      assert k < k + i ==> rs[k].end < rs[k + i].start;
      assert k + i < e - 1 ==> rs[k + i].end < rs[e - 1].start;
    }
  }

  lemma SpliceCanonical(rs: seq<Range>, k: nat, e: nat, merged: Range)
    requires Canonical(rs) && k <= e <= |rs|
    requires merged.start < merged.end
    requires forall i :: 0 <= i < k ==> rs[i].end < merged.start
    requires e < |rs| ==> merged.end < rs[e].start
    ensures Canonical(rs[..k] + [merged] + rs[e..])
  {
    var out := rs[..k] + [merged] + rs[e..];
    forall i, j | 0 <= i < j < |out|
      ensures out[i].end < out[j].start
    {
      if j > k {
        assert out[j] == rs[e + (j - k - 1)];
        assert rs[e].start <= rs[e + (j - k - 1)].start;
      }
      if i > k {
        assert out[i] == rs[e + (i - k - 1)];
      }
    }
  }

  /** Removing a range strictly inside rs[k] leaves its two ends. */
  lemma HoleMem(rs: seq<Range>, k: nat, t: Range)
    requires Canonical(rs) && k < |rs| && t.start < t.end
    requires rs[k].start < t.start && t.end < rs[k].end
    ensures var out := rs[..k] + [Range(rs[k].start, t.start), Range(t.end, rs[k].end)] + rs[k + 1..];
            && Canonical(out)
            && forall x :: Mem(out, x) <==> Mem(rs, x) && !t.Has(x)
  {
    var two := [Range(rs[k].start, t.start), Range(t.end, rs[k].end)];
    var out := rs[..k] + two + rs[k + 1..];
    forall x
      ensures Mem(out, x) <==> Mem(rs, x) && !t.Has(x)
    {
      MemSplice(rs, k, k + 1, two, x);
      assert rs[k..k + 1] == [rs[k]];
      MemSingle(rs[k], x);
      assert two == [two[0]] + [two[1]];
      MemConcat([two[0]], [two[1]], x);
      MemSingle(two[0], x);
      MemSingle(two[1], x);
    }
  }

  /** `cut` is rs after its ranges around t were trimmed, where only [begin, k) is inside t. */
  ghost predicate Trimmed(rs: seq<Range>, cut: seq<Range>, begin: nat, k: nat, t: Range) {
    && begin <= k <= |rs| == |cut|
    && (forall i :: 0 <= i < begin ==>
          && rs[i].start == cut[i].start < cut[i].end == Min(rs[i].end, t.start)
          && rs[i].end <= t.end)
    && (forall i :: begin <= i < k ==> t.start <= rs[i].start && rs[i].end <= t.end)
    && (forall i :: k <= i < |rs| ==>
          && Max(rs[i].start, t.end) == cut[i].start < cut[i].end == rs[i].end
          && t.start <= rs[i].start)
  }

  lemma TrimmedAround(rs: seq<Range>, cut: seq<Range>, first: nat, begin: nat, k: nat, t: Range)
    requires Canonical(rs) && t.start < t.end
    requires first <= begin <= k <= |rs| == |cut|
    requires forall i :: 0 <= i < first ==> rs[i].end <= t.start
    requires forall i :: 0 <= i < first || k < i < |rs| ==> cut[i] == rs[i]
    requires begin == first || (begin == first + 1 && rs[first].start < t.start <= rs[first].end <= t.end
                                && cut[first] == Range(rs[first].start, t.start))
    requires begin == first < |rs| ==> t.start <= rs[first].start
    requires forall i :: begin <= i < k ==> rs[i].end <= t.end
    requires k < |rs| ==> (t.end <= rs[k].start && cut[k] == rs[k])
                          || (rs[k].start < t.end < rs[k].end && cut[k] == Range(t.end, rs[k].end))
    ensures Trimmed(rs, cut, begin, k, t)
  {
    assert k < |rs| ==> forall i :: k < i < |rs| ==> rs[k].end < rs[i].start;
    assert first < |rs| ==> forall i :: first < i < |rs| ==> rs[first].end < rs[i].start;
  }

  /** Dropping the ranges [begin, k) of a trimmed list removes t from the set. */
  lemma RemoveMem(rs: seq<Range>, cut: seq<Range>, begin: nat, k: nat, t: Range, x: int)
    requires Trimmed(rs, cut, begin, k, t)
    ensures Mem(cut[..begin] + cut[k..], x) <==> Mem(rs, x) && !t.Has(x)
  {
    var out := cut[..begin] + cut[k..];
    if Mem(out, x) {
      var i :| 0 <= i < |out| && out[i].Has(x);
      assert rs[if i < begin then i else i + (k - begin)].Has(x);
    }
    if Mem(rs, x) && !t.Has(x) {
      var i :| 0 <= i < |rs| && rs[i].Has(x);
      assert cut[i].Has(x);
      assert out[if i < begin then i else i - (k - begin)].Has(x);
    }
  }

  lemma RemoveCanonical(rs: seq<Range>, cut: seq<Range>, begin: nat, k: nat, t: Range)
    requires Canonical(rs) && t.start < t.end && Trimmed(rs, cut, begin, k, t)
    ensures Canonical(cut[..begin] + cut[k..])
  {
    var out := cut[..begin] + cut[k..];
    forall i, j | 0 <= i < j < |out|
      ensures out[i].end < out[j].start
    {
      var i' := if i < begin then i else i + (k - begin);
      var j' := if j < begin then j else j + (k - begin);
      assert out[i] == cut[i'] && out[j] == cut[j'];
      assert rs[i'].end < rs[j'].start;
    }
  }

  /** The part of the intersection that lies in the ranges both cursors have passed. */
  ghost predicate Swept(a: seq<Range>, b: seq<Range>, i: nat, j: nat, x: int)
    requires i <= |a| && j <= |b|
  {
    (Mem(a[..i], x) && Mem(b, x)) || (Mem(a, x) && Mem(b[..j], x))
  }

  lemma SweptStep(a: seq<Range>, b: seq<Range>, i: nat, j: nat, i': nat, j': nat, x: int)
    requires Canonical(a) && Canonical(b) && i < |a| && j < |b|
    requires i' == (if a[i].end <= b[j].end then i + 1 else i)
    requires j' == (if b[j].end <= a[i].end then j + 1 else j)
    ensures Swept(a, b, i', j', x) <==> Swept(a, b, i, j, x) || (a[i].Has(x) && b[j].Has(x))
  {
    MemTake(a, i, x);
    MemTake(b, j, x);
    if a[i].Has(x) {
      assert Mem(a, x);
      if a[i].end <= b[j].end && Mem(b, x) {
        BeforeEnd(b, j, x);
      }
    }
    if b[j].Has(x) {
      assert Mem(b, x);
      if b[j].end <= a[i].end && Mem(a, x) {
        BeforeEnd(a, i, x);
      }
    }
  }

  lemma MemTake(rs: seq<Range>, k: nat, x: int)
    requires k < |rs|
    ensures Mem(rs[..k + 1], x) <==> Mem(rs[..k], x) || rs[k].Has(x)
  {
    assert rs[..k + 1] == rs[..k] + [rs[k]];
    MemConcat(rs[..k], [rs[k]], x);
    MemSingle(rs[k], x);
  }

  lemma BeforeEnd(rs: seq<Range>, k: nat, x: int)
    requires Canonical(rs) && k < |rs| && x < rs[k].end && Mem(rs, x)
    ensures Mem(rs[..k], x) || rs[k].Has(x)
  {
    var i :| 0 <= i < |rs| && rs[i].Has(x);
    assert i <= k;
    assert i < k ==> rs[..k][i].Has(x);
  }
}
