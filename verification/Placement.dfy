/** Where findRegion puts a code range among the covered ranges of the regions
    (src/ExecBlock/ExecBlockManager.cpp). */
module Placements {
  import opened Ranges

  /** Covered ranges: not empty, in order, without overlap. They may touch. */
  ghost predicate Sorted(cov: seq<Range>) {
    && (forall i :: 0 <= i < |cov| ==> cov[i].start < cov[i].end)
    && (forall i, j :: 0 <= i < j < |cov| ==> cov[i].end <= cov[j].start)
  }

  /** What searchRegion returns: the last region that starts at or before the address, or the
      first one. */
  ghost predicate Located(cov: seq<Range>, a: int, low: nat) {
    && (cov == [] ==> low == 0)
    && (cov != [] ==>
          && low < |cov|
          && (forall i :: 0 < i <= low ==> cov[i].start <= a)
          && (low > 0 ==> cov[0].start <= a)
          && (forall i :: low < i < |cov| ==> a < cov[i].start))
  }

  /** An address is covered exactly when the located region covers it. */
  lemma LocatedFinds(cov: seq<Range>, a: int, low: nat)
    requires Sorted(cov) && Located(cov, a, low)
    ensures Mem(cov, a) <==> low < |cov| && cov[low].Has(a)
  {
    assert low < |cov| ==> forall i :: 0 <= i < low ==> cov[i].end <= cov[low].start;
    if Mem(cov, a) {
      var i :| 0 <= i < |cov| && cov[i].Has(a);
      assert i == low;
    }
  }

  // ------------------------------------------------------------------------

  /** The regions after findRegion: one kept, one widened, one merged with its successor, or a
      new one; `at` is the region it returns. */
  datatype Placement =
    | Keep(at: nat)
    | Widen(at: nat, range: Range)
    | Fuse(at: nat, range: Range)
    | Insert(at: nat, range: Range)

  /** The covered range of the region findRegion returns. */
  function Landing(cov: seq<Range>, p: Placement): Range
    requires Applicable(cov, p)
  {
    if p.Keep? then cov[p.at] else p.range
  }

  lemma ResultAt(cov: seq<Range>, p: Placement)
    requires Applicable(cov, p)
    ensures p.at < |Result(cov, p)| && Result(cov, p)[p.at] == Landing(cov, p)
  {
  }

  function Result(cov: seq<Range>, p: Placement): seq<Range>
    requires Applicable(cov, p)
  {
    match p
    case Keep(_) => cov
    case Widen(i, r) => cov[i := r]
    case Fuse(i, r) => cov[..i] + [r] + cov[i + 2..]
    case Insert(i, r) => cov[..i] + [r] + cov[i..]
  }

  /** The placement for a range whose first overlapping region is j: it takes the range's start,
      and its end unless the next region is in the way. Then only that one region is merged. */
  function PlaceOver(cov: seq<Range>, code: Range, j: nat): Placement
    requires j < |cov|
  {
    if cov[j].Contains(code) then Keep(j)
    else
      var start := Min(code.start, cov[j].start);
      if code.end <= cov[j].end then Widen(j, Range(start, cov[j].end))
      else if j + 1 == |cov| || code.end <= cov[j + 1].start then Widen(j, Range(start, code.end))
      else Fuse(j, Range(start, cov[j + 1].end))
  }

  ghost predicate FirstOverlap(cov: seq<Range>, code: Range, j: nat) {
    && j < |cov| && cov[j].Overlaps(code)
    && forall i :: 0 <= i < j ==> !cov[i].Overlaps(code)
  }

  /** All ranges before i are before the code range, the others behind it. */
  ghost predicate Between(cov: seq<Range>, code: Range, i: nat) {
    && i <= |cov|
    && (forall k :: 0 <= k < i ==> cov[k].end <= code.start)
    && (forall k :: i <= k < |cov| ==> code.end <= cov[k].start)
  }

  /** The placements findRegion may answer; the cost test only decides among the last ones. */
  ghost predicate Placed(cov: seq<Range>, code: Range, p: Placement) {
    || (exists j :: FirstOverlap(cov, code, j) && p == PlaceOver(cov, code, j))
    || (exists i :: Between(cov, code, i) && PlacedBetween(cov, code, p, i))
  }

  /** Without an overlap: one of the two neighbours is extended, or a region is created. */
  ghost predicate PlacedBetween(cov: seq<Range>, code: Range, p: Placement, i: nat)
    requires i <= |cov|
  {
    || p == Insert(i, code)
    || (0 < i && p == Widen(i - 1, Range(cov[i - 1].start, code.end)))
    || (i < |cov| && p == Widen(i, Range(code.start, cov[i].end)))
  }

  ghost predicate Applicable(cov: seq<Range>, p: Placement) {
    p.at <= |cov| && (p.Insert? || p.at < |cov|) && (p.Fuse? ==> p.at + 1 < |cov|)
  }

  lemma PlacedApplicable(cov: seq<Range>, code: Range, p: Placement)
    requires Placed(cov, code, p)
    ensures Applicable(cov, p)
  {
  }

  /** Whatever the cost test answers, the regions stay in order and apart. */
  lemma PlacedSorted(cov: seq<Range>, code: Range, p: Placement)
    requires Sorted(cov) && code.start < code.end && Placed(cov, code, p)
    ensures Applicable(cov, p) && Sorted(Result(cov, p))
  {
    PlacedApplicable(cov, code, p);
    if j :| FirstOverlap(cov, code, j) && p == PlaceOver(cov, code, j) {
      PlaceOverSorted(cov, code, j);
    } else {
      var i :| Between(cov, code, i) && PlacedBetween(cov, code, p, i);
      PlaceBetweenSorted(cov, code, p, i);
    }
  }

  lemma PlaceBetweenSorted(cov: seq<Range>, code: Range, p: Placement, i: nat)
    requires Sorted(cov) && code.start < code.end && Between(cov, code, i) && PlacedBetween(cov, code, p, i)
    ensures Sorted(Result(cov, p))
  {
    if p.Insert? {
      InsertSorted(cov, i, code);
    } else {
      WidenSorted(cov, p.at, p.range);
    }
  }

  lemma InsertSorted(cov: seq<Range>, i: nat, r: Range)
    requires Sorted(cov) && r.start < r.end && Between(cov, r, i)
    ensures Sorted(cov[..i] + [r] + cov[i..])
  {
    var out := cov[..i] + [r] + cov[i..];
    assert forall k :: 0 <= k < i ==> out[k] == cov[k];
    assert forall k :: i < k < |out| ==> out[k] == cov[k - 1];
    forall a, b | 0 <= a < b < |out|
      ensures out[a].end <= out[b].start
    {
      var a', b' := if a < i then a else a - 1, if b < i then b else b - 1;
      if a != i && b != i {
        assert cov[a'].end <= cov[b'].start;
      }
    }
  }

  lemma WidenSorted(cov: seq<Range>, i: nat, r: Range)
    requires Sorted(cov) && i < |cov| && r.start < r.end
    requires forall k :: 0 <= k < i ==> cov[k].end <= r.start
    requires forall k :: i < k < |cov| ==> r.end <= cov[k].start
    ensures Sorted(cov[i := r])
  {
  }

  lemma PlaceOverSorted(cov: seq<Range>, code: Range, j: nat)
    requires Sorted(cov) && code.start < code.end && FirstOverlap(cov, code, j)
    ensures Sorted(Result(cov, PlaceOver(cov, code, j)))
  {
    forall i | 0 <= i < j
      ensures cov[i].end <= Min(code.start, cov[j].start)
    {
      assert !cov[i].Overlaps(code);
      assert cov[i].end <= cov[j].start;
    }
    var p := PlaceOver(cov, code, j);
    if p.Fuse? {
      FuseSorted(cov, j, p.range);
    }
  }

  lemma FuseSorted(cov: seq<Range>, j: nat, r: Range)
    requires Sorted(cov) && j + 1 < |cov|
    requires r.end == cov[j + 1].end && r.start <= cov[j].start
    requires forall i :: 0 <= i < j ==> cov[i].end <= r.start
    ensures Sorted(cov[..j] + [r] + cov[j + 2..])
  {
    var out := cov[..j] + [r] + cov[j + 2..];
    assert cov[j].end <= cov[j + 1].start;
    forall a, b | 0 <= a < b < |out|
      ensures out[a].end <= out[b].start
    {
      if b > j {
        assert out[b] == cov[b + 1];
        assert a > j ==> out[a] == cov[a + 1];
        assert cov[j + 1].end <= cov[b + 1].start;
      }
    }
    forall a | 0 <= a < |out|
      ensures out[a].start < out[a].end
    {
      if a > j {
        assert out[a] == cov[a + 1];
      }
    }
  }

  /** The returned region covers the start of the range, and nothing loses its cover. */
  lemma PlacedCovers(cov: seq<Range>, code: Range, p: Placement)
    requires Sorted(cov) && code.start < code.end && Placed(cov, code, p)
    ensures Applicable(cov, p) && Landing(cov, p).Has(code.start)
    ensures !p.Insert? ==> Landing(cov, p).Contains(cov[p.at])
    ensures p.Fuse? ==> Landing(cov, p).Contains(cov[p.at + 1])
  {
    PlacedApplicable(cov, code, p);
    if j :| FirstOverlap(cov, code, j) && p == PlaceOver(cov, code, j) {
      PlaceOverCovers(cov, code, j);
    } else {
      var i :| Between(cov, code, i) && PlacedBetween(cov, code, p, i);
      PlaceBetweenCovers(cov, code, p, i);
    }
  }

  lemma PlaceOverCovers(cov: seq<Range>, code: Range, j: nat)
    requires Sorted(cov) && code.start < code.end && FirstOverlap(cov, code, j)
    ensures var p := PlaceOver(cov, code, j);
            && Landing(cov, p).Has(code.start) && Landing(cov, p).Contains(cov[j])
            && (p.Fuse? ==> Landing(cov, p).Contains(cov[j + 1]))
  {
    var p := PlaceOver(cov, code, j);
    if p.Fuse? {
      assert cov[j].end <= cov[j + 1].start;
    }
  }

  lemma PlaceBetweenCovers(cov: seq<Range>, code: Range, p: Placement, i: nat)
    requires Sorted(cov) && code.start < code.end && Between(cov, code, i) && PlacedBetween(cov, code, p, i)
    ensures Landing(cov, p).Contains(code) && (!p.Insert? ==> Landing(cov, p).Contains(cov[p.at]))
  {
  }

  /** The returned region ends where the range, the region or its successor ended. */
  lemma PlacedEnd(cov: seq<Range>, code: Range, p: Placement)
    requires Placed(cov, code, p) && Applicable(cov, p)
    ensures p.Widen? ==> p.range.end == code.end || p.range.end == cov[p.at].end
    ensures p.Insert? ==> p.range == code
    ensures p.Fuse? ==> p.range.end == cov[p.at + 1].end
  {
  }

  /** A merged region covers both, up to the end of the second. */
  lemma PlacedFuse(cov: seq<Range>, code: Range, p: Placement)
    requires Sorted(cov) && code.start < code.end && Placed(cov, code, p) && p.Fuse?
    ensures p.at + 1 < |cov| && p.range.Contains(cov[p.at]) && p.range.Contains(cov[p.at + 1]) && p.range.end == cov[p.at + 1].end
  {
    var over, j := PlacedCases(cov, code, p);
    PlaceOverCovers(cov, code, j);
  }

  /** The code range runs past the one region it can be merged with. */
  ghost predicate Overlong(cov: seq<Range>, code: Range, last: int) {
    exists j :: FirstOverlap(cov, code, j) && OverlongAt(cov, code, j, last)
  }

  ghost predicate OverlongAt(cov: seq<Range>, code: Range, j: nat, last: int)
    requires j < |cov|
  {
    && cov[j].end < code.end
    && j + 1 < |cov| && cov[j + 1].start < code.end
    && cov[j + 1].end <= last
  }

  /** The returned region covers an address of the range exactly when the range is not
      overlong for it. */
  lemma PlacedCoversIff(cov: seq<Range>, code: Range, p: Placement, last: int)
    requires Sorted(cov) && Placed(cov, code, p) && code.Has(last)
    ensures Applicable(cov, p)
    ensures Landing(cov, p).Has(last) <==> !Overlong(cov, code, last)
  {
    PlacedApplicable(cov, code, p);
    if j :| FirstOverlap(cov, code, j) && p == PlaceOver(cov, code, j) {
      FirstOverlapUnique(cov, code, j);
      PlaceOverLast(cov, code, j, last);
    } else {
      var i :| Between(cov, code, i) && PlacedBetween(cov, code, p, i);
      PlaceBetweenCovers(cov, code, p, i);
      assert forall k :: 0 <= k < |cov| ==> !cov[k].Overlaps(code);
    }
  }

  lemma PlaceOverLast(cov: seq<Range>, code: Range, j: nat, last: int)
    requires Sorted(cov) && FirstOverlap(cov, code, j) && code.Has(last)
    ensures Landing(cov, PlaceOver(cov, code, j)).Has(last) <==> !OverlongAt(cov, code, j, last)
  {
  }

  lemma FirstOverlapUnique(cov: seq<Range>, code: Range, j: nat)
    requires FirstOverlap(cov, code, j)
    ensures forall k :: FirstOverlap(cov, code, k) ==> k == j
  {
  }

  /** Every range has a placement. */
  lemma SomePlacement(cov: seq<Range>, code: Range) returns (p: Placement)
    requires Sorted(cov) && code.start < code.end
    ensures Placed(cov, code, p)
  {
    var i := 0;
    while i < |cov| && cov[i].end <= code.start
      invariant i <= |cov| && forall k :: 0 <= k < i ==> cov[k].end <= code.start
    {
      i := i + 1;
    }
    if i < |cov| && cov[i].start < code.end {
      assert FirstOverlap(cov, code, i);
      p := PlaceOver(cov, code, i);
    } else {
      assert i < |cov| ==> forall k :: i < k < |cov| ==> cov[i].end <= cov[k].start;
      assert Between(cov, code, i);
      p := Insert(i, code);
    }
  }

  // ------------------------------------------------------------------------
  // Placing the same range twice
  // ------------------------------------------------------------------------

  /** A covered range is placed where it is. */
  lemma PlacedInside(cov: seq<Range>, code: Range, p: Placement, at: nat)
    requires Sorted(cov) && code.start < code.end && Placed(cov, code, p)
    requires at < |cov| && cov[at].Contains(code)
    ensures p == Keep(at)
  {
    assert FirstOverlap(cov, code, at) by {
      forall i | 0 <= i < at
        ensures !cov[i].Overlaps(code)
      {
        assert cov[i].end <= cov[at].start;
      }
    }
    FirstOverlapUnique(cov, code, at);
  }

  /** preWriteBasicBlock and writeBasicBlock both place the range, so a second neighbour can be
      merged: the code range is out of reach only behind a third one. */
  ghost predicate OverlongTwice(cov: seq<Range>, code: Range, last: int) {
    exists j :: FirstOverlap(cov, code, j) && OverlongTwiceAt(cov, code, j, last)
  }

  ghost predicate OverlongTwiceAt(cov: seq<Range>, code: Range, j: nat, last: int)
    requires j < |cov|
  {
    && cov[j].end < code.end
    && j + 2 < |cov| && cov[j + 2].start < code.end
    && cov[j + 2].end <= last
  }

  lemma PlacedTwiceCoversIff(cov: seq<Range>, code: Range, p: Placement, q: Placement, last: int)
    requires Sorted(cov) && code.Has(last) && Placed(cov, code, p)
    requires Applicable(cov, p) && Placed(Result(cov, p), code, q)
    ensures Applicable(Result(cov, p), q)
    ensures Landing(Result(cov, p), q).Has(last) <==> !OverlongTwice(cov, code, last)
  {
    var over, k := PlacedCases(cov, code, p);
    if over {
      TwiceOver(cov, code, k, q, last);
    } else {
      TwiceBetween(cov, code, p, k, q, last);
    }
  }

  lemma PlacedCases(cov: seq<Range>, code: Range, p: Placement) returns (over: bool, k: nat)
    requires Placed(cov, code, p)
    ensures over ==> FirstOverlap(cov, code, k) && p == PlaceOver(cov, code, k)
    ensures !over ==> Between(cov, code, k) && PlacedBetween(cov, code, p, k)
  {
    if j :| FirstOverlap(cov, code, j) && p == PlaceOver(cov, code, j) {
      return true, j;
    }
    var i :| Between(cov, code, i) && PlacedBetween(cov, code, p, i);
    return false, i;
  }

  lemma TwiceOver(cov: seq<Range>, code: Range, j: nat, q: Placement, last: int)
    requires Sorted(cov) && code.Has(last) && FirstOverlap(cov, code, j)
    requires Placed(Result(cov, PlaceOver(cov, code, j)), code, q)
    ensures var out := Result(cov, PlaceOver(cov, code, j));
            Applicable(out, q) && (Landing(out, q).Has(last) <==> !OverlongTwice(cov, code, last))
  {
    var p := PlaceOver(cov, code, j);
    PlaceOverSorted(cov, code, j);
    FirstOverlapUnique(cov, code, j);
    if p.Fuse? {
      PlacedCoversIff(Result(cov, p), code, q, last);
      FusedAgain(cov, code, j, last);
    } else {
      CoveredAtOnce(cov, code, p, q);
      NotTwice(cov, code, j, last);
    }
  }

  lemma TwiceBetween(cov: seq<Range>, code: Range, p: Placement, i: nat, q: Placement, last: int)
    requires Sorted(cov) && code.Has(last) && Between(cov, code, i) && PlacedBetween(cov, code, p, i)
    requires Applicable(cov, p) && Placed(Result(cov, p), code, q)
    ensures Applicable(Result(cov, p), q) && Landing(Result(cov, p), q).Has(last) && !OverlongTwice(cov, code, last)
  {
    PlaceBetweenSorted(cov, code, p, i);
    PlaceBetweenCovers(cov, code, p, i);
    CoveredAtOnce(cov, code, p, q);
    NothingOverlaps(cov, code, i);
  }

  lemma CoveredAtOnce(cov: seq<Range>, code: Range, p: Placement, q: Placement)
    requires Applicable(cov, p) && Sorted(Result(cov, p)) && code.start < code.end
    requires Landing(cov, p).Contains(code) && Placed(Result(cov, p), code, q)
    ensures q == Keep(p.at) && Applicable(Result(cov, p), q) && Landing(Result(cov, p), q) == Landing(cov, p)
  {
    ResultAt(cov, p);
    PlacedInside(Result(cov, p), code, q, p.at);
  }

  lemma NotTwice(cov: seq<Range>, code: Range, j: nat, last: int)
    requires Sorted(cov) && FirstOverlap(cov, code, j) && !PlaceOver(cov, code, j).Fuse?
    ensures !OverlongTwiceAt(cov, code, j, last)
  {
    assert j + 2 < |cov| ==> cov[j + 1].start < cov[j + 1].end <= cov[j + 2].start;
  }

  lemma NothingOverlaps(cov: seq<Range>, code: Range, i: nat)
    requires Between(cov, code, i)
    ensures forall k :: !FirstOverlap(cov, code, k)
  {
  }

  lemma FusedAgain(cov: seq<Range>, code: Range, j: nat, last: int)
    requires Sorted(cov) && code.Has(last) && FirstOverlap(cov, code, j) && PlaceOver(cov, code, j).Fuse?
    ensures var out := Result(cov, PlaceOver(cov, code, j));
            Overlong(out, code, last) <==> OverlongTwiceAt(cov, code, j, last)
  {
    var p := PlaceOver(cov, code, j);
    var out := Result(cov, p);
    assert out[j] == p.range;
    assert cov[j].end <= cov[j + 1].start;
    assert FirstOverlap(out, code, j) by {
      assert forall i :: 0 <= i < j ==> out[i] == cov[i];
    }
    FirstOverlapUnique(out, code, j);
    if j + 2 < |cov| {
      assert out[j + 1] == cov[j + 2];
      assert cov[j + 1].end <= cov[j + 2].start;
    }
  }
}
