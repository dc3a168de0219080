/** Flagging regions and evicting the oldest ones (src/ExecBlock/ExecBlockManager.cpp, clearCache,
    flushCommit, reduceCacheTo). */
module Flushes {
  import opened Ranges
  import opened Guest
  import opened Blocks
  import opened Programs
  import opened Caches
  import opened Placements
  import opened RegionLists
  import opened BlockWrites
  import opened PageMaps
  import opened Lookups
  import RV = RegionVectors

  /** Only flags differ. */
  ghost predicate SameButFlags(x: seq<Region>, y: seq<Region>) {
    |x| == |y| && forall i :: 0 <= i < |x| ==> y[i] == x[i].(toFlush := y[i].toFlush)
  }

  lemma FlagsKeepCache(prog: Program, x: seq<Region>, y: seq<Region>)
    requires ProgramOk(prog) && CacheOk(prog, x) && SameButFlags(x, y)
    ensures CacheOk(prog, y)
  {
    assert Covers(y) == Covers(x);
    forall i | 0 <= i < |y|
      ensures GoodAt(prog, y, i)
    {
      assert GoodAt(prog, x, i);
      FlagKeepsGood(prog, x[i], y[i].toFlush);
    }
  }

  lemma FlagKeepsGood(prog: Program, r: Region, f: bool)
    requires ProgramOk(prog) && Good(prog, r)
    ensures Good(prog, r.(toFlush := f))
  {
  }

  lemma {:induction false} FlagsKeepBlocks(x: seq<Region>, y: seq<Region>)
    requires SameButFlags(x, y)
    ensures Flat(y) == Flat(x)
  {
    if x != [] {
      FlagsKeepBlocks(x[1..], y[1..]);
    }
  }

  lemma FlagsKeepBooks(x: seq<Region>, y: seq<Region>, list: seq<nat>, id: nat, needFlush: bool, needFlush': bool, pages: set<nat>)
    requires Booked(x, list, id, needFlush, pages) && SameButFlags(x, y) && FlagsOk(y, needFlush')
    ensures Booked(y, list, id, needFlush', pages)
    ensures Exact(x, pages) ==> Exact(y, pages)
  {
    assert Ids(y) == Ids(x);
    FlagsKeepBlocks(x, y);
  }

  // ------------------------------------------------------------------------
  // Flagging by address
  // ------------------------------------------------------------------------

  predicate OverlapsAny(r: Range, ranges: seq<Range>) {
    exists j :: 0 <= j < |ranges| && r.Overlaps(ranges[j])
  }

  /** Regions x with those flagged that overlap one of the ranges. */
  ghost predicate Cleared(x: seq<Region>, y: seq<Region>, ranges: seq<Range>) {
    && SameButFlags(x, y)
    && forall i :: 0 <= i < |x| ==> (y[i].toFlush <==> x[i].toFlush || OverlapsAny(x[i].covered, ranges))
  }

  lemma ClearedNone(x: seq<Region>)
    ensures Cleared(x, x, [])
  {
  }

  lemma ClearedMore(x: seq<Region>, y: seq<Region>, z: seq<Region>, a: seq<Range>, b: seq<Range>)
    requires Cleared(x, y, a) && Cleared(y, z, b)
    ensures Cleared(x, z, a + b)
  {
    forall i | 0 <= i < |x|
      ensures z[i] == x[i].(toFlush := z[i].toFlush)
      ensures z[i].toFlush <==> x[i].toFlush || OverlapsAny(x[i].covered, a + b)
    {
      assert y[i] == x[i].(toFlush := y[i].toFlush) && z[i] == y[i].(toFlush := z[i].toFlush);
      OverlapsJoin(x[i].covered, a, b);
    }
  }

  lemma OverlapsJoin(r: Range, a: seq<Range>, b: seq<Range>)
    ensures OverlapsAny(r, a + b) <==> OverlapsAny(r, a) || OverlapsAny(r, b)
  {
    if j :| 0 <= j < |a| && r.Overlaps(a[j]) {
      assert (a + b)[j] == a[j];
    }
    if j :| 0 <= j < |b| && r.Overlaps(b[j]) {
      assert (a + b)[|a| + j] == b[j];
    }
  }

  /** A region that is not flagged covers none of the addresses. */
  lemma ClearedApart(x: seq<Region>, y: seq<Region>, ranges: seq<Range>, i: nat, a: int)
    requires Cleared(x, y, ranges) && i < |y| && !y[i].toFlush && y[i].covered.Has(a)
    ensures !Mem(ranges, a)
  {
    assert !OverlapsAny(x[i].covered, ranges);
    forall j | 0 <= j < |ranges|
      ensures !ranges[j].Has(a)
    {
      assert !x[i].covered.Overlaps(ranges[j]);
    }
  }

  /** A region is flagged exactly if it was, or covers one of the addresses. */
  lemma ClearedExact(x: seq<Region>, y: seq<Region>, ranges: seq<Range>, i: nat)
    requires Cleared(x, y, ranges) && i < |x| && x[i].covered.start < x[i].covered.end
    requires forall j :: 0 <= j < |ranges| ==> ranges[j].start < ranges[j].end
    ensures y[i].toFlush <==> x[i].toFlush || exists a :: x[i].covered.Has(a) && Mem(ranges, a)
  {
    if OverlapsAny(x[i].covered, ranges) {
      var j :| 0 <= j < |ranges| && x[i].covered.Overlaps(ranges[j]);
      var a := Max(x[i].covered.start, ranges[j].start);
      assert ranges[j].Has(a) && x[i].covered.Has(a);
    }
    if a :| x[i].covered.Has(a) && Mem(ranges, a) && !y[i].toFlush {
      ClearedApart(x, y, ranges, i, a);
    }
  }

  /** The regions that may be executed and overlap none of the ranges. */
  ghost function Spared(regions: seq<Region>, ranges: seq<Range>): seq<Region> {
    if regions == [] then []
    else if !regions[0].toFlush && !OverlapsAny(regions[0].covered, ranges) then [regions[0]] + Spared(regions[1..], ranges)
    else Spared(regions[1..], ranges)
  }

  /** Those are all that may be executed afterwards. */
  lemma {:induction false} ClearedSpares(x: seq<Region>, y: seq<Region>, ranges: seq<Range>)
    requires Cleared(x, y, ranges)
    ensures Flagged(y, false) == Spared(x, ranges)
  {
    if x != [] {
      assert y[0] == x[0].(toFlush := y[0].toFlush);
      assert Cleared(x[1..], y[1..], ranges);
      ClearedSpares(x[1..], y[1..], ranges);
    }
  }

  // ------------------------------------------------------------------------
  // Evicting
  // ------------------------------------------------------------------------

  /** The number of blocks of the regions with the names. */
  ghost function SizeOf(regions: seq<Region>, names: set<nat>): nat {
    if regions == [] then 0
    else (if regions[0].id in names then |regions[0].blocks| else 0) + SizeOf(regions[1..], names)
  }

  lemma {:induction false} SizeMonotone(regions: seq<Region>, x: set<nat>, y: set<nat>)
    requires x <= y
    ensures SizeOf(regions, x) <= SizeOf(regions, y) <= |Flat(regions)|
  {
    if regions != [] {
      SizeMonotone(regions[1..], x, y);
    }
  }

  lemma {:induction false} SizeAll(regions: seq<Region>, names: set<nat>)
    requires forall i :: 0 <= i < |regions| ==> regions[i].id in names
    ensures SizeOf(regions, names) == |Flat(regions)|
  {
    if regions != [] {
      SizeAll(regions[1..], names);
    }
  }

  lemma {:induction false} SizeAbsent(regions: seq<Region>, names: set<nat>, e: nat)
    requires forall i :: 0 <= i < |regions| ==> regions[i].id != e
    ensures SizeOf(regions, names + {e}) == SizeOf(regions, names)
  {
    if regions != [] {
      SizeAbsent(regions[1..], names, e);
    }
  }

  /** One more name adds the size of its region. */
  lemma {:induction false} SizeOneMore(regions: seq<Region>, names: set<nat>, r: nat)
    requires r < |regions| && regions[r].id !in names
    requires forall i, j :: 0 <= i < j < |regions| ==> regions[i].id != regions[j].id
    ensures SizeOf(regions, names + {regions[r].id}) == SizeOf(regions, names) + |regions[r].blocks|
  {
    if r == 0 {
      SizeAbsent(regions[1..], names, regions[0].id);
    } else {
      SizeOneMore(regions[1..], names, r - 1);
    }
  }

  /** The blocks of the flagged regions are those of the regions with flagged names. */
  lemma {:induction false} FlaggedSize(regions: seq<Region>, gone: set<nat>)
    requires FlagsByName(regions, gone)
    ensures |Flat(Flagged(regions, true))| == SizeOf(regions, gone)
    ensures |Flat(Flagged(regions, false))| + SizeOf(regions, gone) == |Flat(regions)|
  {
    if regions != [] {
      assert FlagsByName(regions[1..], gone);
      FlaggedSize(regions[1..], gone);
      FlaggedStep(regions, true);
      FlaggedStep(regions, false);
    }
  }

  ghost function Names(list: seq<nat>, k: nat): set<nat>
    requires k <= |list|
  {
    set i | 0 <= i < k :: list[i]
  }

  /** Regions x with the first k of the list flagged. */
  ghost predicate Evicted(x: seq<Region>, y: seq<Region>, list: seq<nat>, k: nat)
    requires k <= |list|
  {
    && SameButFlags(x, y)
    && forall i :: 0 <= i < |x| ==> (y[i].toFlush <==> x[i].toFlush || x[i].id in Names(list, k))
  }

  /** The shortest prefix of the list whose regions have `target` blocks, or the whole list. */
  /** Whatever is flagged now, all older regions are flagged. */
  ghost predicate OldestFirst(x: seq<Region>, y: seq<Region>, list: seq<nat>)
    requires |x| == |y|
  {
    forall i, r, a, b ::
      0 <= i < |x| && 0 <= r < |x| && 0 <= b < a < |list| && x[i].id == list[a] && x[r].id == list[b] ==>
        y[i].toFlush && !x[i].toFlush ==> y[r].toFlush
  }

  lemma EvictedOldest(x: seq<Region>, y: seq<Region>, list: seq<nat>, nextId: nat, k: nat)
    requires ListOk(x, list, nextId) && k <= |list| && Evicted(x, y, list, k)
    ensures OldestFirst(x, y, list)
  {
    forall i, r, a, b | 0 <= i < |x| && 0 <= r < |x| && 0 <= b < a < |list| && x[i].id == list[a] && x[r].id == list[b]
                        && y[i].toFlush && !x[i].toFlush
      ensures y[r].toFlush
    {
      var c :| 0 <= c < k && list[c] == x[i].id;
      assert list[c] == list[a];
      assert c == a;
      assert list[b] in Names(list, k);
    }
  }

  ghost predicate ShortestPrefix(regions: seq<Region>, list: seq<nat>, target: nat, k: nat) {
    && k <= |list|
    && (k < |list| ==> target <= SizeOf(regions, Names(list, k)))
    && forall j :: 0 <= j < k ==> SizeOf(regions, Names(list, j)) < target
  }

  /** Evicting the prefix and flushing leaves no more than nb blocks. */
  lemma {:induction false} EvictionBound(x: seq<Region>, y: seq<Region>, list: seq<nat>, id: nat, pages: set<nat>, needFlush: bool, nb: nat, k: nat)
    requires Booked(x, list, id, needFlush, pages) && k <= |list| && Evicted(x, y, list, k)
    requires nb < |pages| ==> ShortestPrefix(x, list, |pages| - nb, k)
    ensures |Flat(Flagged(y, false))| <= nb
  {
    CountPages(Flat(x), pages);
    FlagsKeepBlocks(x, y);
    assert ListOk(y, list, id) by {
      assert Ids(y) == Ids(x);
    }
    NamedFlags(y, list, id);
    var gone := FlaggedIds(y);
    FlaggedSize(y, gone);
    EvictedNames(x, y, list, id, k);
    SameSizes(x, y, gone);
    SizeMonotone(x, Names(list, k), gone);
    if nb < |pages| && k == |list| {
      AllNamed(x, list, id);
      SizeAll(x, Names(list, k));
    }
  }

  /** No shorter prefix frees enough, as long as the page map is exact: what is left after a flush,
      together with what was flagged already, is more than nb blocks. */
  lemma {:induction false} EvictionMinimal(x: seq<Region>, y: seq<Region>, list: seq<nat>, id: nat, pages: set<nat>, nb: nat, k: nat, j: nat)
    requires ListOk(x, list, id) && Exact(x, pages) && nb < |pages| && ShortestPrefix(x, list, |pages| - nb, k) && j < k
    requires Evicted(x, y, list, j)
    ensures |Flat(Flagged(y, false))| + SizeOf(x, FlaggedIds(x) - Names(list, j)) > nb
    ensures FlagsOk(x, false) ==> |Flat(Flagged(y, false))| > nb
  {
    assert |Pages(Flat(x))| == |multiset(pages)| == |pages|;
    FlagsKeepBlocks(x, y);
    assert ListOk(y, list, id) by {
      assert Ids(y) == Ids(x);
    }
    NamedFlags(y, list, id);
    var gone, before := FlaggedIds(y), FlaggedIds(x) - Names(list, j);
    FlaggedSize(y, gone);
    SameSizes(x, y, gone);
    EvictedNames(x, y, list, id, j);
    EvictedOnly(x, y, list, j);
    assert gone == Names(list, j) + before;
    SizeUnion(x, Names(list, j), before);
    if FlagsOk(x, false) {
      assert before == {};
      SizeNone(x);
    }
  }

  lemma EvictedOnly(x: seq<Region>, y: seq<Region>, list: seq<nat>, k: nat)
    requires k <= |list| && Evicted(x, y, list, k)
    ensures FlaggedIds(x) <= FlaggedIds(y) <= FlaggedIds(x) + Names(list, k)
  {
    forall e | e in FlaggedIds(x)
      ensures e in FlaggedIds(y)
    {
      var r :| 0 <= r < |x| && x[r].toFlush && x[r].id == e;
      assert y[r].toFlush && y[r].id == e;
    }
    forall e | e in FlaggedIds(y)
      ensures e in FlaggedIds(x) + Names(list, k)
    {
      var r :| 0 <= r < |y| && y[r].toFlush && y[r].id == e;
      assert x[r].id == e;
    }
  }

  lemma {:induction false} SizeUnion(regions: seq<Region>, a: set<nat>, b: set<nat>)
    requires a !! b
    ensures SizeOf(regions, a + b) == SizeOf(regions, a) + SizeOf(regions, b)
  {
    if regions != [] {
      SizeUnion(regions[1..], a, b);
    }
  }

  lemma {:induction false} CountPages(blocks: seq<Block>, pages: set<nat>)
    requires Pages(blocks) <= multiset(pages)
    ensures |blocks| <= |pages|
  {
    if blocks != [] {
      var e, rest := blocks[0].base, Pages(blocks[1..]);
      assert Pages(blocks) == multiset{e} + rest;
      forall x
        ensures rest[x] <= multiset(pages - {e})[x]
      {
        assert (multiset{e} + rest)[x] <= multiset(pages)[x];
      }
      assert Pages(blocks)[e] > 0;
      CountPages(blocks[1..], pages - {e});
    }
  }

  lemma EvictedNames(x: seq<Region>, y: seq<Region>, list: seq<nat>, id: nat, k: nat)
    requires ListOk(x, list, id) && k <= |list| && Evicted(x, y, list, k)
    ensures Names(list, k) <= FlaggedIds(y)
  {
    forall e | e in Names(list, k)
      ensures e in FlaggedIds(y)
    {
      var i :| 0 <= i < k && list[i] == e;
      assert e in multiset(list);
      assert e in Ids(x);
      var r :| 0 <= r < |x| && Ids(x)[r] == e;
      assert y[r].id == e && y[r].toFlush;
    }
  }

  lemma {:induction false} SameSizes(x: seq<Region>, y: seq<Region>, names: set<nat>)
    requires SameButFlags(x, y)
    ensures SizeOf(x, names) == SizeOf(y, names)
  {
    if x != [] {
      SameSizes(x[1..], y[1..], names);
    }
  }

  lemma AllNamed(regions: seq<Region>, list: seq<nat>, id: nat)
    requires ListOk(regions, list, id)
    ensures forall i :: 0 <= i < |regions| ==> regions[i].id in Names(list, |list|)
  {
    forall i | 0 <= i < |regions|
      ensures regions[i].id in Names(list, |list|)
    {
      ListMember(regions, list, id, i);
    }
  }

  // ------------------------------------------------------------------------
  // Steps of the manager's loops
  // ------------------------------------------------------------------------

  lemma ClearedOne(x: seq<Region>, y: seq<Region>, range: Range)
    requires SameButFlags(x, y)
    requires forall j :: 0 <= j < |y| ==> (y[j].toFlush <==> x[j].toFlush || x[j].covered.Overlaps(range))
    ensures Cleared(x, y, [range])
  {
    forall i | 0 <= i < |x|
      ensures OverlapsAny(x[i].covered, [range]) <==> x[i].covered.Overlaps(range)
    {
      assert [range][0] == range;
    }
  }

  lemma {:induction false} DroppedBooks(regions: seq<Region>, pages: set<nat>)
    ensures Booked([], [], 0, false, pages) && FlagsOk([], false)
    ensures Exact(regions, pages) ==> (Exact([], pages) <==> Flat(regions) == [])
  {
    if Exact(regions, pages) && Flat(regions) == [] {
      assert Pages(Flat(regions)) == multiset{};
    }
    if Exact(regions, pages) && Exact([], pages) {
      assert |Pages(Flat(regions))| == 0;
    }
  }

  lemma {:induction false} NothingFlagged(regions: seq<Region>, list: seq<nat>)
    requires FlagsOk(regions, false)
    ensures Flagged(regions, false) == regions && RV.Kept(list, FlaggedIds(regions)) == list
  {
    AllUnflagged(regions);
    assert FlaggedIds(regions) == {};
    RV.AllKept(list, {});
  }

  lemma {:induction false} AllUnflagged(regions: seq<Region>)
    requires FlagsOk(regions, false)
    ensures Flagged(regions, false) == regions
  {
    if regions != [] {
      assert !regions[0].toFlush;
      assert FlagsOk(regions[1..], false);
      AllUnflagged(regions[1..]);
    }
  }

  lemma {:induction false} EvictedNone(x: seq<Region>, list: seq<nat>)
    ensures Evicted(x, x, list, 0) && SizeOf(x, Names(list, 0)) == 0
  {
    assert Names(list, 0) == {};
    SizeNone(x);
  }

  lemma {:induction false} SizeNone(regions: seq<Region>)
    ensures SizeOf(regions, {}) == 0
  {
    if regions != [] {
      SizeNone(regions[1..]);
    }
  }

  lemma NameListed(x: seq<Region>, y: seq<Region>, list: seq<nat>, id: nat, k: nat)
    requires ListOk(x, list, id) && SameButFlags(x, y) && k < |list|
    ensures exists i :: 0 <= i < |y| && y[i].id == list[k]
  {
    assert list[k] in multiset(list);
    assert list[k] in Ids(x);
    var r :| 0 <= r < |x| && Ids(x)[r] == list[k];
    assert y[r].id == list[k];
  }

  lemma {:induction false} EvictedMore(x: seq<Region>, y: seq<Region>, list: seq<nat>, id: nat, k: nat, r: nat)
    requires ListOk(x, list, id) && k < |list| && r < |y| && y[r].id == list[k] && Evicted(x, y, list, k)
    ensures Evicted(x, y[r := y[r].(toFlush := true)], list, k + 1)
    ensures SizeOf(x, Names(list, k + 1)) == SizeOf(x, Names(list, k)) + |y[r].blocks|
  {
    assert Names(list, k + 1) == Names(list, k) + {list[k]};
    assert y[r] == x[r].(toFlush := y[r].toFlush);
    forall i, j | 0 <= i < j < |x|
      ensures x[i].id != x[j].id
    {
      SameName(x, list, id, i, j);
    }
    assert list[k] !in Names(list, k);
    SizeOneMore(x, Names(list, k), r);
  }

  lemma {:induction false} FlaggedMore(regions: seq<Region>, r: Region)
    ensures Pages(Flat(Flagged(regions + [r], true))) ==
            Pages(Flat(Flagged(regions, true))) + (if r.toFlush then Pages(r.blocks) else multiset{})
  {
    FlaggedSnoc(regions, r, true);
    if r.toFlush {
      FlatJoin(Flagged(regions, true), [r]);
      FlatOne(r);
      PagesJoin(Flat(Flagged(regions, true)), r.blocks);
    } else {
      assert Flagged(regions, true) + [] == Flagged(regions, true);
    }
  }

  lemma NamesMore(regions: seq<Region>, r: Region)
    ensures FlaggedIds(regions + [r]) == FlaggedIds(regions) + (if r.toFlush then {r.id} else {})
  {
    var all := regions + [r];
    forall e | e in FlaggedIds(regions)
      ensures e in FlaggedIds(all)
    {
      var i :| 0 <= i < |regions| && regions[i].toFlush && regions[i].id == e;
      assert all[i] == regions[i];
    }
    assert all[|regions|] == r;
  }

  /** One more region is looked at: its blocks' pages and its name go, or it stays. */
  lemma EraseStep(regions: seq<Region>, i: nat)
    requires i < |regions|
    ensures regions[i].toFlush ==>
              && Flagged(regions[..i + 1], false) == Flagged(regions[..i], false)
              && FlaggedIds(regions[..i + 1]) == FlaggedIds(regions[..i]) + {regions[i].id}
              && Pages(Flat(Flagged(regions[..i + 1], true))) == Pages(Flat(Flagged(regions[..i], true))) + Pages(regions[i].blocks)
    ensures !regions[i].toFlush ==>
              && Flagged(regions[..i + 1], false) == Flagged(regions[..i], false) + [regions[i]]
              && FlaggedIds(regions[..i + 1]) == FlaggedIds(regions[..i])
              && Pages(Flat(Flagged(regions[..i + 1], true))) == Pages(Flat(Flagged(regions[..i], true)))
  {
    assert regions[..i + 1] == regions[..i] + [regions[i]];
    FlaggedSnoc(regions[..i], regions[i], false);
    FlaggedMore(regions[..i], regions[i]);
    NamesMore(regions[..i], regions[i]);
  }

  lemma {:induction false} KeptTwice(list: seq<nat>, gone: set<nat>, e: nat)
    ensures RV.Kept(RV.Kept(list, gone), {e}) == RV.Kept(list, gone + {e})
  {
    if list != [] {
      KeptTwice(list[1..], gone, e);
      if list[0] !in gone {
        assert ([list[0]] + RV.Kept(list[1..], gone))[1..] == RV.Kept(list[1..], gone);
      }
    }
  }

  /** flushCommit has looked at the first i regions. */
  ghost predicate Erasing(regions: seq<Region>, i: nat, all: seq<nat>, book: set<nat>,
                          kept: seq<Region>, list: seq<nat>, pages: set<nat>)
  {
    && i <= |regions| && kept == Flagged(regions[..i], false)
    && list == RV.Kept(all, FlaggedIds(regions[..i]))
    && forall x :: x in pages <==> x in book && x !in Pages(Flat(Flagged(regions[..i], true)))
  }

  lemma ErasingNone(regions: seq<Region>, all: seq<nat>, book: set<nat>)
    ensures Erasing(regions, 0, all, book, [], all, book)
  {
    RV.AllKept(all, {});
    assert FlaggedIds(regions[..0]) == {};
  }

  lemma ErasingKept(regions: seq<Region>, i: nat, all: seq<nat>, book: set<nat>,
                    kept: seq<Region>, list: seq<nat>, pages: set<nat>)
    requires Erasing(regions, i, all, book, kept, list, pages) && i < |regions| && !regions[i].toFlush
    ensures Erasing(regions, i + 1, all, book, kept + [regions[i]], list, pages)
  {
    EraseStep(regions, i);
  }

  lemma ErasingDropped(regions: seq<Region>, i: nat, all: seq<nat>, book: set<nat>,
                       kept: seq<Region>, list: seq<nat>, pages: set<nat>, list': seq<nat>, pages': set<nat>)
    requires Erasing(regions, i, all, book, kept, list, pages) && i < |regions| && regions[i].toFlush
    requires list' == RV.Kept(list, {regions[i].id})
    requires forall x :: x in pages' <==> x in pages && x !in Pages(regions[i].blocks)
    ensures Erasing(regions, i + 1, all, book, kept, list', pages')
  {
    EraseStep(regions, i);
    KeptTwice(all, FlaggedIds(regions[..i]), regions[i].id);
  }
}
