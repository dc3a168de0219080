/** The regions of the translation cache together (src/ExecBlock/ExecBlockManager.cpp). */
module RegionLists {
  import opened Ranges
  import opened Guest
  import opened Blocks
  import opened Programs
  import opened Caches
  import opened Placements

  function Covers(regions: seq<Region>): (cov: seq<Range>)
    ensures |cov| == |regions| && forall i :: 0 <= i < |cov| ==> cov[i] == regions[i].covered
  {
    seq(|regions|, i requires 0 <= i < |regions| => regions[i].covered)
  }

  ghost predicate AllValid(blocks: seq<Block>) {
    forall b :: 0 <= b < |blocks| ==> ValidAt(blocks, b)
  }

  ghost predicate ValidAt(blocks: seq<Block>, b: nat)
    requires b < |blocks|
  {
    BlockValid(blocks[b])
  }

  lemma AllValidJoin(x: seq<Block>, y: seq<Block>)
    requires AllValid(x) && AllValid(y)
    ensures AllValid(x + y)
  {
    forall b | 0 <= b < |x + y|
      ensures ValidAt(x + y, b)
    {
      if b < |x| {
        assert ValidAt(x, b);
      } else {
        assert ValidAt(y, b - |x|);
      }
    }
  }

  lemma AllValidSet(blocks: seq<Block>, at: nat, c: Block)
    requires AllValid(blocks) && at < |blocks| && BlockValid(c)
    ensures AllValid(blocks[at := c])
  {
    var out := blocks[at := c];
    forall b | 0 <= b < |out|
      ensures ValidAt(out, b)
    {
      assert ValidAt(blocks, b);
    }
  }

  /** A region with everything that holds of it between two operations. */
  ghost predicate Good(prog: Program, r: Region)
    requires ProgramOk(prog)
  {
    RegionOk(prog, r) && Covered(r) && AllValid(r.blocks) && EndsBlock(prog, r.covered.end)
  }

  ghost predicate CacheOk(prog: Program, regions: seq<Region>)
    requires ProgramOk(prog)
  {
    Sorted(Covers(regions)) && AllGood(prog, regions)
  }

  // ------------------------------------------------------------------------
  // Looking up
  // ------------------------------------------------------------------------

  ghost predicate Cached(regions: seq<Region>, k: Key) {
    exists i :: 0 <= i < |regions| && k in regions[i].instCache
  }

  /** A key is cached exactly when the region searchRegion finds has it. */
  lemma CachedWhere(prog: Program, regions: seq<Region>, k: Key, low: nat)
    requires ProgramOk(prog) && CacheOk(prog, regions) && Located(Covers(regions), k.address, low)
    ensures Cached(regions, k) <==>
            low < |regions| && regions[low].covered.Has(k.address) && k in regions[low].instCache
  {
    var cov := Covers(regions);
    LocatedFinds(cov, k.address, low);
    if i :| 0 <= i < |regions| && k in regions[i].instCache {
      assert GoodAt(prog, regions, i);
      assert cov[i].Has(k.address);
      assert Mem(cov, k.address);
      SameCover(cov, k.address, i, low);
    }
  }

  lemma SameCover(cov: seq<Range>, a: int, i: nat, j: nat)
    requires Sorted(cov) && i < |cov| && j < |cov| && cov[i].Has(a) && cov[j].Has(a)
    ensures i == j
  {
  }

  /** No instruction is translated twice: a key has one region, one block and one number. */
  lemma NoDuplicate(prog: Program, regions: seq<Region>, r: nat, b: nat, i: nat, r': nat, b': nat, i': nat)
    requires ProgramOk(prog) && CacheOk(prog, regions)
    requires r < |regions| && b < |regions[r].blocks| && i < |regions[r].blocks[b].patches|
    requires r' < |regions| && b' < |regions[r'].blocks| && i' < |regions[r'].blocks[b'].patches|
    requires regions[r].blocks[b].patches[i].insn.key == regions[r'].blocks[b'].patches[i'].insn.key
    ensures r == r' && b == b' && i == i'
  {
    var k := regions[r].blocks[b].patches[i].insn.key;
    assert GoodAt(prog, regions, r) && GoodAt(prog, regions, r');
    assert InstListed(regions[r].blocks, regions[r].instCache, b, i);
    assert InstListed(regions[r'].blocks, regions[r'].instCache, b', i');
    SameCover(Covers(regions), k.address, r, r');
  }

  lemma KeysApart(prog: Program, regions: seq<Region>, i: nat, j: nat)
    requires ProgramOk(prog) && CacheOk(prog, regions) && i < j < |regions|
    ensures regions[i].instCache.Keys !! regions[j].instCache.Keys
    ensures regions[i].sequenceCache.Keys !! regions[j].sequenceCache.Keys
  {
    assert GoodAt(prog, regions, i) && GoodAt(prog, regions, j);
    forall k | k in regions[i].instCache
      ensures k !in regions[j].instCache
    {
      if k in regions[j].instCache {
        SameCover(Covers(regions), k.address, i, j);
      }
    }
    forall k | k in regions[i].sequenceCache
      ensures k !in regions[j].sequenceCache
    {
      SeqKeysCached(prog, regions[i].blocks, regions[i].sequenceCache, regions[i].instCache, k);
      SeqKeysCached(prog, regions[j].blocks, regions[j].sequenceCache, regions[j].instCache, k);
    }
  }

  // ------------------------------------------------------------------------
  // Finding a region for a code range
  // ------------------------------------------------------------------------

  function NewRegion(id: nat, covered: Range): Region {
    Region(id, covered, [], map[], map[], false)
  }

  function PlaceRegions(regions: seq<Region>, p: Placement, id: nat): seq<Region>
    requires Applicable(Covers(regions), p)
  {
    match p
    case Keep(_) => regions
    case Widen(i, r) => regions[i := regions[i].(covered := r)]
    case Fuse(i, r) => regions[..i] + [Merged(regions[i], regions[i + 1]).(covered := r)] + regions[i + 2..]
    case Insert(i, r) => regions[..i] + [NewRegion(id, r)] + regions[i..]
  }

  /** No flush request is lost: the blocks of a flagged region are in a flagged region afterwards. */
  lemma FlushKept(regions: seq<Region>, p: Placement, id: nat, i: nat)
    requires Applicable(Covers(regions), p) && i < |regions| && regions[i].toFlush
    ensures var out := PlaceRegions(regions, p, id);
            exists j :: 0 <= j < |out| && out[j].toFlush && forall b :: b in regions[i].blocks ==> b in out[j].blocks
  {
    var out := PlaceRegions(regions, p, id);
    var j := match p
             case Fuse(at, _) => if i <= at then i else i - 1
             case Insert(at, _) => if i < at then i else i + 1
             case _ => i;
    assert out[j].toFlush && forall b :: b in regions[i].blocks ==> b in out[j].blocks;
  }

  lemma PlaceCovers(regions: seq<Region>, p: Placement, id: nat)
    requires Applicable(Covers(regions), p)
    ensures Covers(PlaceRegions(regions, p, id)) == Result(Covers(regions), p)
    ensures p.at < |PlaceRegions(regions, p, id)|
  {
  }

  lemma MergedGood(prog: Program, r: Region, q: Region, covered: Range)
    requires ProgramOk(prog) && Good(prog, r) && Good(prog, q)
    requires r.instCache.Keys !! q.instCache.Keys && r.sequenceCache.Keys !! q.sequenceCache.Keys
    requires |r.blocks| + |q.blocks| < WORD16
    requires covered.Contains(r.covered) && covered.Contains(q.covered) && covered.end == q.covered.end
    ensures Good(prog, Merged(r, q).(covered := covered))
  {
    MergeShaped(prog, r.blocks, q.blocks);
    MergeInsts(r, q);
    MergeSeqs(prog, r, q);
    MergeClosed(prog, r, q);
    MergedCovered(r, q, covered);
    AllValidJoin(r.blocks, q.blocks);
  }

  lemma MergedCovered(r: Region, q: Region, covered: Range)
    requires Covered(r) && Covered(q) && covered.Contains(r.covered) && covered.Contains(q.covered)
    ensures Covered(Merged(r, q).(covered := covered))
  {
  }

  lemma NewRegionGood(prog: Program, id: nat, covered: Range)
    requires ProgramOk(prog) && EndsBlock(prog, covered.end)
    ensures Good(prog, NewRegion(id, covered))
  {
  }

  lemma WidenedGood(prog: Program, r: Region, covered: Range)
    requires ProgramOk(prog) && Good(prog, r) && covered.Contains(r.covered) && EndsBlock(prog, covered.end)
    ensures Good(prog, r.(covered := covered))
  {
  }

  ghost predicate AllGood(prog: Program, regions: seq<Region>)
    requires ProgramOk(prog)
  {
    forall i :: 0 <= i < |regions| ==> GoodAt(prog, regions, i)
  }

  ghost predicate GoodAt(prog: Program, regions: seq<Region>, i: nat)
    requires ProgramOk(prog) && i < |regions|
  {
    Good(prog, regions[i])
  }

  lemma SplicedGood(prog: Program, x: seq<Region>, r: Region, y: seq<Region>)
    requires ProgramOk(prog) && AllGood(prog, x) && Good(prog, r) && AllGood(prog, y)
    ensures AllGood(prog, x + [r] + y)
  {
    var out := x + [r] + y;
    forall k | 0 <= k < |out|
      ensures GoodAt(prog, out, k)
    {
      if k < |x| {
        assert GoodAt(prog, x, k);
      } else if k > |x| {
        assert GoodAt(prog, y, k - |x| - 1);
      }
    }
  }

  lemma AllGoodSet(prog: Program, regions: seq<Region>, i: nat, q: Region)
    requires ProgramOk(prog) && AllGood(prog, regions) && i < |regions| && Good(prog, q)
    ensures AllGood(prog, regions[i := q])
  {
    var out := regions[i := q];
    forall k | 0 <= k < |out|
      ensures GoodAt(prog, out, k)
    {
      assert GoodAt(prog, regions, k);
    }
  }

  lemma AllGoodSlice(prog: Program, regions: seq<Region>, lo: nat, hi: nat)
    requires ProgramOk(prog) && AllGood(prog, regions) && lo <= hi <= |regions|
    ensures AllGood(prog, regions[lo..hi])
  {
    forall k | 0 <= k < hi - lo
      ensures GoodAt(prog, regions[lo..hi], k)
    {
      assert GoodAt(prog, regions, lo + k);
    }
  }

  /** findRegion keeps everything there is to know about the cache. */
  lemma PlaceRegionsOk(prog: Program, regions: seq<Region>, code: Range, p: Placement, id: nat)
    requires ProgramOk(prog) && CacheOk(prog, regions) && code.start < code.end && EndsBlock(prog, code.end)
    requires Placed(Covers(regions), code, p) && Applicable(Covers(regions), p)
    requires p.Fuse? ==> |regions[p.at].blocks| + |regions[p.at + 1].blocks| < WORD16
    ensures CacheOk(prog, PlaceRegions(regions, p, id))
  {
    PlaceCovers(regions, p, id);
    PlacedSorted(Covers(regions), code, p);
    PlaceRegionsGood(prog, regions, code, p, id);
  }

  lemma PlaceRegionsGood(prog: Program, regions: seq<Region>, code: Range, p: Placement, id: nat)
    requires ProgramOk(prog) && CacheOk(prog, regions) && code.start < code.end && EndsBlock(prog, code.end)
    requires Placed(Covers(regions), code, p) && Applicable(Covers(regions), p)
    requires p.Fuse? ==> |regions[p.at].blocks| + |regions[p.at + 1].blocks| < WORD16
    ensures AllGood(prog, PlaceRegions(regions, p, id))
  {
    if p.Widen? {
      PlacedWideGood(prog, regions, code, p, id);
    } else if p.Fuse? {
      PlacedFusedGood(prog, regions, code, p, id);
    } else if p.Insert? {
      PlacedEnd(Covers(regions), code, p);
      InsertGood(prog, regions, p.at, id, code);
    }
  }

  lemma PlacedWideGood(prog: Program, regions: seq<Region>, code: Range, p: Placement, id: nat)
    requires ProgramOk(prog) && CacheOk(prog, regions) && code.start < code.end && EndsBlock(prog, code.end)
    requires Placed(Covers(regions), code, p) && Applicable(Covers(regions), p) && p.Widen?
    ensures AllGood(prog, PlaceRegions(regions, p, id))
  {
    PlacedCovers(Covers(regions), code, p);
    PlacedEnd(Covers(regions), code, p);
    assert GoodAt(prog, regions, p.at);
    WidenGood(prog, regions, p.at, p.range);
  }

  lemma PlacedFusedGood(prog: Program, regions: seq<Region>, code: Range, p: Placement, id: nat)
    requires ProgramOk(prog) && CacheOk(prog, regions) && code.start < code.end
    requires Placed(Covers(regions), code, p) && Applicable(Covers(regions), p) && p.Fuse?
    requires |regions[p.at].blocks| + |regions[p.at + 1].blocks| < WORD16
    ensures AllGood(prog, PlaceRegions(regions, p, id))
  {
    PlacedFuse(Covers(regions), code, p);
    FuseGood(prog, regions, p.at, p.range);
  }

  lemma WidenGood(prog: Program, regions: seq<Region>, i: nat, r: Range)
    requires ProgramOk(prog) && AllGood(prog, regions) && i < |regions| && r.Contains(regions[i].covered)
    requires EndsBlock(prog, r.end)
    ensures AllGood(prog, regions[i := regions[i].(covered := r)])
  {
    assert GoodAt(prog, regions, i);
    WidenedGood(prog, regions[i], r);
    AllGoodSet(prog, regions, i, regions[i].(covered := r));
  }

  lemma FuseGood(prog: Program, regions: seq<Region>, i: nat, r: Range)
    requires ProgramOk(prog) && CacheOk(prog, regions) && i + 1 < |regions|
    requires r.Contains(regions[i].covered) && r.Contains(regions[i + 1].covered) && r.end == regions[i + 1].covered.end
    requires |regions[i].blocks| + |regions[i + 1].blocks| < WORD16
    ensures AllGood(prog, regions[..i] + [Merged(regions[i], regions[i + 1]).(covered := r)] + regions[i + 2..])
  {
    KeysApart(prog, regions, i, i + 1);
    assert GoodAt(prog, regions, i) && GoodAt(prog, regions, i + 1);
    AllGoodSlice(prog, regions, 0, i);
    AllGoodSlice(prog, regions, i + 2, |regions|);
    assert regions[i + 2..|regions|] == regions[i + 2..];
    MergedGood(prog, regions[i], regions[i + 1], r);
    SplicedGood(prog, regions[..i], Merged(regions[i], regions[i + 1]).(covered := r), regions[i + 2..]);
  }

  lemma InsertGood(prog: Program, regions: seq<Region>, i: nat, id: nat, r: Range)
    requires ProgramOk(prog) && AllGood(prog, regions) && i <= |regions| && EndsBlock(prog, r.end)
    ensures AllGood(prog, regions[..i] + [NewRegion(id, r)] + regions[i..])
  {
    NewRegionGood(prog, id, r);
    AllGoodSlice(prog, regions, 0, i);
    AllGoodSlice(prog, regions, i, |regions|);
    assert regions[i..|regions|] == regions[i..];
    SplicedGood(prog, regions[..i], NewRegion(id, r), regions[i..]);
  }
}
