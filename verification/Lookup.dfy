/** Looking up a sequence (src/ExecBlock/ExecBlockManager.cpp, getProgrammedExecBlock). */
module Lookups {
  import opened Ranges
  import opened Guest
  import opened Blocks
  import opened Programs
  import opened Caches
  import opened Placements
  import opened RegionLists
  import opened BlockWrites

  /** The descriptor of a sequence that starts with the instruction and ends where the
      sequence the instruction was written with ends. */
  ghost predicate Selected(prog: Program, r: Region, k: Key, loc: SeqLoc)
    requires ProgramOk(prog)
  {
    && AllShaped(r.blocks) && SeqHas(prog, r.blocks, loc, k)
    && k in r.sequenceCache && r.sequenceCache[k] == loc
    && k in r.instCache && r.instCache[k].blockIdx == loc.blockIdx
    && SameEnd(r.blocks[loc.blockIdx], loc.seqID, r.instCache[k].instID)
  }

  ghost predicate SameEnd(b: Block, s: nat, i: nat) {
    && s < |b.seqs| && i < |b.insts| && b.insts[i].seqID < |b.seqs|
    && b.seqs[s].startInstID == i
    && b.seqs[s].endInstID == b.seqs[b.insts[i].seqID].endInstID
  }

  /** A listed sequence is one. */
  lemma FoundSequence(prog: Program, r: Region, k: Key)
    requires ProgramOk(prog) && Indexed(prog, r) && k in r.sequenceCache
    ensures Selected(prog, r, k, r.sequenceCache[k])
  {
    var l := r.sequenceCache[k];
    assert SeqHas(prog, r.blocks, l, k);
    var b := r.blocks[l.blockIdx];
    assert Shaped(b) && SequenceOk(b, l.seqID);
    assert InstListed(r.blocks, r.instCache, l.blockIdx, b.seqs[l.seqID].startInstID);
  }

  /** The region after getProgrammedExecBlock split a sequence at an instruction. */
  ghost function SplitRegion(prog: Program, r: Region, k: Key): Region
    requires ProgramOk(prog) && Indexed(prog, r) && k in r.instCache && k !in r.sequenceCache
  {
    var l := r.instCache[k];
    assert InstHas(r.blocks, l, k);
    OwnEntry(prog, r.blocks, r.sequenceCache, l.blockIdx, l.instID);
    r.(blocks := r.blocks[l.blockIdx := SplitBlock(r.blocks[l.blockIdx], l.instID)],
       sequenceCache := r.sequenceCache[k := SplitLoc(r.blocks, r.sequenceCache, l.blockIdx, l.instID)])
  }

  lemma SplitRegionIndexed(prog: Program, r: Region, k: Key)
    requires ProgramOk(prog) && Indexed(prog, r) && k in r.instCache && k !in r.sequenceCache
    ensures Indexed(prog, SplitRegion(prog, r, k))
    ensures Selected(prog, SplitRegion(prog, r, k), k, SplitRegion(prog, r, k).sequenceCache[k])
  {
    var l := r.instCache[k];
    assert InstHas(r.blocks, l, k);
    SplitBlocks(prog, r.blocks, r.instCache, l.blockIdx, l.instID);
    SplitIndexed(prog, r.blocks, r.sequenceCache, r.instCache, l.blockIdx, l.instID);
    FoundSequence(prog, SplitRegion(prog, r, k), k);
  }

  /** Nothing changes but that one block may get one more sequence, for the key. */
  ghost predicate OnlySplit(before: seq<Region>, after: seq<Region>, r: nat, k: Key) {
    && r < |before| == |after| && after == before[r := after[r]]
    && RegionSplit(before[r], after[r], k)
  }

  ghost predicate RegionSplit(x: Region, y: Region, k: Key) {
    && y == x.(blocks := y.blocks, sequenceCache := y.sequenceCache)
    && |y.blocks| == |x.blocks|
    && (forall b :: 0 <= b < |x.blocks| ==> BlockSplit(x.blocks[b], y.blocks[b]))
    && k in y.sequenceCache && y.sequenceCache == x.sequenceCache + map[k := y.sequenceCache[k]]
    && (k in x.sequenceCache ==> y == x)
  }

  ghost predicate BlockSplit(b: Block, c: Block) {
    c == b.(seqs := c.seqs) && b.seqs <= c.seqs && |c.seqs| <= |b.seqs| + 1
  }

  lemma NotSplit(r: Region, k: Key)
    requires k in r.sequenceCache
    ensures RegionSplit(r, r, k)
  {
  }

  /** A lookup that finds a listed sequence. */
  lemma FoundThere(prog: Program, regions: seq<Region>, r: nat, k: Key)
    requires ProgramOk(prog) && CacheOk(prog, regions) && r < |regions| && k in regions[r].sequenceCache
    ensures OnlySplit(regions, regions, r, k) && Selected(prog, regions[r], k, regions[r].sequenceCache[k])
  {
    GoodOne(prog, regions, r);
    FoundSequence(prog, regions[r], k);
    NotSplit(regions[r], k);
  }

  lemma SplitIsSplit(prog: Program, r: Region, k: Key)
    requires ProgramOk(prog) && Indexed(prog, r) && k in r.instCache && k !in r.sequenceCache
    ensures RegionSplit(r, SplitRegion(prog, r, k), k)
    ensures Extends(r.blocks, SplitRegion(prog, r, k).blocks)
  {
    var l, q := r.instCache[k], SplitRegion(prog, r, k);
    forall b | 0 <= b < |r.blocks|
      ensures BlockSplit(r.blocks[b], q.blocks[b])
    {
    }
    assert q.sequenceCache == r.sequenceCache + map[k := q.sequenceCache[k]];
  }

  /** Everything the split looks up is there, and there is a number for the new sequence. */
  lemma SplitSteps(prog: Program, r: Region, k: Key)
    requires ProgramOk(prog) && Good(prog, r) && k in r.instCache && k !in r.sequenceCache
    ensures var l := r.instCache[k];
            && l.blockIdx < |r.blocks| && BlockValid(r.blocks[l.blockIdx])
            && var b := r.blocks[l.blockIdx];
               && l.instID < |b.insts| && b.insts[l.instID].seqID < |b.seqs| && |b.seqs| + 1 < WORD16
               && b.seqs[b.insts[l.instID].seqID].startInstID < |b.patches|
               && Key(b.patches[b.seqs[b.insts[l.instID].seqID].startInstID].insn.key.address, k.mode) in r.sequenceCache
  {
    var l := r.instCache[k];
    assert InstHas(r.blocks, l, k);
    assert ValidAt(r.blocks, l.blockIdx);
    OwnEntry(prog, r.blocks, r.sequenceCache, l.blockIdx, l.instID);
    RoomToSplit(prog, r, l.blockIdx, l.instID);
    ValidShaped(r.blocks[l.blockIdx]);
    OwnSequence(prog, r.blocks[l.blockIdx], l.instID);
  }

  lemma SequenceMeansCached(prog: Program, regions: seq<Region>, r: nat, k: Key)
    requires ProgramOk(prog) && CacheOk(prog, regions) && r < |regions|
    ensures k in regions[r].sequenceCache ==> k in regions[r].instCache
  {
    GoodOne(prog, regions, r);
    SeqKeysCached(prog, regions[r].blocks, regions[r].sequenceCache, regions[r].instCache, k);
  }

  lemma GoodOne(prog: Program, regions: seq<Region>, r: nat)
    requires ProgramOk(prog) && CacheOk(prog, regions) && r < |regions|
    ensures Good(prog, regions[r])
  {
    assert GoodAt(prog, regions, r);
  }

  lemma SelectedValid(prog: Program, regions: seq<Region>, r: nat, k: Key, loc: SeqLoc)
    requires ProgramOk(prog) && CacheOk(prog, regions) && r < |regions| && Selected(prog, regions[r], k, loc)
    ensures BlockValid(regions[r].blocks[loc.blockIdx])
  {
    GoodOne(prog, regions, r);
    assert ValidAt(regions[r].blocks, loc.blockIdx);
  }

  lemma GoodSet(prog: Program, regions: seq<Region>, r: nat, q: Region)
    requires ProgramOk(prog) && CacheOk(prog, regions) && r < |regions|
    requires Good(prog, q) && q.covered == regions[r].covered
    ensures CacheOk(prog, regions[r := q])
  {
    assert Covers(regions[r := q]) == Covers(regions);
    AllGoodSet(prog, regions, r, q);
  }

  /** After the split all is well, and the key has its sequence. */
  lemma SplitDone(prog: Program, regions: seq<Region>, r: nat, k: Key, c: Block, loc: SeqLoc)
    requires ProgramOk(prog) && CacheOk(prog, regions) && r < |regions|
    requires Indexed(prog, regions[r]) && k in regions[r].instCache && k !in regions[r].sequenceCache
    requires BlockValid(c) && SplitResult(prog, regions[r], k, c, loc)
    ensures var q := regions[r].(blocks := regions[r].blocks[regions[r].instCache[k].blockIdx := c],
                                 sequenceCache := regions[r].sequenceCache[k := loc]);
            && CacheOk(prog, regions[r := q]) && Selected(prog, q, k, loc)
            && OnlySplit(regions, regions[r := q], r, k) && Extends(regions[r].blocks, q.blocks)
  {
    var region := regions[r];
    GoodOne(prog, regions, r);
    AllValidSet(region.blocks, region.instCache[k].blockIdx, c);
    SplitRegionIndexed(prog, region, k);
    SplitIsSplit(prog, region, k);
    GoodSet(prog, regions, r, SplitRegion(prog, region, k));
  }

  ghost predicate SplitResult(prog: Program, r: Region, k: Key, c: Block, loc: SeqLoc)
    requires ProgramOk(prog) && Indexed(prog, r) && k in r.instCache && k !in r.sequenceCache
  {
    var l := r.instCache[k];
    && l.blockIdx < |r.blocks|
    && SplitRegion(prog, r, k) == r.(blocks := r.blocks[l.blockIdx := c], sequenceCache := r.sequenceCache[k := loc])
  }
}
