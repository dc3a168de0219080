/** What a whole call of writeBasicBlock does to the cache (src/ExecBlock/ExecBlockManager.cpp). */
module BasicBlocks {
  import opened Ranges
  import opened Guest
  import opened Blocks
  import opened Programs
  import opened Caches
  import opened Placements
  import opened RegionLists
  import opened BlockWrites
  import opened PageMaps
  import opened Lookups
  import opened Folding
  import opened Recording

  // ------------------------------------------------------------------------
  // Pages
  // ------------------------------------------------------------------------

  lemma BookedPages(regions: seq<Region>, list: seq<nat>, id: nat, needFlush: bool, book: set<nat>, r: nat, q: Region, pages: set<nat>)
    requires Booked(regions, list, id, needFlush, book) && r < |regions|
    requires q.id == regions[r].id && q.toFlush == regions[r].toFlush
    requires NewPages(regions[r].blocks, q.blocks, LivePages(regions), pages)
    ensures Booked(regions[r := q], list, id, needFlush, book + (pages - LivePages(regions)))
    ensures Exact(regions, book) ==> Exact(regions[r := q], book + (pages - LivePages(regions)))
    ensures Pages(Flat(regions)) <= Pages(Flat(regions[r := q]))
  {
    IdsSet(regions, r, q);
    PagesBooked(regions, book, r, q, pages);
    assert FlagsOk(regions[r := q], needFlush);
  }

  lemma PagesBooked(regions: seq<Region>, book: set<nat>, r: nat, q: Region, pages: set<nat>)
    requires r < |regions| && Pages(Flat(regions)) <= multiset(book)
    requires NewPages(regions[r].blocks, q.blocks, LivePages(regions), pages)
    ensures Pages(Flat(regions)) <= Pages(Flat(regions[r := q])) <= multiset(book + (pages - LivePages(regions)))
    ensures Exact(regions, book) ==> Exact(regions[r := q], book + (pages - LivePages(regions)))
  {
    var added := pages - LivePages(regions);
    PagesAt(regions, r, q, multiset(added));
    forall x | x in added
      ensures x !in Pages(Flat(regions))
    {
      LiveAreFlat(regions, x);
    }
    SomeMore(Pages(Flat(regions)), book, added);
  }

  lemma SomeMore(live: multiset<nat>, pages: set<nat>, added: set<nat>)
    requires live <= multiset(pages) && forall x :: x in added ==> x !in live
    ensures live + multiset(added) <= multiset(pages + added)
    ensures live == multiset(pages) ==> live + multiset(added) == multiset(pages + added)
  {
    forall x
      ensures (live + multiset(added))[x] <= multiset(pages + added)[x]
      ensures live == multiset(pages) ==> (live + multiset(added))[x] == multiset(pages + added)[x]
    {
      assert live[x] <= multiset(pages)[x];
    }
  }

  // ------------------------------------------------------------------------
  // Looking for a block with room
  // ------------------------------------------------------------------------

  /** Region y is x with some of its blocks tried and some added; folded. */
  ghost predicate Tried(prog: Program, x: Region, y: Region, live: set<nat>, pages: set<nat>)
    requires ProgramOk(prog)
  {
    forall u {:trigger Asked(ASearch, u)} :: Asked(ASearch, u) ==> Stepped(prog, x, y) && NewPages(x.blocks, y.blocks, live, pages)
  }

  lemma TriedIs(prog: Program, x: Region, y: Region, live: set<nat>, pages: set<nat>)
    requires ProgramOk(prog)
    ensures Tried(prog, x, y, live, pages) <==> Stepped(prog, x, y) && NewPages(x.blocks, y.blocks, live, pages)
  {
    assert Asked(ASearch, 0);
  }

  lemma TriedNone(prog: Program, x: Region, live: set<nat>)
    requires ProgramOk(prog) && Sound(prog, x)
    ensures Tried(prog, x, x, live, live)
  {
    SteppedNot(prog, x);
    assert multiset(live - live) == multiset{};
    TriedIs(prog, x, x, live, live);
  }

  lemma TriedFull(prog: Program, x: Region, y: Region, live: set<nat>, pages: set<nat>, i: nat, c: Block)
    requires ProgramOk(prog) && Tried(prog, x, y, live, pages) && i < |y.blocks|
    requires BlockValid(c) && Restored(y.blocks[i], c)
    ensures Tried(prog, x, y.(blocks := y.blocks[i := c]), live, pages)
  {
    TriedIs(prog, x, y, live, pages);
    SteppedRestored(prog, x, y, i, c);
    SamePages(x.blocks, y.blocks, y.blocks[i := c], live, pages);
    TriedIs(prog, x, y.(blocks := y.blocks[i := c]), live, pages);
  }

  lemma TriedCanWrite(prog: Program, x: Region, y: Region, live: set<nat>, pages: set<nat>, i: nat)
    requires ProgramOk(prog) && Tried(prog, x, y, live, pages) && i < |y.blocks|
    ensures BlockValid(y.blocks[i]) && |y.blocks[i].seqs| < EXEC_BLOCK_FULL && |y.blocks| <= WORD16
  {
    TriedIs(prog, x, y, live, pages);
    CanWrite(prog, y, i);
  }

  /** Region y is x with the first m patches, as sequences that `cuts` separates, and new pages; folded. */
  ghost predicate Pieced(prog: Program, x: Region, y: Region, cuts: seq<nat>, bb: seq<Patch>, m: nat, live: set<nat>, pages: set<nat>)
    requires ProgramOk(prog)
  {
    forall u {:trigger Asked(ASearch, u)} :: Asked(ASearch, u) ==>
      Advanced(prog, x, y, bb, m) && Partition(y, cuts, bb, m) && NewPages(x.blocks, y.blocks, live, pages)
  }

  lemma PiecedIs(prog: Program, x: Region, y: Region, cuts: seq<nat>, bb: seq<Patch>, m: nat, live: set<nat>, pages: set<nat>)
    requires ProgramOk(prog)
    ensures Pieced(prog, x, y, cuts, bb, m, live, pages)
            <==> Advanced(prog, x, y, bb, m) && Partition(y, cuts, bb, m) && NewPages(x.blocks, y.blocks, live, pages)
  {
    assert Asked(ASearch, 0);
  }

  /** The first n patches of the basic block can be written, for the region has none of them; folded. */
  ghost predicate Awaited(prog: Program, x: Region, bb: seq<Patch>, n: nat) {
    forall u {:trigger Asked(ASearch, u)} :: Asked(ASearch, u) ==>
      && IsBasicBlock(prog, bb) && n <= |bb|
      && forall j :: 0 <= j < n ==> WellFormed(bb[j]) && bb[j].insn.key !in x.instCache
  }

  lemma AwaitedIs(prog: Program, x: Region, bb: seq<Patch>, n: nat)
    ensures Awaited(prog, x, bb, n)
            <==> IsBasicBlock(prog, bb) && n <= |bb|
                 && forall j :: 0 <= j < n ==> WellFormed(bb[j]) && bb[j].insn.key !in x.instCache
  {
    assert Asked(ASearch, 0);
  }

  /** Region y is x with the first m patches, and the others up to n can be written; folded. */
  ghost predicate Upcoming(prog: Program, x: Region, y: Region, bb: seq<Patch>, m: nat, n: nat)
    requires ProgramOk(prog)
  {
    forall u {:trigger Asked(ASearch, u)} :: Asked(ASearch, u) ==>
      && IsBasicBlock(prog, bb) && m < n <= |bb| && Advanced(prog, x, y, bb, m)
      && forall j :: 0 <= j < n ==> WellFormed(bb[j]) && bb[j].insn.key !in x.instCache
  }

  lemma UpcomingIs(prog: Program, x: Region, y: Region, bb: seq<Patch>, m: nat, n: nat)
    requires ProgramOk(prog)
    ensures Upcoming(prog, x, y, bb, m, n)
            <==> IsBasicBlock(prog, bb) && m < n <= |bb| && Advanced(prog, x, y, bb, m)
                 && forall j :: 0 <= j < n ==> WellFormed(bb[j]) && bb[j].insn.key !in x.instCache
  {
    assert Asked(ASearch, 0);
  }

  lemma UpcomingStart(prog: Program, x: Region, y: Region, bb: seq<Patch>, m: nat, n: nat, live: set<nat>)
    requires ProgramOk(prog) && Upcoming(prog, x, y, bb, m, n)
    ensures m < n <= |bb| && forall j :: 0 <= j < n - m ==> WellFormed(bb[m..n][j])
    ensures Tried(prog, y, y, live, live) && |y.blocks| <= WORD16
  {
    UpcomingIs(prog, x, y, bb, m, n);
    SliceWellFormed(bb, m, n);
    TriedNone(prog, y, live);
  }

  lemma PiecedNone(prog: Program, x: Region, bb: seq<Patch>, live: set<nat>)
    requires ProgramOk(prog) && Sound(prog, x)
    ensures Pieced(prog, x, x, [0], bb, 0, live, live)
  {
    AdvancedStart(prog, x, bb);
    PartitionNone(x, bb);
    assert multiset(live - live) == multiset{};
    PiecedIs(prog, x, x, [0], bb, 0, live, live);
  }

  lemma PiecedMore(prog: Program, x: Region, y: Region, z: Region, cuts: seq<nat>, bb: seq<Patch>, m: nat, e: nat,
                   live: set<nat>, mid: set<nat>, pages: set<nat>)
    requires ProgramOk(prog) && Chain(prog, bb) && Pieced(prog, x, y, cuts, bb, m, live, mid)
    requires Advanced(prog, x, z, bb, e) && OneMore(y, z, bb, m, e) && NewPages(y.blocks, z.blocks, mid, pages)
    ensures Pieced(prog, x, z, cuts + [e], bb, e, live, pages)
  {
    PiecedIs(prog, x, y, cuts, bb, m, live, mid);
    NewPagesJoin(x.blocks, y.blocks, z.blocks, live, mid, pages);
    PartitionMore(prog, y, z, cuts, bb, m, e);
    PiecedIs(prog, x, z, cuts + [e], bb, e, live, pages);
  }

  // ------------------------------------------------------------------------
  // The trim of writeBasicBlock
  // ------------------------------------------------------------------------

  /** Whatever patchEnd is, the trim finds the cached instructions at the end, all of them. */
  lemma TrimmedAll(prog: Program, regions: seq<Region>, r: nat, bb: seq<Patch>, patchEnd: nat, n: nat)
    requires ProgramOk(prog) && CacheOk(prog, regions) && r < |regions| && Chain(prog, bb)
    requires n <= patchEnd <= |bb| && (patchEnd < |bb| ==> bb[patchEnd].insn.key in regions[r].instCache)
    requires forall j :: n <= j < patchEnd ==> bb[j].insn.key in regions[r].instCache
    requires n > 0 ==> bb[n - 1].insn.key !in regions[r].instCache
    ensures forall j :: 0 <= j < |bb| ==> (bb[j].insn.key in regions[r].instCache <==> n <= j)
    ensures Good(prog, regions[r]) && Sound(prog, regions[r])
  {
    GoodOne(prog, regions, r);
    forall j | patchEnd <= j < |bb|
      ensures bb[j].insn.key in regions[r].instCache
    {
      CachedOn(prog, regions[r].instCache, bb, patchEnd, j);
    }
    TrimExact(prog, regions[r].instCache, bb, n);
  }

  // ------------------------------------------------------------------------
  // What the trims find
  // ------------------------------------------------------------------------

  /** In the region, and in the whole cache as far as the region covers the basic block, exactly the
      instructions from n on are cached. */
  ghost predicate Separates(regions: seq<Region>, bb: seq<Patch>, r: nat, n: nat) {
    && r < |regions|
    && forall j :: 0 <= j < |bb| && regions[r].covered.Has(bb[j].insn.key.address) ==>
         (Cached(regions, bb[j].insn.key) <==> n <= j)
  }

  lemma SeparatesExactly(prog: Program, regions: seq<Region>, bb: seq<Patch>, r: nat, n: nat)
    requires ProgramOk(prog) && CacheOk(prog, regions) && r < |regions|
    requires forall j :: 0 <= j < |bb| ==> (bb[j].insn.key in regions[r].instCache <==> n <= j)
    ensures Separates(regions, bb, r, n)
  {
    forall j | 0 <= j < |bb| && regions[r].covered.Has(bb[j].insn.key.address)
      ensures Cached(regions, bb[j].insn.key) <==> n <= j
    {
      if i :| 0 <= i < |regions| && bb[j].insn.key in regions[i].instCache {
        GoodOne(prog, regions, i);
        SameCover(Covers(regions), bb[j].insn.key.address, i, r);
      }
    }
  }

  /** The region findRegion answers for a range has the instruction: it is the first one that
      overlaps the range, or the one merged into that. */
  ghost predicate Held(regions: seq<Region>, code: Range, k: Key) {
    exists i :: FirstOverlap(Covers(regions), code, i) && HeldAt(regions, code, k, i)
  }

  ghost predicate HeldAt(regions: seq<Region>, code: Range, k: Key, i: nat)
    requires i < |regions|
  {
    || k in regions[i].instCache
    || (PlaceOver(Covers(regions), code, i).Fuse? && k in regions[i + 1].instCache)
  }

  /** Exactly the instructions from n on are held by the region for the basic block. */
  ghost predicate HeldFrom(regions: seq<Region>, bb: seq<Patch>, n: nat)
    requires bb != []
  {
    n <= |bb| && forall j :: 0 <= j < |bb| ==> (Held(regions, BlockRange(bb), bb[j].insn.key) <==> n <= j)
  }

  lemma HeldOver(regions: seq<Region>, code: Range, k: Key, i: nat)
    requires FirstOverlap(Covers(regions), code, i)
    ensures Held(regions, code, k) <==> HeldAt(regions, code, k, i)
  {
    FirstOverlapUnique(Covers(regions), code, i);
  }

  /** Whatever findRegion answers, the region has exactly the instructions that Held tells. */
  lemma PlacedHolds(prog: Program, regions: seq<Region>, bb: seq<Patch>, p: Placement, id: nat, n: nat)
    requires ProgramOk(prog) && CacheOk(prog, regions) && IsBasicBlock(prog, bb) && n <= |bb|
    requires Placed(Covers(regions), BlockRange(bb), p) && Applicable(Covers(regions), p)
    requires p.at < |PlaceRegions(regions, p, id)|
    requires forall j :: 0 <= j < |bb| ==> (bb[j].insn.key in PlaceRegions(regions, p, id)[p.at].instCache <==> n <= j)
    ensures HeldFrom(regions, bb, n)
  {
    forall j | 0 <= j < |bb|
      ensures Held(regions, BlockRange(bb), bb[j].insn.key) <==> n <= j
    {
      BlockRangeHas(prog, bb, j);
      PlacedHolder(prog, regions, BlockRange(bb), p, id, bb[j].insn.key);
    }
  }

  lemma PlacedHolder(prog: Program, regions: seq<Region>, code: Range, p: Placement, id: nat, k: Key)
    requires ProgramOk(prog) && CacheOk(prog, regions) && code.Has(k.address)
    requires Placed(Covers(regions), code, p) && Applicable(Covers(regions), p)
    requires p.at < |PlaceRegions(regions, p, id)|
    ensures k in PlaceRegions(regions, p, id)[p.at].instCache <==> Held(regions, code, k)
  {
    var over, i := PlacedCases(Covers(regions), code, p);
    if over {
      OverHolder(regions, code, i, id, k);
    } else {
      FreeHolder(prog, regions, code, p, id, i, k);
    }
  }

  lemma OverHolder(regions: seq<Region>, code: Range, i: nat, id: nat, k: Key)
    requires FirstOverlap(Covers(regions), code, i)
    ensures var p := PlaceOver(Covers(regions), code, i);
            && Applicable(Covers(regions), p) && p.at < |PlaceRegions(regions, p, id)|
            && (k in PlaceRegions(regions, p, id)[p.at].instCache <==> Held(regions, code, k))
  {
    HeldOver(regions, code, k, i);
  }

  lemma FreeHolder(prog: Program, regions: seq<Region>, code: Range, p: Placement, id: nat, i: nat, k: Key)
    requires ProgramOk(prog) && CacheOk(prog, regions) && code.Has(k.address) && Applicable(Covers(regions), p)
    requires Between(Covers(regions), code, i) && PlacedBetween(Covers(regions), code, p, i)
    ensures p.at < |PlaceRegions(regions, p, id)| && k !in PlaceRegions(regions, p, id)[p.at].instCache && !Held(regions, code, k)
  {
    NothingOverlaps(Covers(regions), code, i);
    if !p.Insert? {
      GoodOne(prog, regions, p.at);
    }
  }

  /** Three regions are in the way of the basic block, and the third has its last instruction. */
  ghost predicate ThirdHolds(regions: seq<Region>, bb: seq<Patch>)
    requires bb != []
  {
    exists i :: FirstOverlap(Covers(regions), BlockRange(bb), i) && ThirdHoldsAt(regions, bb, i)
  }

  ghost predicate ThirdHoldsAt(regions: seq<Region>, bb: seq<Patch>, i: nat)
    requires bb != [] && i < |regions|
  {
    && PlaceOver(Covers(regions), BlockRange(bb), i).Fuse?
    && i + 2 < |regions| && regions[i + 2].covered.start < BlockRange(bb).end
    && bb[|bb| - 1].insn.key in regions[i + 2].instCache
  }

  /** findRegion, called again, answers a region that has one of the first n instructions. */
  ghost predicate Behind(regions: seq<Region>, bb: seq<Patch>, n: nat)
    requires bb != []
  {
    exists j :: 0 <= j < n && j < |bb| && Held(regions, BlockRange(bb), bb[j].insn.key)
  }

  /** The trim of writeBasicBlock finds something that preWriteBasicBlock did not exactly when a
      third region in the way of the basic block has its last instruction. */
  lemma Retrimmed(prog: Program, regions: seq<Region>, bb: seq<Patch>, p: Placement, id: nat, n: nat)
    requires ProgramOk(prog) && CacheOk(prog, regions) && IsBasicBlock(prog, bb)
    requires Placed(Covers(regions), BlockRange(bb), p) && Applicable(Covers(regions), p)
    requires HeldFrom(regions, bb, n) && CacheOk(prog, PlaceRegions(regions, p, id))
    ensures Behind(PlaceRegions(regions, p, id), bb, n) <==> ThirdHolds(regions, bb)
  {
    var code := BlockRange(bb);
    BlockRangeHas(prog, bb, 0);
    var over, i := PlacedCases(Covers(regions), code, p);
    if over && p.Fuse? {
      FirstOverlapUnique(Covers(regions), code, i);
      RetrimmedFused(prog, regions, bb, i, id, n);
    } else {
      HeldAgain(prog, regions, code, p, id, over, i);
      forall j | 0 <= j < |bb|
        ensures Held(PlaceRegions(regions, p, id), code, bb[j].insn.key) <==> Held(regions, code, bb[j].insn.key)
      {
        BlockRangeHas(prog, bb, j);
      }
      NotThird(regions, bb, over, i);
    }
  }

  lemma NotThird(regions: seq<Region>, bb: seq<Patch>, over: bool, i: nat)
    requires bb != []
    requires if over then FirstOverlap(Covers(regions), BlockRange(bb), i) && !PlaceOver(Covers(regions), BlockRange(bb), i).Fuse?
             else Between(Covers(regions), BlockRange(bb), i)
    ensures !ThirdHolds(regions, bb)
  {
    if over {
      FirstOverlapUnique(Covers(regions), BlockRange(bb), i);
    } else {
      NothingOverlaps(Covers(regions), BlockRange(bb), i);
    }
  }

  /** A range that its region covers at once is held there as it was. */
  lemma HeldAgain(prog: Program, regions: seq<Region>, code: Range, p: Placement, id: nat, over: bool, i: nat)
    requires ProgramOk(prog) && CacheOk(prog, regions) && code.start < code.end && Applicable(Covers(regions), p) && !p.Fuse?
    requires if over then FirstOverlap(Covers(regions), code, i) && p == PlaceOver(Covers(regions), code, i)
             else Between(Covers(regions), code, i) && PlacedBetween(Covers(regions), code, p, i)
    requires CacheOk(prog, PlaceRegions(regions, p, id))
    ensures forall k: Key :: code.Has(k.address) ==> (Held(PlaceRegions(regions, p, id), code, k) <==> Held(regions, code, k))
  {
    var after := PlaceRegions(regions, p, id);
    CoveredWhole(Covers(regions), code, p, over, i);
    PlaceCovers(regions, p, id);
    ResultAt(Covers(regions), p);
    KeptThere(after, code, p.at);
    forall k: Key | code.Has(k.address)
      ensures Held(after, code, k) <==> Held(regions, code, k)
    {
      PlacedHolder(prog, regions, code, p, id, k);
      HeldOver(after, code, k, p.at);
    }
  }

  /** But for a merge, the region covers the whole range at once. */
  lemma CoveredWhole(cov: seq<Range>, code: Range, p: Placement, over: bool, i: nat)
    requires Sorted(cov) && code.start < code.end && Applicable(cov, p) && !p.Fuse?
    requires if over then FirstOverlap(cov, code, i) && p == PlaceOver(cov, code, i)
             else Between(cov, code, i) && PlacedBetween(cov, code, p, i)
    ensures Placed(cov, code, p) && Landing(cov, p).Contains(code)
  {
    if !over {
      PlaceBetweenCovers(cov, code, p, i);
    }
  }

  lemma KeptThere(regions: seq<Region>, code: Range, at: nat)
    requires Sorted(Covers(regions)) && code.start < code.end && at < |regions| && Covers(regions)[at].Contains(code)
    ensures FirstOverlap(Covers(regions), code, at) && PlaceOver(Covers(regions), code, at) == Keep(at)
  {
    var cov := Covers(regions);
    forall i | 0 <= i < at
      ensures !cov[i].Overlaps(code)
    {
      assert cov[i].end <= cov[at].start;
    }
  }

  lemma RetrimmedFused(prog: Program, regions: seq<Region>, bb: seq<Patch>, i: nat, id: nat, n: nat)
    requires ProgramOk(prog) && CacheOk(prog, regions) && IsBasicBlock(prog, bb)
    requires FirstOverlap(Covers(regions), BlockRange(bb), i) && PlaceOver(Covers(regions), BlockRange(bb), i).Fuse?
    requires HeldFrom(regions, bb, n)
    ensures Behind(PlaceRegions(regions, PlaceOver(Covers(regions), BlockRange(bb), i), id), bb, n) <==> ThirdHolds(regions, bb)
  {
    var code, last := BlockRange(bb), |bb| - 1;
    var after := PlaceRegions(regions, PlaceOver(Covers(regions), code, i), id);
    forall k
      ensures Held(after, code, k) <==> Held(regions, code, k) || ThirdHas(regions, code, i, k)
    {
      FusedHolder(regions, code, i, id, k);
    }
    FirstOverlapUnique(Covers(regions), code, i);
    if Behind(after, bb, n) {
      var j :| 0 <= j < n && j < |bb| && Held(after, code, bb[j].insn.key);
      GoodOne(prog, regions, i + 2);
      CachedOn(prog, regions[i + 2].instCache, bb, j, last);
    }
    if ThirdHolds(regions, bb) {
      KeysApart(prog, regions, i, i + 2);
      KeysApart(prog, regions, i + 1, i + 2);
      HeldOver(regions, code, bb[last].insn.key, i);
      assert Held(after, code, bb[last].insn.key);
    }
  }

  ghost predicate ThirdHas(regions: seq<Region>, code: Range, i: nat, k: Key) {
    i + 2 < |regions| && regions[i + 2].covered.start < code.end && k in regions[i + 2].instCache
  }

  /** After a merge, a second call of findRegion merges the next region in the way. */
  lemma FusedHolder(regions: seq<Region>, code: Range, i: nat, id: nat, k: Key)
    requires Sorted(Covers(regions)) && code.start < code.end
    requires FirstOverlap(Covers(regions), code, i) && PlaceOver(Covers(regions), code, i).Fuse?
    ensures Held(PlaceRegions(regions, PlaceOver(Covers(regions), code, i), id), code, k)
            <==> Held(regions, code, k) || ThirdHas(regions, code, i, k)
  {
    var p := PlaceOver(Covers(regions), code, i);
    var after := PlaceRegions(regions, p, id);
    var cov := Covers(regions);
    PlaceCovers(regions, p, id);
    assert Covers(after) == cov[..i] + [p.range] + cov[i + 2..];
    assert cov[i].end <= cov[i + 1].start;
    assert FirstOverlap(Covers(after), code, i) by {
      assert forall j :: 0 <= j < i ==> Covers(after)[j] == cov[j];
    }
    HeldOver(regions, code, k, i);
    HeldOver(after, code, k, i);
    if i + 2 < |regions| {
      assert after[i + 1] == regions[i + 2] && Covers(after)[i + 1] == cov[i + 2];
      assert cov[i + 1].end <= cov[i + 2].start;
    }
  }

  // ------------------------------------------------------------------------
  // Coverage
  // ------------------------------------------------------------------------

  /** The cache is right after the write exactly when the region covers the last instruction. */
  lemma WrittenCache(prog: Program, regions: seq<Region>, r: nat, q: Region, bb: seq<Patch>, n: nat)
    requires ProgramOk(prog) && CacheOk(prog, regions) && r < |regions| && IsBasicBlock(prog, bb) && n <= |bb|
    requires Advanced(prog, regions[r], q, bb, n)
    requires forall j :: n <= j < |bb| ==> bb[j].insn.key in regions[r].instCache
    requires regions[r].covered.Has(BlockRange(bb).start)
    ensures CacheOk(prog, regions[r := q]) <==> regions[r].covered.Has(bb[|bb| - 1].insn.key.address)
    ensures forall j :: 0 <= j < |bb| ==> Cached(regions[r := q], bb[j].insn.key)
  {
    GoodOne(prog, regions, r);
    CoveredIff(prog, regions[r], q, bb, n);
    AdvancedOk(prog, regions[r], q, bb, n);
    WrittenGood(prog, regions, r, q);
    CachedIn(regions[r := q], r, bb);
  }

  lemma WrittenGood(prog: Program, regions: seq<Region>, r: nat, q: Region)
    requires ProgramOk(prog) && CacheOk(prog, regions) && r < |regions|
    requires RegionOk(prog, q) && AllValid(q.blocks) && q.covered == regions[r].covered
    ensures CacheOk(prog, regions[r := q]) <==> Covered(q)
  {
    GoodOne(prog, regions, r);
    if Covered(q) {
      GoodSet(prog, regions, r, q);
    }
    if CacheOk(prog, regions[r := q]) {
      GoodOne(prog, regions[r := q], r);
    }
  }

  lemma CachedIn(regions: seq<Region>, r: nat, bb: seq<Patch>)
    requires r < |regions| && forall j :: 0 <= j < |bb| ==> bb[j].insn.key in regions[r].instCache
    ensures forall j :: 0 <= j < |bb| ==> Cached(regions, bb[j].insn.key)
  {
  }

  /** The region covers the last instruction exactly when the basic block was not overlong. */
  lemma PlacedLast(prog: Program, regions: seq<Region>, p: Placement, id: nat, bb: seq<Patch>)
    requires ProgramOk(prog) && IsBasicBlock(prog, bb) && Sorted(Covers(regions))
    requires Placed(Covers(regions), BlockRange(bb), p) && Applicable(Covers(regions), p)
    ensures p.at < |PlaceRegions(regions, p, id)|
    ensures var q := PlaceRegions(regions, p, id)[p.at];
            && q.covered.Has(BlockRange(bb).start)
            && (q.covered.Has(bb[|bb| - 1].insn.key.address)
                <==> !Overlong(Covers(regions), BlockRange(bb), bb[|bb| - 1].insn.key.address))
  {
    BlockRangeHas(prog, bb, |bb| - 1);
    PlaceCovers(regions, p, id);
    ResultAt(Covers(regions), p);
    PlacedCovers(Covers(regions), BlockRange(bb), p);
    PlacedCoversIff(Covers(regions), BlockRange(bb), p, bb[|bb| - 1].insn.key.address);
  }

  // ------------------------------------------------------------------------
  // The abort on patchEnd
  // ------------------------------------------------------------------------

  /** patchEnd is not the number of instructions in front of one that the region for the basic block
      has, nor their number altogether. */
  ghost predicate BadEnd(regions: seq<Region>, bb: seq<Patch>, patchEnd: nat)
    requires bb != []
  {
    patchEnd > |bb| || (patchEnd < |bb| && !Held(regions, BlockRange(bb), bb[patchEnd].insn.key))
  }

  /** The test of writeBasicBlock, on the region findRegion answers. */
  lemma EndTested(prog: Program, regions: seq<Region>, bb: seq<Patch>, p: Placement, id: nat, patchEnd: nat)
    requires ProgramOk(prog) && CacheOk(prog, regions) && IsBasicBlock(prog, bb)
    requires Placed(Covers(regions), BlockRange(bb), p) && Applicable(Covers(regions), p)
    requires p.at < |PlaceRegions(regions, p, id)|
    ensures BadEnd(regions, bb, patchEnd)
            <==> patchEnd > |bb|
                 || (patchEnd < |bb| && bb[patchEnd].insn.key !in PlaceRegions(regions, p, id)[p.at].instCache)
  {
    if patchEnd < |bb| {
      BlockRangeHas(prog, bb, patchEnd);
      PlacedHolder(prog, regions, BlockRange(bb), p, id, bb[patchEnd].insn.key);
    }
  }

  /** The second findRegion, seen from before the first. */
  lemma PlacedAgain(prog: Program, regions: seq<Region>, bb: seq<Patch>, p: Placement, id: nat)
    requires ProgramOk(prog) && IsBasicBlock(prog, bb) && Sorted(Covers(regions))
    requires Placed(Covers(regions), BlockRange(bb), p) && Applicable(Covers(regions), p)
    ensures Overlong(Covers(PlaceRegions(regions, p, id)), BlockRange(bb), bb[|bb| - 1].insn.key.address)
            <==> OverlongTwice(Covers(regions), BlockRange(bb), bb[|bb| - 1].insn.key.address)
  {
    var cov, code, last := Covers(regions), BlockRange(bb), bb[|bb| - 1].insn.key.address;
    BlockRangeHas(prog, bb, |bb| - 1);
    PlaceCovers(regions, p, id);
    PlacedSorted(cov, code, p);
    var q := SomePlacement(Result(cov, p), code);
    PlacedTwiceCoversIff(cov, code, p, q, last);
    PlacedCoversIff(Result(cov, p), code, q, last);
  }

  /** The instruction that preWriteBasicBlock stopped at is held by the region it found. */
  lemma HeldThere(prog: Program, regions: seq<Region>, bb: seq<Patch>, r: nat, patchEnd: nat)
    requires ProgramOk(prog) && IsBasicBlock(prog, bb) && Sorted(Covers(regions)) && patchEnd <= |bb|
    requires r < |regions| && regions[r].covered.Has(BlockRange(bb).start)
    requires patchEnd < |bb| ==> bb[patchEnd].insn.key in regions[r].instCache
    ensures !BadEnd(regions, bb, patchEnd)
  {
    BlockRangeHas(prog, bb, 0);
    CoversFirst(Covers(regions), BlockRange(bb), r);
    if patchEnd < |bb| {
      HeldOver(regions, BlockRange(bb), bb[patchEnd].insn.key, r);
    }
  }

  /** The region that covers the start of a range is the first one to overlap it. */
  lemma CoversFirst(cov: seq<Range>, code: Range, r: nat)
    requires Sorted(cov) && code.start < code.end && r < |cov| && cov[r].Has(code.start)
    ensures FirstOverlap(cov, code, r)
  {
    forall i | 0 <= i < r
      ensures !cov[i].Overlaps(code)
    {
      assert cov[i].end <= cov[r].start;
    }
  }

  /** A region that covers the start of the range is the one findRegion returns, with all it has. */
  lemma HolderStays(regions: seq<Region>, code: Range, p: Placement, id: nat, r: nat)
    requires Sorted(Covers(regions)) && code.start < code.end && Placed(Covers(regions), code, p)
    requires r < |regions| && regions[r].covered.Has(code.start)
    ensures p.at == r && Applicable(Covers(regions), p) && r < |PlaceRegions(regions, p, id)|
    ensures forall k :: k in regions[r].instCache ==> k in PlaceRegions(regions, p, id)[r].instCache
  {
    HolderFirst(Covers(regions), code, p, r);
    OverStays(regions, p, id);
  }

  /** The region at a placement has what it had. */
  lemma OverStays(regions: seq<Region>, p: Placement, id: nat)
    requires Applicable(Covers(regions), p) && !p.Insert?
    ensures p.at < |regions| && p.at < |PlaceRegions(regions, p, id)|
    ensures forall k :: k in regions[p.at].instCache ==> k in PlaceRegions(regions, p, id)[p.at].instCache
  {
    if p.Fuse? {
      assert PlaceRegions(regions, p, id)[p.at].instCache == Merged(regions[p.at], regions[p.at + 1]).instCache;
    }
  }

  lemma HolderFirst(cov: seq<Range>, code: Range, p: Placement, r: nat)
    requires Sorted(cov) && code.start < code.end && Placed(cov, code, p) && r < |cov| && cov[r].Has(code.start)
    ensures FirstOverlap(cov, code, r) && p == PlaceOver(cov, code, r)
  {
    CoversFirst(cov, code, r);
    FirstOverlapUnique(cov, code, r);
    var over, k := PlacedCases(cov, code, p);
    assert over;
  }
}
