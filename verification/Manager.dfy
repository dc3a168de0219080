/** The translation cache (src/ExecBlock/ExecBlockManager.cpp). A region owns its blocks through
    unique pointers, so the manager holds them as values and loads one into an ExecBlock object
    to write or split in it. */
module Managers {
  import opened Ranges
  import opened Guest
  import opened Blocks
  import opened Programs
  import opened Caches
  import opened Placements
  import opened RegionLists
  import opened BlockWrites
  import opened PageMaps
  import opened Lookups
  import opened BasicBlocks
  import opened Flushes
  import opened Recording
  import opened Folding
  import opened Threading
  import opened PageWrites
  import opened Budgets
  import RV = RegionVectors
  import EB = ExecBlocks

  /** Why the manager gave up. */
  datatype Failure =
    | TooManyBlocks        // mergeRegion, writeBasicBlock: block numbers are 16 bits wide
    | RegionOrder          // findRegion: the previous region contains the start of the range
    | PatchEnd             // writeBasicBlock: patchEnd does not fit the basic block
    | Unwritable(why: EB.Abort) // writeSequence

  datatype Status = Ok | Fail(why: Failure)

  class ExecBlockManager {
    var regions: seq<Region>
    /** The pages registered for the lookup by JIT address. */
    var codeBlockMap: set<nat>
    /** regionsReduceList: the regions, oldest first. */
    var reduceList: seq<nat>
    var needFlush: bool
    var nextId: nat

    ghost const prog: Program
    const pageSize: nat
    const prologue: seq<int>
    const epilogue: seq<int>
    const shadowCapacity: nat
    const reserved: set<nat>

    /** A manager starts without regions; nothing sets its flush flag. */
    constructor (ghost prog: Program, pageSize: nat, prologue: seq<int>, epilogue: seq<int>, shadowCapacity: nat,
                 reserved: set<nat>, needFlush: bool)
      requires ProgramOk(prog)
      requires |prologue| + |epilogue| <= pageSize <= WORD16 && shadowCapacity < WORD16
      ensures Valid() && MapExact() && regions == [] && this.prog == prog
    {
      this.prog, this.pageSize, this.prologue, this.epilogue := prog, pageSize, prologue, epilogue;
      this.shadowCapacity, this.reserved, this.needFlush := shadowCapacity, reserved, needFlush;
      regions, codeBlockMap, reduceList, nextId := [], {}, [], 0;
      new;
      Unfolded();
    }

    ghost predicate Valid()
      reads this
    {
      PageOk() && ProgramOk(prog) && CacheKept(prog, regions, reduceList, nextId, needFlush, codeBlockMap)
    }

    lemma Unfolded()
      ensures Valid() <==> PageOk() && ProgramOk(prog) && CacheOk(prog, regions) && Books()
    {
      assert Asked(ACache, 0);
    }

    lemma InOrder()
      ensures Valid() ==> CacheOk(prog, regions)
    {
      Unfolded();
    }

    lemma Calm()
      ensures Valid() && !needFlush ==> FlagsOk(regions, false)
    {
      Unfolded();
    }

    ghost predicate PageOk() { |prologue| + |epilogue| <= pageSize <= WORD16 && shadowCapacity < WORD16 }

    ghost predicate Books()
      reads this
    {
      Booked(regions, reduceList, nextId, needFlush, codeBlockMap)
    }

    /** codeBlockMap holds the live pages and no others. */
    ghost predicate MapExact()
      reads this
    {
      Exact(regions, codeBlockMap)
    }

    /** The block that has an instruction, if any. */
    method GetExecBlock(k: Key) returns (found: bool, r: nat, loc: InstLoc)
      requires Valid()
      ensures found <==> Cached(regions, k)
      ensures found ==> r < |regions| && InstHas(regions[r].blocks, loc, k)
    {
      Unfolded();
      r := SearchRegion(k.address);
      CachedWhere(prog, regions, k, r);
      if r < |regions| && regions[r].covered.Has(k.address) {
        if k in regions[r].instCache {
          GoodOne(prog, regions, r);
          return true, r, regions[r].instCache[k];
        }
      }
      return false, r, InstLoc(0, 0);
    }

    /** The block with a sequence that starts with the instruction, ready to execute it. An
        instruction inside a sequence gets a sequence of its own. */
    method GetProgrammedExecBlock(k: Key) returns (found: bool, r: nat, loc: SeqLoc, e: EB.ExecBlock?)
      requires Valid()
      modifies this`regions
      ensures Valid() && Pages(Flat(regions)) == Pages(Flat(old(regions)))
      ensures found <==> Cached(old(regions), k)
      ensures !found ==> regions == old(regions)
      ensures found ==> e != null && fresh(e) && r < |regions|
      ensures found ==> OnlySplit(old(regions), regions, r, k) && Selected(prog, regions[r], k, loc)
      ensures found ==> Ready(e, regions[r].blocks[loc.blockIdx], loc.seqID)
    {
      Unfolded();
      e := null;
      loc := SeqLoc(0, 0, 0, 0, 0);
      r := SearchRegion(k.address);
      CachedWhere(prog, regions, k, r);
      if r < |regions| && regions[r].covered.Has(k.address) {
        SequenceMeansCached(prog, regions, r, k);
        if k in regions[r].sequenceCache || k in regions[r].instCache {
          loc := SequenceAt(r, k);
          Unfolded();
          SelectedValid(prog, regions, r, k, loc);
          e := Select(regions[r].blocks[loc.blockIdx], loc.seqID, reserved);
          return true, r, loc, e;
        }
      }
      return false, r, loc, e;
    }

    /** The sequence of region r that starts with the instruction: a listed one, else one split
        off from the sequence that has it. */
    method SequenceAt(r: nat, k: Key) returns (loc: SeqLoc)
      requires Valid() && r < |regions| && k in regions[r].instCache
      modifies this`regions
      ensures Valid() && Pages(Flat(regions)) == Pages(Flat(old(regions)))
      ensures OnlySplit(old(regions), regions, r, k) && Selected(prog, regions[r], k, loc)
    {
      if k in regions[r].sequenceCache {
        InOrder();
        FoundThere(prog, regions, r, k);
        return regions[r].sequenceCache[k];
      }
      loc := SplitAt(r, k);
    }

    /** Splits the sequence of region r that has the instruction. */
    method SplitAt(r: nat, k: Key) returns (loc: SeqLoc)
      requires Valid() && r < |regions| && k in regions[r].instCache && k !in regions[r].sequenceCache
      modifies this`regions
      ensures Valid() && Pages(Flat(regions)) == Pages(Flat(old(regions)))
      ensures OnlySplit(old(regions), regions, r, k) && Selected(prog, regions[r], k, loc)
    {
      Unfolded();
      ghost var before := regions;
      var region := regions[r];
      GoodOne(prog, regions, r);
      SplitSteps(prog, region, k);
      var b, i := region.instCache[k].blockIdx, region.instCache[k].instID;
      var block := region.blocks[b];
      var start := block.seqs[block.insts[i].seqID].startInstID;
      var existing := region.sequenceCache[Key(block.patches[start].insn.key.address, k.mode)];
      var c, newSeqID := SplitPage(block, i, reserved);
      loc := SeqLoc(b, newSeqID, existing.bbEnd, k.address, existing.seqEnd);
      regions := regions[r := region.(blocks := region.blocks[b := c], sequenceCache := region.sequenceCache[k := loc])];
      SplitDone(prog, before, r, k, c, loc);
      BookedSame(before, reduceList, nextId, needFlush, codeBlockMap, r, regions[r]);
      Unfolded();
    }

    /** Reserves a region for a basic block; how many of its instructions are not cached there. */
    method PreWriteBasicBlock(bb: seq<Patch>, fits: (Region, nat) -> bool)
      returns (s: Status, patchEnd: nat, ghost r: nat)
      requires Valid() && IsBasicBlock(prog, bb)
      modifies this`regions, this`reduceList, this`nextId
      ensures s.Fail? ==> s.why == TooManyBlocks && Flat(regions) == Flat(old(regions)) && WORD16 <= |Flat(regions)|
      ensures s.Ok? ==> Valid() && r < |regions| && patchEnd <= |bb| && regions[r].covered.Has(BlockRange(bb).start)
      ensures s.Ok? ==> forall j :: 0 <= j < |bb| ==> (bb[j].insn.key in regions[r].instCache <==> patchEnd <= j)
      ensures s.Ok? ==> Separates(regions, bb, r, patchEnd) && HeldFrom(old(regions), bb, patchEnd)
      ensures s.Ok? ==> (Behind(regions, bb, patchEnd) <==> ThirdHolds(old(regions), bb))
      ensures s.Ok? ==> Flat(regions) == Flat(old(regions)) && !BadEnd(regions, bb, patchEnd)
      ensures s.Ok? ==> (Overlong(Covers(regions), BlockRange(bb), bb[|bb| - 1].insn.key.address)
                         <==> OverlongTwice(Covers(old(regions)), BlockRange(bb), bb[|bb| - 1].insn.key.address))
    {
      Unfolded();
      ghost var before, id := regions, nextId;
      var at;
      ghost var p;
      s, at, p := PlaceBlock(bb, fits);
      r := at;
      if s.Fail? {
        return s, 0, r;
      }
      patchEnd := TrimBack(at, bb, |bb|);
      Unfolded();
      GoodOne(prog, regions, r);
      TrimExact(prog, regions[r].instCache, bb, patchEnd);
      FlatPlace(before, p, id);
      PlacedAgain(prog, before, bb, p, id);
      PlacedLast(prog, before, p, id, bb);
      HeldThere(prog, regions, bb, r, patchEnd);
      SeparatesExactly(prog, regions, bb, r, patchEnd);
      PlacedHolds(prog, before, bb, p, id, patchEnd);
      Retrimmed(prog, before, bb, p, id, patchEnd);
    }

    /** findRegion for the range of a basic block. */
    method PlaceBlock(bb: seq<Patch>, fits: (Region, nat) -> bool) returns (s: Status, r: nat, ghost p: Placement)
      requires Valid() && IsBasicBlock(prog, bb)
      modifies this`regions, this`reduceList, this`nextId
      ensures s.Fail? ==> s.why == TooManyBlocks && Flat(regions) == Flat(old(regions)) && WORD16 <= |Flat(regions)|
      ensures s.Ok? ==> Valid() && r < |regions|
      ensures s.Ok? ==> FoundAt(old(regions), old(reduceList), old(nextId), BlockRange(bb), r, p)
    {
      ghost var before, list, id := regions, reduceList, nextId;
      InOrder();
      BlockRangeHas(prog, bb, 0);
      s, r, p := FindRegion(BlockRange(bb), fits);
      if s.Ok? {
        FoundValid(before, list, id, bb, r, p);
      }
    }

    lemma FoundValid(before: seq<Region>, list: seq<nat>, id: nat, bb: seq<Patch>, r: nat, p: Placement)
      requires PageOk() && ProgramOk(prog) && IsBasicBlock(prog, bb)
      requires CacheKept(prog, before, list, id, needFlush, codeBlockMap) && Found(before, list, id, BlockRange(bb), r, p)
      ensures Valid() && r < |regions| && FoundAt(before, list, id, BlockRange(bb), r, p)
    {
      CacheKeptIs(prog, before, list, id, needFlush, codeBlockMap);
      FoundIs(before, list, id, BlockRange(bb), r, p);
      BlockRangeHas(prog, bb, 0);
      BlockEnds(prog, bb);
      PlaceRegionsOk(prog, before, BlockRange(bb), p, id);
      BookedPlaced(before, list, id, needFlush, codeBlockMap, p);
      PlaceCovers(before, p, id);
      CacheKeptIs(prog, regions, reduceList, nextId, needFlush, codeBlockMap);
    }

    /** Drops the cached instructions at the end. */
    method TrimBack(r: nat, bb: seq<Patch>, patchEnd: nat) returns (n: nat)
      requires r < |regions| && patchEnd <= |bb|
      ensures n <= patchEnd
      ensures forall j :: n <= j < patchEnd ==> bb[j].insn.key in regions[r].instCache
      ensures n > 0 ==> bb[n - 1].insn.key !in regions[r].instCache
    {
      n := patchEnd;
      while n > 0 && bb[n - 1].insn.key in regions[r].instCache
        invariant n <= patchEnd
        invariant forall j :: n <= j < patchEnd ==> bb[j].insn.key in regions[r].instCache
      {
        n := n - 1;
      }
    }

    /** A patch that a new page has room for. */
    predicate FitsFresh(p: Patch) {
      |prologue| + |Bytes(p.items)| + MINIMAL_BLOCK_SIZE + |epilogue| <= pageSize
    }

    ghost predicate AllFitFresh(bb: seq<Patch>, n: nat)
      requires n <= |bb|
    {
      forall j :: 0 <= j < n ==> FitsFresh(bb[j])
    }

    /** Writes a basic block into its region, but for the instructions at its end that are cached.
        `covered` tells whether the region covers its last instruction, `n` how many patches were
        written, into which region, and `cuts` where their sequences begin and end. */
    method WriteBasicBlock(bb: seq<Patch>, patchEnd: nat, fits: (Region, nat) -> bool)
      returns (s: Status, covered: bool, ghost n: nat, ghost r: nat, ghost cuts: seq<nat>)
      requires Valid() && IsBasicBlock(prog, bb)
      requires forall j :: 0 <= j < |bb| && j < patchEnd ==> WellFormed(bb[j])
      modifies this`regions, this`codeBlockMap, this`reduceList, this`nextId
      ensures s.Ok? ==> Books() && (CacheOk(prog, regions) <==> covered)
      ensures s.Ok? ==> (covered <==> !Overlong(Covers(old(regions)), BlockRange(bb), bb[|bb| - 1].insn.key.address))
      ensures s.Ok? ==> n <= |bb| && n <= patchEnd && r < |regions| && Partition(regions[r], cuts, bb, n)
      ensures s.Ok? ==> HeldFrom(old(regions), bb, n)
      ensures s.Ok? ==> Inventory(Flat(regions)) == Inventory(Flat(old(regions))) + multiset(bb[..n])
      ensures s.Ok? ==> forall j :: 0 <= j < |bb| ==> Cached(regions, bb[j].insn.key)
      ensures s.Ok? ==> Pages(Flat(old(regions))) <= Pages(Flat(regions))
      ensures s.Ok? && old(MapExact()) ==> MapExact()
      ensures s != Fail(TooManyBlocks) ==> (s == Fail(PatchEnd) <==> BadEnd(old(regions), bb, patchEnd))
      ensures s.Fail? ==> !s.why.RegionOrder?
      ensures s.Fail? && !s.why.PatchEnd? ==> Flat(regions) == Flat(old(regions)) && GivesUp(Flat(regions), Head(bb, patchEnd), s.why)
    {
      covered, n, r, cuts := false, 0, 0, [];
      var at, end;
      s, at, end := Reserve(bb, patchEnd, fits);
      if s.Ok? {
        covered := regions[at].covered.Has(bb[|bb| - 1].insn.key.address);
        n, r := end, at;
        s, cuts := WriteInto(at, bb, end);
        if s.Fail? {
          GivesUpMore(Flat(regions), Flat(regions), bb[..end], Head(bb, patchEnd), s.why);
        }
      }
    }

    /** Why the patches could not be written, given all blocks of the cache. Each patch takes its
        shadows and at most one for the tail of a sequence that ends with it. */
    ghost predicate GivesUp(blocks: seq<Block>, ps: seq<Patch>, why: Failure) {
      match why
      case TooManyBlocks => WORD16 <= |blocks| + |ps| || exists i :: 0 <= i < |ps| && !FitsFresh(ps[i])
      case Unwritable(abort) => Blocked(blocks, ps, |ps|, abort)
      case _ => false
    }

    lemma GivesUpMore(few: seq<Block>, many: seq<Block>, ps: seq<Patch>, all: seq<Patch>, why: Failure)
      requires GivesUp(few, ps, why) && ps <= all && |few| <= |many| && forall b :: b in few ==> b in many
      ensures GivesUp(many, all, why)
    {
      match why
      case TooManyBlocks =>
        if i :| 0 <= i < |ps| && !FitsFresh(ps[i]) {
          assert !FitsFresh(all[i]);
        }
      case Unwritable(abort) =>
        BlockedMore(few, many, ps, all, abort);
    }

    lemma GivesUpThere(r: nat, ps: seq<Patch>, why: Failure)
      requires r < |regions| && GivesUp(regions[r].blocks, ps, why)
      ensures GivesUp(Flat(regions), ps, why)
    {
      FlatHas(regions, r);
      GivesUpMore(regions[r].blocks, Flat(regions), ps, ps, why);
    }

    lemma BlockedMore(few: seq<Block>, many: seq<Block>, ps: seq<Patch>, all: seq<Patch>, why: EB.Abort)
      requires Blocked(few, ps, |ps|, why) && ps <= all && forall b :: b in few ==> b in many
      ensures Blocked(many, all, |all|, why)
    {
      if why == EB.ShadowAllocation {
        NeedSplit(all, 0, |ps|, |all|);
        assert all[0..|ps|] == ps[0..|ps|];
        if i :| 0 <= i < |few| && few[i].shadowCapacity < few[i].shadowIdx + Need(ps, 0, |ps|) {
          assert few[i] in many;
          var j :| 0 <= j < |many| && many[j] == few[i];
          assert many[j].shadowCapacity < many[j].shadowIdx + Need(all, 0, |all|);
        }
      } else {
        var i :| 0 <= i < |ps| && Registerless(ps[i], reserved);
        assert Registerless(all[i], reserved);
      }
    }

    /** Finds the region for a basic block and drops the cached instructions at its end. */
    method Reserve(bb: seq<Patch>, patchEnd: nat, fits: (Region, nat) -> bool)
      returns (s: Status, r: nat, end: nat)
      requires Valid() && IsBasicBlock(prog, bb)
      modifies this`regions, this`reduceList, this`nextId
      ensures s.Ok? ==> Valid() && r < |regions| && end <= patchEnd && end <= |bb|
      ensures s.Ok? ==> Flat(regions) == Flat(old(regions)) && regions[r].covered.Has(BlockRange(bb).start)
      ensures s.Ok? ==> (regions[r].covered.Has(bb[|bb| - 1].insn.key.address)
                         <==> !Overlong(Covers(old(regions)), BlockRange(bb), bb[|bb| - 1].insn.key.address))
      ensures s.Ok? ==> forall j :: 0 <= j < |bb| ==> (bb[j].insn.key in regions[r].instCache <==> end <= j)
      ensures s.Ok? ==> HeldFrom(old(regions), bb, end)
      ensures s != Fail(TooManyBlocks) ==> (s == Fail(PatchEnd) <==> BadEnd(old(regions), bb, patchEnd))
      ensures s.Fail? ==> s.why.PatchEnd? || s.why.TooManyBlocks?
      ensures s == Fail(TooManyBlocks) ==> Flat(regions) == Flat(old(regions)) && WORD16 <= |Flat(regions)|
    {
      Unfolded();
      end := 0;
      ghost var before := regions;
      ghost var p;
      s, r, p := PlaceBlock(bb, fits);
      if s.Fail? {
        return;
      }
      EndTested(prog, before, bb, p, old(nextId), patchEnd);
      if patchEnd > |bb| {
        s := Fail(PatchEnd);
        return;
      }
      if patchEnd < |bb| && bb[patchEnd].insn.key !in regions[r].instCache {
        s := Fail(PatchEnd);
        return;
      }
      FlatPlace(before, p, old(nextId));
      PlacedLast(prog, before, p, old(nextId), bb);
      end := TrimBack(r, bb, patchEnd);
      Unfolded();
      TrimmedAll(prog, regions, r, bb, patchEnd, end);
      PlacedHolds(prog, before, bb, p, old(nextId), end);
    }

    /** Writes the first n patches of a basic block into region r, which has the others. */
    method WriteInto(r: nat, bb: seq<Patch>, n: nat) returns (s: Status, ghost cuts: seq<nat>)
      requires Valid() && IsBasicBlock(prog, bb)
      requires r < |regions| && regions[r].covered.Has(BlockRange(bb).start)
      requires n <= |bb| && forall j :: 0 <= j < |bb| ==> (bb[j].insn.key in regions[r].instCache <==> n <= j)
      requires forall j :: 0 <= j < n ==> WellFormed(bb[j])
      modifies this`regions, this`codeBlockMap
      ensures s.Ok? ==> Books() && (CacheOk(prog, regions) <==> old(regions)[r].covered.Has(bb[|bb| - 1].insn.key.address))
      ensures s.Ok? ==> r < |regions| && Partition(regions[r], cuts, bb, n)
      ensures s.Ok? ==> Inventory(Flat(regions)) == Inventory(Flat(old(regions))) + multiset(bb[..n])
      ensures s.Ok? ==> forall j :: 0 <= j < |bb| ==> Cached(regions, bb[j].insn.key)
      ensures s.Ok? ==> Pages(Flat(old(regions))) <= Pages(Flat(regions))
      ensures s.Ok? && old(MapExact()) ==> MapExact()
      ensures s.Fail? ==> s.why.Unwritable? || s.why.TooManyBlocks?
      ensures s.Fail? ==> regions == old(regions) && GivesUp(Flat(regions), bb[..n], s.why)
    {
      Unfolded();
      ghost var before, book, out, pages := regions, codeBlockMap, regions[r], {};
      GoodOne(prog, before, r);
      s, out, pages, cuts := Rewrite(r, bb, n);
      if s.Ok? {
        PiecedIs(prog, before[r], out, cuts, bb, n, LivePages(before), pages);
        WrittenCache(prog, before, r, out, bb, n);
        InventoryAtRegion(before, r, out, multiset(bb[..n]));
        BookedPages(before, reduceList, nextId, needFlush, book, r, out, pages);
      } else {
        GivesUpThere(r, bb[..n], s.why);
      }
    }

    /** Replaces region r by what the patches make of it, and enters the new pages in the map. */
    method Rewrite(r: nat, bb: seq<Patch>, n: nat)
      returns (s: Status, ghost out: Region, ghost pages: set<nat>, ghost cuts: seq<nat>)
      requires PageOk() && ProgramOk(prog) && r < |regions| && Sound(prog, regions[r]) && IsBasicBlock(prog, bb) && n <= |bb|
      requires forall j :: 0 <= j < n ==> WellFormed(bb[j]) && bb[j].insn.key !in regions[r].instCache
      modifies this`regions, this`codeBlockMap
      ensures s.Ok? ==> regions == old(regions)[r := out] && codeBlockMap == old(codeBlockMap) + (pages - LivePages(old(regions)))
      ensures s.Ok? ==> Pieced(prog, old(regions)[r], out, cuts, bb, n, LivePages(old(regions)), pages)
      ensures s.Fail? ==> regions == old(regions) && GivesUp(regions[r].blocks, bb[..n], s.why)
      ensures s.Fail? ==> s.why.Unwritable? || s.why.TooManyBlocks?
    {
      var live := LivePages(regions);
      var region, inUse;
      s, region, inUse, cuts := WriteSequences(regions[r], live, bb, n);
      out, pages := region, inUse;
      if s.Ok? {
        regions := regions[r := region];
        codeBlockMap := codeBlockMap + (inUse - live);
      }
    }

    /** Writes the first n patches of a basic block, as one or more sequences. */
    method WriteSequences(region: Region, live: set<nat>, bb: seq<Patch>, n: nat)
      returns (s: Status, out: Region, pages: set<nat>, ghost cuts: seq<nat>)
      requires PageOk() && ProgramOk(prog) && Sound(prog, region) && IsBasicBlock(prog, bb) && n <= |bb|
      requires forall j :: 0 <= j < n ==> WellFormed(bb[j]) && bb[j].insn.key !in region.instCache
      ensures s.Ok? ==> Pieced(prog, region, out, cuts, bb, n, live, pages)
      ensures s.Fail? ==> s.why.Unwritable? || s.why.TooManyBlocks?
      ensures s == Fail(TooManyBlocks) && AllFitFresh(bb, n) ==> WORD16 < |region.blocks| + n
      ensures s.Fail? && s.why.Unwritable? ==> Blocked(region.blocks, bb, n, s.why.why)
      ensures s.Fail? ==> GivesUp(region.blocks, bb[..n], s.why)
    {
      PiecedNone(prog, region, bb, live);
      AwaitedIs(prog, region, bb, n);
      s, out, pages, cuts := WritePieces(region, live, bb, n);
      if s.Fail? {
        assert bb[..n][0..n] == bb[0..n];
        assert AllFitFresh(bb[..n], n) ==> AllFitFresh(bb, n);
      }
    }

    /** The loop of writeBasicBlock. */
    method WritePieces(region: Region, live: set<nat>, bb: seq<Patch>, n: nat)
      returns (s: Status, out: Region, pages: set<nat>, ghost cuts: seq<nat>)
      requires PageOk() && ProgramOk(prog) && Pieced(prog, region, region, [0], bb, 0, live, live) && n <= |bb| && Awaited(prog, region, bb, n)
      ensures s.Ok? ==> Pieced(prog, region, out, cuts, bb, n, live, pages)
      ensures s.Fail? ==> s.why.Unwritable? || s.why.TooManyBlocks?
      ensures s == Fail(TooManyBlocks) && AllFitFresh(bb, n) ==> WORD16 < |region.blocks| + n
      ensures s.Fail? && s.why.Unwritable? ==> Blocked(region.blocks, bb, n, s.why.why)
    {
      var m := 0;
      out, pages, cuts := region, live, [0];
      BudgetStart(region.blocks, shadowCapacity, Need(bb, 0, n));
      while m < n
        invariant m <= n && Pieced(prog, region, out, cuts, bb, m, live, pages)
        invariant AllFitFresh(bb, n) ==> |out.blocks| <= |region.blocks| + m
        invariant |region.blocks| <= |out.blocks|
        invariant Budgeted(region.blocks, out.blocks, shadowCapacity, Need(bb, m, n), Need(bb, 0, n))
      {
        var e;
        s, out, pages, e := WritePiece(out, pages, bb, m, n, region, cuts, live);
        if s.Fail? {
          return;
        }
        cuts := cuts + [e];
        m := e;
      }
      s := Ok;
    }

    /** One turn of the loop: one more sequence, of the patches from m to e. */
    method WritePiece(region: Region, had: set<nat>, bb: seq<Patch>, m: nat, n: nat, ghost x: Region, ghost cuts: seq<nat>, ghost live: set<nat>)
      returns (s: Status, out: Region, pages: set<nat>, e: nat)
      requires PageOk() && ProgramOk(prog)
      requires m < n <= |bb| && Awaited(prog, x, bb, n) && Pieced(prog, x, region, cuts, bb, m, live, had)
      requires |x.blocks| <= |region.blocks| && Budgeted(x.blocks, region.blocks, shadowCapacity, Need(bb, m, n), Need(bb, 0, n))
      ensures s.Ok? ==> m < e <= n && Pieced(prog, x, out, cuts + [e], bb, e, live, pages)
      ensures s.Ok? ==> |x.blocks| <= |out.blocks| && Budgeted(x.blocks, out.blocks, shadowCapacity, Need(bb, e, n), Need(bb, 0, n))
      ensures s.Fail? && s.why.Unwritable? ==> Blocked(x.blocks, bb, n, s.why.why)
      ensures s.Ok? && AllFitFresh(bb, n) ==> |out.blocks| <= |region.blocks| + 1
      ensures s.Fail? ==> s.why.Unwritable? || (s.why.TooManyBlocks? && (AllFitFresh(bb, n) ==> |region.blocks| == WORD16))
    {
      PiecedIs(prog, x, region, cuts, bb, m, live, had);
      AwaitedIs(prog, x, bb, n);
      UpcomingIs(prog, x, region, bb, m, n);
      s, out, pages, e := WriteNext(region, had, bb, m, n, x);
      if s.Ok? {
        DeliveredIs(prog, x, region, out, bb, m, e, had, pages);
        PiecedMore(prog, x, region, out, cuts, bb, m, e, live, had, pages);
      }
    }

    /** Writes the patches m to n of a basic block, as far as they fit one block of the region:
        the first block that takes one, else a new one. `x` is the region before the basic block
        and `live` the pages in use. */
    method WriteNext(region: Region, live: set<nat>, bb: seq<Patch>, m: nat, n: nat, ghost x: Region)
      returns (s: Status, out: Region, pages: set<nat>, e: nat)
      requires PageOk() && ProgramOk(prog)
      requires m < n <= |bb| && Upcoming(prog, x, region, bb, m, n)
      requires |x.blocks| <= |region.blocks| && Budgeted(x.blocks, region.blocks, shadowCapacity, Need(bb, m, n), Need(bb, 0, n))
      ensures s.Ok? ==> m < e <= n && Delivered(prog, x, region, out, bb, m, e, live, pages)
      ensures s.Ok? && FitsFresh(bb[m]) ==> |out.blocks| <= |region.blocks| + 1
      ensures s.Fail? ==> s.why.Unwritable? || (s.why.TooManyBlocks? && (FitsFresh(bb[m]) ==> |region.blocks| == WORD16))
      ensures s.Ok? ==> Budgeted(x.blocks, out.blocks, shadowCapacity, Need(bb, e, n), Need(bb, 0, n))
      ensures s.Fail? && s.why.Unwritable? ==> Blocked(x.blocks, bb, n, s.why.why)
    {
      var i, done := 0, false;
      out, pages, e := region, live, m;
      UpcomingStart(prog, x, region, bb, m, n, live);
      PassedNone(region.blocks, bb[m]);
      while true
        invariant i <= |out.blocks| && |x.blocks| <= |out.blocks| && (FitsFresh(bb[m]) ==> |out.blocks| == |region.blocks|)
        invariant Tried(prog, region, out, live, pages) && Passed(region.blocks, out.blocks, bb[m], i)
        invariant Budgeted(x.blocks, out.blocks, shadowCapacity, Need(bb, m, n), Need(bb, 0, n))
        decreases WORD16 - i
      {
        if i >= |out.blocks| {
          if i >= WORD16 {
            s := Fail(TooManyBlocks);
            return;
          }
          s, done, out, pages, e := TryPage(out, pages, region, live, bb, m, n, x);
        } else {
          s, done, out, e := TryBlock(out, pages, i, region, live, bb, m, n, x);
        }
        if done || s.Fail? {
          return;
        }
        i := i + 1;
      }
    }

    /** Adds a block behind blocks that had no room. */
    method NextPage(region: Region, pages: set<nat>, ghost y: Region, ghost live: set<nat>,
                    ghost bb: seq<Patch>, ghost m: nat, ghost n: nat, ghost x: Region)
      returns (out: Region, pages': set<nat>)
      requires PageOk() && ProgramOk(prog) && m < n <= |bb| && |region.blocks| < WORD16 && |x.blocks| <= |region.blocks|
      requires Tried(prog, y, region, live, pages) && Passed(y.blocks, region.blocks, bb[m], |region.blocks|)
      requires Budgeted(x.blocks, region.blocks, shadowCapacity, Need(bb, m, n), Need(bb, 0, n))
      ensures Tried(prog, y, out, live, pages') && Passed(y.blocks, out.blocks, bb[m], |region.blocks|)
      ensures Budgeted(x.blocks, out.blocks, shadowCapacity, Need(bb, m, n), Need(bb, 0, n))
      ensures |out.blocks| == |region.blocks| + 1
      ensures FitsFresh(bb[m]) ==> !NoRoom(out.blocks[|region.blocks|], bb[m])
    {
      out, pages' := AddPage(region, pages, y, live);
      PassedAll(y.blocks, region.blocks, out.blocks, bb[m], |region.blocks|);
      BudgetPage(x.blocks, region.blocks, shadowCapacity, Need(bb, m, n), Need(bb, 0, n), out.blocks);
    }

    /** Writes into a new block. */
    method TryPage(region: Region, had: set<nat>, ghost y: Region, ghost live: set<nat>, bb: seq<Patch>, m: nat, n: nat, ghost x: Region)
      returns (s: Status, done: bool, out: Region, pages: set<nat>, e: nat)
      requires PageOk() && ProgramOk(prog) && m < n <= |bb| && Upcoming(prog, x, y, bb, m, n)
      requires |region.blocks| < WORD16 && |x.blocks| <= |region.blocks|
      requires Tried(prog, y, region, live, had) && Passed(y.blocks, region.blocks, bb[m], |region.blocks|)
      requires Budgeted(x.blocks, region.blocks, shadowCapacity, Need(bb, m, n), Need(bb, 0, n))
      ensures s.Ok? && done ==> m < e <= n && Delivered(prog, x, y, out, bb, m, e, live, pages)
      ensures s.Ok? && done ==> Budgeted(x.blocks, out.blocks, shadowCapacity, Need(bb, e, n), Need(bb, 0, n))
      ensures s.Ok? && !done ==> Tried(prog, y, out, live, pages) && Passed(y.blocks, out.blocks, bb[m], |region.blocks| + 1)
      ensures s.Ok? && !done ==> Budgeted(x.blocks, out.blocks, shadowCapacity, Need(bb, m, n), Need(bb, 0, n))
      ensures s.Ok? ==> |out.blocks| == |region.blocks| + 1 && (FitsFresh(bb[m]) ==> done)
      ensures s.Fail? ==> s.why.Unwritable? && Blocked(x.blocks, bb, n, s.why.why)
    {
      var more;
      more, pages := NextPage(region, had, y, live, bb, m, n, x);
      s, done, out, e := TryBlock(more, pages, |region.blocks|, y, live, bb, m, n, x);
    }

    /** Writes into block i, or finds it has no room. */
    method TryBlock(region: Region, pages: set<nat>, i: nat, ghost y: Region, ghost live: set<nat>,
                    bb: seq<Patch>, m: nat, n: nat, ghost x: Region)
      returns (s: Status, done: bool, out: Region, e: nat)
      requires PageOk() && ProgramOk(prog) && m < n <= |bb| && Upcoming(prog, x, y, bb, m, n) && i < |region.blocks|
      requires Tried(prog, y, region, live, pages) && Passed(y.blocks, region.blocks, bb[m], i)
      requires Budgeted(x.blocks, region.blocks, shadowCapacity, Need(bb, m, n), Need(bb, 0, n))
      ensures s.Ok? && done ==> m < e <= n && Delivered(prog, x, y, out, bb, m, e, live, pages)
      ensures s.Ok? && done ==> Budgeted(x.blocks, out.blocks, shadowCapacity, Need(bb, e, n), Need(bb, 0, n))
      ensures s.Ok? && !done ==> Tried(prog, y, out, live, pages) && Passed(y.blocks, out.blocks, bb[m], i + 1)
      ensures s.Ok? && !done ==> Budgeted(x.blocks, out.blocks, shadowCapacity, Need(bb, m, n), Need(bb, 0, n))
      ensures s.Ok? ==> |out.blocks| == |region.blocks| <= WORD16 && (done <==> !NoRoom(region.blocks[i], bb[m]))
      ensures s.Fail? ==> s.why.Unwritable? && Blocked(x.blocks, bb, n, s.why.why)
    {
      UpcomingStart(prog, x, y, bb, m, n, live);
      TriedCanWrite(prog, y, region, live, pages, i);
      out, e, done, s := region, m, false, Ok;
      var o, res, c := WritePage(region.blocks[i], bb[m..n], reserved);
      if o.Aborted? {
        BlockedThere(x.blocks, region.blocks, bb, m, n, i, o.why);
        s := Fail(Unwritable(o.why));
        return;
      }
      if res.seqID == EXEC_BLOCK_FULL {
        TriedFull(prog, y, region, live, pages, i, c);
        BudgetSame(x.blocks, region.blocks, shadowCapacity, Need(bb, m, n), Need(bb, 0, n), i, c);
        PassedFull(y.blocks, region.blocks, bb[m], i, c);
        out := region.(blocks := region.blocks[i := c]);
        return;
      }
      PassedFits(y, region.blocks, bb[m], i);
      done, e := true, m + res.patchWritten;
      SpentThere(x.blocks, region.blocks, bb, m, e, n, i, c, res.patchWritten);
      out := Record(region, i, c, bb, m, n, e, res, x, y, live, pages);
      DeliveredIs(prog, x, y, out, bb, m, e, live, pages);
    }

    /** Why a patch of the first n could not be written, given the blocks there were. */
    ghost predicate Blocked(x: seq<Block>, bb: seq<Patch>, n: nat, why: EB.Abort)
      requires n <= |bb|
    {
      || (why == EB.ShadowAllocation && ShadowsShort(x, shadowCapacity, Need(bb, 0, n)))
      || (why == EB.ScratchRegister && exists i :: 0 <= i < n && Registerless(bb[i], reserved))
    }

    lemma BlockedThere(x: seq<Block>, y: seq<Block>, bb: seq<Patch>, m: nat, n: nat, i: nat, why: EB.Abort)
      requires m < n <= |bb| && i < |y| && Budgeted(x, y, shadowCapacity, Need(bb, m, n), Need(bb, 0, n))
      requires || (why == EB.ShadowAllocation && y[i].shadowCapacity < y[i].shadowIdx + TotalShadows(bb[m..n]) + 1)
               || (why == EB.ScratchRegister && exists j :: 0 <= j < n - m && Registerless(bb[m..n][j], reserved))
      ensures Blocked(x, bb, n, why)
    {
      if why == EB.ShadowAllocation {
        BudgetExceeded(x, y, shadowCapacity, bb, m, n, Need(bb, 0, n), i);
      } else {
        var j :| 0 <= j < n - m && Registerless(bb[m..n][j], reserved);
        assert Registerless(bb[m + j], reserved);
      }
    }

    lemma SpentThere(x: seq<Block>, y: seq<Block>, bb: seq<Patch>, m: nat, e: nat, n: nat, i: nat, c: Block, k: nat)
      requires m < e <= n <= |bb| && e == m + k && i < |y| && Budgeted(x, y, shadowCapacity, Need(bb, m, n), Need(bb, 0, n))
      requires c.shadowIdx + TotalShadows(bb[m..n][k..]) <= y[i].shadowIdx + TotalShadows(bb[m..n]) + 1
      requires c.shadowCapacity == y[i].shadowCapacity
      ensures Budgeted(x, y[i := c], shadowCapacity, Need(bb, e, n), Need(bb, 0, n))
    {
      assert bb[m..n][k..] == bb[e..n];
      BudgetSpent(x, y, shadowCapacity, bb, m, e, n, Need(bb, 0, n), i, c);
    }

    /** Gives a region one more block, on a page no live block has. */
    method AddPage(region: Region, pages: set<nat>, ghost y: Region, ghost live: set<nat>) returns (out: Region, pages': set<nat>)
      requires PageOk() && ProgramOk(prog) && Tried(prog, y, region, live, pages) && |region.blocks| < WORD16
      ensures Tried(prog, y, out, live, pages')
      ensures OneMorePage(region, out, |prologue|, pageSize - |epilogue|, shadowCapacity)
    {
      var base := NewAddress(pages);
      var c := FreshPage(base, pageSize, prologue, epilogue, shadowCapacity, reserved);
      TriedIs(prog, y, region, live, pages);
      SteppedFresh(prog, y, region, c);
      MorePages(y.blocks, region.blocks, live, pages, c);
      out := region.(blocks := region.blocks + [c]);
      pages' := pages + {base};
      TriedIs(prog, y, out, live, pages');
    }

    /** Enters a written sequence in both indexes. */
    method Record(region: Region, i: nat, c: Block, bb: seq<Patch>, m: nat, n: nat, e: nat, res: SeqWriteResult,
                  ghost x: Region, ghost y: Region, ghost live: set<nat>, ghost pages: set<nat>)
      returns (out: Region)
      requires ProgramOk(prog) && i < |region.blocks|
      requires m < n <= |bb| && Upcoming(prog, x, y, bb, m, n) && Tried(prog, y, region, live, pages)
      requires BlockValid(c) && SequenceAdded(region.blocks[i], c, bb[m..n], res.patchWritten)
      requires res.seqID == |region.blocks[i].seqs| && e == m + res.patchWritten
      ensures m < e <= n && Advanced(prog, x, out, bb, e) && OneMore(y, out, bb, m, e)
      ensures out.sequenceCache[bb[m].insn.key].blockIdx == i
      ensures out.blocks == region.blocks[i := c] && NewPages(y.blocks, out.blocks, live, pages)
    {
      TriedIs(prog, y, region, live, pages);
      UpcomingIs(prog, x, y, bb, m, n);
      var k := res.patchWritten;
      AdvancedMore(prog, x, y, region, bb, m, n, i, c, k, e);
      RecordFits(prog, region, i, c, bb[m..n], k);
      var loc := SeqLoc(U16(i), res.seqID, bb[|bb| - 1].insn.End(), bb[m].insn.key.address, bb[e - 1].insn.End());
      var insts := EnterInsts(region.instCache, bb, m, n, k, i, c.seqs[res.seqID].startInstID);
      NextIs(region, i, c, bb, m, n, k, e, loc, insts);
      out := region.(blocks := region.blocks[i := c],
                     sequenceCache := region.sequenceCache[bb[m].insn.key := loc],
                     instCache := insts);
      SamePages(y.blocks, region.blocks, out.blocks, live, pages);
      AddedPiece(region.blocks, i, c, bb, m, n, k, e, loc);
      ExtendsTransitive(y.blocks, region.blocks, out.blocks);
    }

    /** Erases the flagged regions, with their pages and their places in the list. */
    method FlushCommit()
      requires Valid()
      modifies this`regions, this`codeBlockMap, this`reduceList, this`needFlush
      ensures Valid() && !needFlush && (old(MapExact()) ==> MapExact())
      ensures regions == Flagged(old(regions), false)
      ensures reduceList == RV.Kept(old(reduceList), FlaggedIds(old(regions)))
    {
      if needFlush {
        EraseRegions();
        needFlush := false;
        Unfolded();
      } else {
        Unfolded();
        NothingFlagged(regions, reduceList);
      }
    }

    method EraseRegions()
      requires Valid()
      modifies this`regions, this`codeBlockMap, this`reduceList
      ensures CacheOk(prog, regions) && Booked(regions, reduceList, nextId, false, codeBlockMap)
      ensures old(MapExact()) ==> MapExact()
      ensures regions == Flagged(old(regions), false)
      ensures reduceList == RV.Kept(old(reduceList), FlaggedIds(old(regions)))
    {
      Unfolded();
      var kept, list, pages := EraseFlagged(regions, reduceList, codeBlockMap);
      FlaggedOk(prog, regions, false);
      BookedFlushed(regions, reduceList, nextId, needFlush, codeBlockMap, pages);
      regions, reduceList, codeBlockMap := kept, list, pages;
    }

    /** Flags the regions that overlap the range. */
    method ClearCacheRange(range: Range)
      requires Valid()
      modifies this`regions, this`needFlush
      ensures Valid() && (old(MapExact()) ==> MapExact())
      ensures Cleared(old(regions), regions, [range]) && (old(needFlush) ==> needFlush)
    {
      Unfolded();
      ghost var before, flag := regions, needFlush;
      var i := 0;
      while i < |regions|
        invariant i <= |regions| && SameButFlags(before, regions) && (flag ==> needFlush) && FlagsOk(regions, needFlush)
        invariant forall j :: 0 <= j < |regions| ==>
                    (regions[j].toFlush <==> before[j].toFlush || (j < i && before[j].covered.Overlaps(range)))
      {
        if regions[i].covered.Overlaps(range) {
          regions := regions[i := regions[i].(toFlush := true)];
          needFlush := true;
        }
        i := i + 1;
      }
      ClearedOne(before, regions, range);
      FlagsKeepCache(prog, before, regions);
      FlagsKeepBooks(before, regions, reduceList, nextId, flag, needFlush, codeBlockMap);
      Unfolded();
    }

    /** Flags the regions that overlap one of the ranges. */
    method ClearCacheSet(ranges: seq<Range>)
      requires Valid()
      modifies this`regions, this`needFlush
      ensures Valid() && (old(MapExact()) ==> MapExact())
      ensures Cleared(old(regions), regions, ranges) && (old(needFlush) ==> needFlush)
    {
      ghost var before := regions;
      ClearedNone(before);
      for i := 0 to |ranges|
        invariant Valid() && (old(MapExact()) ==> MapExact()) && (old(needFlush) ==> needFlush)
        invariant Cleared(before, regions, ranges[..i])
      {
        ghost var mid := regions;
        ClearCacheRange(ranges[i]);
        ClearedMore(before, mid, regions, ranges[..i], [ranges[i]]);
        assert ranges[..i + 1] == ranges[..i] + [ranges[i]];
      }
      assert ranges[..|ranges|] == ranges;
    }

    /** Drops all regions at once, or flags them. Dropping does not clean the page map: it is
        exact afterwards only if there was no block. */
    method ClearCacheAll(flushNow: bool)
      requires Valid()
      modifies this`regions, this`reduceList, this`needFlush
      ensures Valid()
      ensures flushNow ==> regions == [] && reduceList == [] && !needFlush
      ensures flushNow && old(MapExact()) ==> (MapExact() <==> Flat(old(regions)) == [])
      ensures !flushNow ==> reduceList == old(reduceList) && (old(MapExact()) ==> MapExact())
      ensures !flushNow ==> SameButFlags(old(regions), regions) && forall i :: 0 <= i < |regions| ==> regions[i].toFlush
    {
      if flushNow {
        Unfolded();
        DroppedBooks(regions, codeBlockMap);
        regions, reduceList, needFlush := [], [], false;
        Unfolded();
      } else {
        FlagAll();
      }
    }

    method FlagAll()
      requires Valid()
      modifies this`regions, this`needFlush
      ensures Valid() && (old(MapExact()) ==> MapExact())
      ensures SameButFlags(old(regions), regions) && forall i :: 0 <= i < |regions| ==> regions[i].toFlush
    {
      Unfolded();
      ghost var before, flag := regions, needFlush;
      var i := 0;
      while i < |regions|
        invariant i <= |regions| && SameButFlags(before, regions) && FlagsOk(regions, needFlush)
        invariant forall j :: 0 <= j < i ==> regions[j].toFlush
      {
        regions := regions[i := regions[i].(toFlush := true)];
        needFlush := true;
        i := i + 1;
      }
      FlagsKeepCache(prog, before, regions);
      FlagsKeepBooks(before, regions, reduceList, nextId, flag, needFlush, codeBlockMap);
      Unfolded();
    }

    /** Flags the oldest regions, as few as free enough blocks: k of them. */
    method ReduceCacheTo(nb: nat) returns (ghost k: nat)
      requires Valid()
      modifies this`regions, this`needFlush
      ensures Valid() && (old(MapExact()) ==> MapExact())
      ensures k <= |reduceList| && Evicted(old(regions), regions, reduceList, k)
      ensures |old(regions)| == |regions| && OldestFirst(old(regions), regions, reduceList)
      ensures nb >= |codeBlockMap| ==> k == 0
      ensures nb < |codeBlockMap| ==> ShortestPrefix(old(regions), reduceList, |codeBlockMap| - nb, k)
      ensures |Flat(Flagged(regions, false))| <= nb
    {
      Unfolded();
      ghost var before, flag := regions, needFlush;
      k := 0;
      if nb < |codeBlockMap| {
        k := Evict(|codeBlockMap| - nb);
        FlagsKeepCache(prog, before, regions);
        FlagsKeepBooks(before, regions, reduceList, nextId, flag, needFlush, codeBlockMap);
      } else {
        EvictedNone(before, reduceList);
      }
      EvictedOldest(before, regions, reduceList, nextId, k);
      EvictionBound(before, regions, reduceList, nextId, codeBlockMap, flag, nb, k);
      Unfolded();
    }

    /** The loop of reduceCacheTo. */
    method Evict(blocks: nat) returns (ghost k: nat)
      requires ListOk(regions, reduceList, nextId) && blocks > 0
      modifies this`regions, this`needFlush
      ensures needFlush && k <= |reduceList| && Evicted(old(regions), regions, reduceList, k)
      ensures ShortestPrefix(old(regions), reduceList, blocks, k)
    {
      ghost var before := regions;
      var target := blocks;
      needFlush := true;
      k := 0;
      EvictedNone(before, reduceList);
      var i := 0;
      while i < |reduceList|
        invariant needFlush && k == i <= |reduceList| && Evicted(before, regions, reduceList, k)
        invariant 0 < target <= blocks && SizeOf(before, Names(reduceList, k)) + target == blocks
        invariant forall j :: 0 <= j <= k ==> SizeOf(before, Names(reduceList, j)) < blocks
      {
        var size := FlagNamed(i, before);
        i := i + 1;
        k := i;
        if target <= size {
          break;
        }
        target := target - size;
      }
    }

    /** Flags the region a list entry stands for, which has `size` blocks. */
    method FlagNamed(i: nat, ghost before: seq<Region>) returns (size: nat)
      requires i < |reduceList| && ListOk(before, reduceList, nextId) && Evicted(before, regions, reduceList, i)
      modifies this`regions
      ensures Evicted(before, regions, reduceList, i + 1)
      ensures SizeOf(before, Names(reduceList, i + 1)) == SizeOf(before, Names(reduceList, i)) + size
    {
      NameListed(before, regions, reduceList, nextId, i);
      var r := RegionNamed(reduceList[i]);
      EvictedMore(before, regions, reduceList, nextId, i, r);
      size := |regions[r].blocks|;
      regions := regions[r := regions[r].(toFlush := true)];
    }

    /** The region a list entry stands for. */
    method RegionNamed(id: nat) returns (r: nat)
      requires exists i :: 0 <= i < |regions| && regions[i].id == id
      ensures r < |regions| && regions[r].id == id
    {
      r := 0;
      while regions[r].id != id
        invariant r < |regions| && forall i :: 0 <= i < r ==> regions[i].id != id
        decreases |regions| - r
      {
        r := r + 1;
      }
    }

    /** The first region to look at for an address. */
    method SearchRegion(address: nat) returns (low: nat)
      requires Sorted(Covers(regions))
      ensures Located(Covers(regions), address, low)
    {
      low := 0;
      var high := |regions|;
      if |regions| == 0 {
        return 0;
      }
      ghost var cov := Covers(regions);
      while low + 1 != high
        invariant 0 <= low < high <= |regions|
        invariant forall i :: 0 < i <= low ==> cov[i].start <= address
        invariant low > 0 ==> cov[0].start <= address
        invariant forall i :: high <= i < |cov| ==> address < cov[i].start
      {
        var idx := (low + high) / 2;
        if regions[idx].covered.start > address {
          assert forall i :: idx < i < |cov| ==> cov[idx].end <= cov[i].start;
          high := idx;
        } else {
          assert forall i :: 0 <= i < idx ==> cov[i].end <= cov[idx].start;
          if regions[idx].covered.end <= address {
            low := idx;
          } else {
            assert forall i :: idx < i < |cov| ==> cov[idx].end <= cov[i].start;
            return idx;
          }
        }
      }
    }

    /** Merges region i with its successor, which leaves the vector and the list. */
    method MergeRegion(i: nat) returns (s: Status)
      modifies this`regions, this`reduceList
      ensures i + 1 >= |old(regions)| ==> s == Ok && regions == old(regions) && reduceList == old(reduceList)
      ensures i + 1 < |old(regions)| ==>
                && s == (if |old(regions)[i].blocks| + |old(regions)[i + 1].blocks| < WORD16 then Ok else Fail(TooManyBlocks))
                && (s.Ok? ==>
                      && regions == old(regions)[..i] + [Merged(old(regions)[i], old(regions)[i + 1])] + old(regions)[i + 2..]
                      && reduceList == RV.Kept(old(reduceList), {old(regions)[i + 1].id}))
      ensures s.Fail? ==> regions == old(regions) && reduceList == old(reduceList)
    {
      if i + 1 >= |regions| {
        return Ok;
      }
      var r, q := regions[i], regions[i + 1];
      if |r.blocks| + |q.blocks| >= WORD16 {
        return Fail(TooManyBlocks);
      }
      var seqs := ShiftSequences(r, q);
      var insts := ShiftInstructions(r, q);
      var merged := Region(r.id, r.covered.SetEnd(q.covered.end), r.blocks + q.blocks, seqs, insts, r.toFlush || q.toFlush);
      regions := regions[..i] + [merged] + regions[i + 2..];
      reduceList := RemoveFromList(reduceList, q.id);
      return Ok;
    }

    /** The region to use for a code range: the first one that overlaps it, else one the cost
        test accepts, else a new one. */
    method FindRegion(code: Range, fits: (Region, nat) -> bool) returns (s: Status, r: nat, ghost p: Placement)
      requires Sorted(Covers(regions)) && 0 <= code.start < code.end
      modifies this`regions, this`reduceList, this`nextId
      ensures s.Fail? ==> s.why == TooManyBlocks
      ensures s.Ok? ==> Found(old(regions), old(reduceList), old(nextId), code, r, p)
      ensures s.Ok? ==> forall m: nat :: Between(Covers(old(regions)), code, m) ==> p == PlaceFree(old(regions), code, fits, m)
      ensures s.Ok? ==> forall m: nat :: Between(Covers(old(regions)), code, m) ==> Economical(old(regions), code, fits, m, p)
      ensures s.Fail? <==> exists i :: Unmergeable(old(regions), code, i)
      ensures s.Fail? ==> Flat(regions) == Flat(old(regions)) && WORD16 <= |Flat(regions)|
    {
      var low := SearchRegion(code.start);
      var hit, i, best;
      ghost var m;
      hit, i, best, m := Scan(code, low, fits);
      ghost var before := regions;
      if hit {
        NotBetween(Covers(regions), code, i);
        p := PlaceOver(Covers(regions), code, i);
        if regions[i].covered.Contains(code) {
          FoundInside(code, i);
          OneUnmergeable(before, code, i);
          return Ok, i, p;
        }
        s := UseOverlapping(code, i);
        OneUnmergeable(before, code, i);
        if s.Fail? {
          FlatSame(before, regions);
          FlatTwoAt(before, i);
        }
        return s, i, p;
      }
      r, p := UseNeighbour(code, low, best, m);
      BetweenUnique(Covers(before), code, m);
      FreeIsEconomical(before, code, fits, m);
      return Ok, r, p;
    }

    /** The loop of findRegion over the one or two regions next to the start of the range: the
        first that overlaps it, or the cheapest the cost test accepts. `m` is where the range lies
        if none overlaps. */
    method Scan(code: Range, low: nat, fits: (Region, nat) -> bool) returns (hit: bool, i: nat, best: nat, ghost m: nat)
      requires Sorted(Covers(regions)) && code.start < code.end && Located(Covers(regions), code.start, low)
      ensures hit ==> FirstOverlap(Covers(regions), code, i)
      ensures !hit ==> Between(Covers(regions), code, m) && low <= |regions| && (low == m || low + 1 == m)
      ensures !hit ==> best == Cheapest(regions, code, fits, m)
    {
      ghost var cov := Covers(regions);
      best := |regions|;
      var bestCost := NO_COST;
      var limit := 2;
      if low == 0 && |regions| != 0 && code.start < regions[0].covered.start {
        limit := 1;
      }
      i := low;
      m := if |cov| == 0 then 0 else low + limit - 1;
      PassingNone(cov, code, low);
      BestNone(regions, code, fits, low);
      while i < low + limit && i < |regions|
        invariant low <= i <= |regions| && i <= low + limit && Passing(cov, code, low, i)
        invariant BestOf(regions, code, fits, low, i, best, bestCost)
        decreases |regions| - i
      {
        if regions[i].covered.Contains(code) || regions[i].covered.Overlaps(code) {
          PassingHit(cov, code, low, i);
          return true, i, best, m;
        }
        var cost := ExtensionCost(regions[i].covered, code);
        PassingNext(cov, code, low, i);
        BestNext(regions, code, fits, low, i, best, bestCost);
        if fits(regions[i], cost) && cost < bestCost {
          bestCost, best := cost, i;
        }
        i := i + 1;
      }
      PassingAll(cov, code, low, i);
      BestIs(regions, code, fits, low, i, best, bestCost, m);
      return false, i, best, m;
    }

    /** The end of findRegion, when no region overlaps the range: the accepted neighbour, or a
        new region. */
    method UseNeighbour(code: Range, low: nat, best: nat, ghost m: nat) returns (r: nat, ghost p: Placement)
      requires Sorted(Covers(regions)) && code.start < code.end && Between(Covers(regions), code, m)
      requires low <= |regions| && (low == m || low + 1 == m)
      requires best == |regions| || (best < |regions| && (best == m || best + 1 == m))
      modifies this`regions, this`reduceList, this`nextId
      ensures Found(old(regions), old(reduceList), old(nextId), code, r, p)
      ensures p == if best < |old(regions)| then Widen(best, Hull(old(regions)[best].covered, code)) else Insert(m, code)
    {
      ghost var cov, before := Covers(regions), regions;
      if best != |regions| {
        ExtendRegion(code, best);
        p := Widen(best, Hull(cov[best], code));
        assert PlacedBetween(cov, code, p, m);
        FoundIs(before, old(reduceList), old(nextId), code, best, p);
        return best, p;
      }
      r := CreateRegion(code, low);
      CreatedThere(cov, code, low, m, r);
      p := Insert(r, code);
      FoundIs(before, old(reduceList), old(nextId), code, r, p);
    }

    /** The medium case of findRegion: region i is the first to overlap the range. */
    method UseOverlapping(code: Range, i: nat) returns (s: Status)
      requires Sorted(Covers(regions)) && code.start < code.end
      requires FirstOverlap(Covers(regions), code, i) && !regions[i].covered.Contains(code)
      modifies this`regions, this`reduceList
      ensures s.Fail? ==> s.why == TooManyBlocks
      ensures s.Fail? <==> Unmergeable(old(regions), code, i)
      ensures s.Fail? ==> |regions| == |old(regions)| && forall j :: 0 <= j < |regions| ==> regions[j].blocks == old(regions)[j].blocks
      ensures s.Ok? ==> Found(old(regions), old(reduceList), nextId, code, i, PlaceOver(Covers(old(regions)), code, i))
    {
      ghost var cov, before := Covers(regions), regions;
      if code.start < regions[i].covered.start {
        assert i > 0 ==> !cov[i - 1].Overlaps(code);
        if i > 0 && code.start < regions[i - 1].covered.end {
          return Fail(RegionOrder);
        }
        regions := regions[i := regions[i].(covered := regions[i].covered.SetStart(code.start))];
      }
      if regions[i].covered.end < code.end {
        if i + 1 == |regions| || code.end <= regions[i + 1].covered.start {
          regions := regions[i := regions[i].(covered := regions[i].covered.SetEnd(code.end))];
        } else {
          s := MergeRegion(i);
          if s.Ok? {
            assert regions == PlaceRegions(before, PlaceOver(cov, code, i), nextId);
            FoundOver(before, old(reduceList), code, i);
          }
          return;
        }
      }
      assert regions == PlaceRegions(before, PlaceOver(cov, code, i), nextId);
      FoundOver(before, old(reduceList), code, i);
      return Ok;
    }

    lemma FoundOver(before: seq<Region>, list: seq<nat>, code: Range, i: nat)
      requires FirstOverlap(Covers(before), code, i)
      requires var p := PlaceOver(Covers(before), code, i);
               && regions == PlaceRegions(before, p, nextId) && reduceList == ListAfter(before, list, nextId, p)
               && (p.Fuse? ==> |before[i].blocks| + |before[i + 1].blocks| < WORD16)
      ensures Found(before, list, nextId, code, i, PlaceOver(Covers(before), code, i))
    {
      FoundIs(before, list, nextId, code, i, PlaceOver(Covers(before), code, i));
    }

    /** Widens a region so that it covers the range, which lies next to it. */
    method ExtendRegion(code: Range, i: nat)
      requires i < |regions|
      modifies this`regions
      ensures regions == old(regions)[i := old(regions)[i].(covered := Hull(old(regions)[i].covered, code))]
    {
      if regions[i].covered.end < code.end {
        regions := regions[i := regions[i].(covered := regions[i].covered.SetEnd(code.end))];
      }
      if regions[i].covered.start > code.start {
        regions := regions[i := regions[i].(covered := regions[i].covered.SetStart(code.start))];
      }
    }

    /** Inserts a new region in front of the first one that starts behind the range. */
    method CreateRegion(code: Range, low: nat) returns (at: nat)
      requires low <= |regions|
      modifies this`regions, this`reduceList, this`nextId
      ensures low <= at <= |old(regions)|
      ensures forall k :: low <= k < at ==> old(regions)[k].covered.start <= code.start
      ensures at < |old(regions)| ==> code.start < old(regions)[at].covered.start
      ensures regions == old(regions)[..at] + [NewRegion(old(nextId), code)] + old(regions)[at..]
      ensures reduceList == old(reduceList) + [old(nextId)] && nextId == old(nextId) + 1
    {
      at := low;
      while at < |regions|
        invariant low <= at <= |regions|
        invariant forall k :: low <= k < at ==> regions[k].covered.start <= code.start
      {
        if regions[at].covered.start > code.start {
          break;
        }
        at := at + 1;
      }
      regions := regions[..at] + [NewRegion(nextId, code)] + regions[at..];
      reduceList := reduceList + [nextId];
      nextId := nextId + 1;
    }

    lemma FoundInside(code: Range, i: nat)
      requires FirstOverlap(Covers(regions), code, i) && regions[i].covered.Contains(code)
      ensures PlaceOver(Covers(regions), code, i) == Keep(i) && Found(regions, reduceList, nextId, code, i, Keep(i))
    {
      FoundIs(regions, reduceList, nextId, code, i, Keep(i));
    }

    /** FoundAt, folded. */
    ghost predicate Found(before: seq<Region>, list: seq<nat>, id: nat, code: Range, r: nat, p: Placement)
      reads this
    {
      forall u {:trigger Asked(APlace, u)} :: Asked(APlace, u) ==> FoundAt(before, list, id, code, r, p)
    }

    lemma FoundIs(before: seq<Region>, list: seq<nat>, id: nat, code: Range, r: nat, p: Placement)
      ensures Found(before, list, id, code, r, p) <==> FoundAt(before, list, id, code, r, p)
    {
      assert Asked(APlace, 0);
    }

    /** The state findRegion leaves for a placement. */
    ghost predicate FoundAt(before: seq<Region>, list: seq<nat>, id: nat, code: Range, r: nat, p: Placement)
      reads this
    {
      && Placed(Covers(before), code, p) && Applicable(Covers(before), p)
      && regions == PlaceRegions(before, p, id) && r == p.at
      && (p.Fuse? ==> |before[p.at].blocks| + |before[p.at + 1].blocks| < WORD16)
      && reduceList == ListAfter(before, list, id, p)
      && nextId == if p.Insert? then id + 1 else id
    }
  }

  /** The cache is in order, and so are the books about it; folded. */
  ghost predicate CacheKept(prog: Program, regions: seq<Region>, list: seq<nat>, id: nat, needFlush: bool, book: set<nat>)
    requires ProgramOk(prog)
  {
    forall u {:trigger Asked(ACache, u)} :: Asked(ACache, u) ==> CacheOk(prog, regions) && Booked(regions, list, id, needFlush, book)
  }

  lemma CacheKeptIs(prog: Program, regions: seq<Region>, list: seq<nat>, id: nat, needFlush: bool, book: set<nat>)
    requires ProgramOk(prog)
    ensures CacheKept(prog, regions, list, id, needFlush, book)
            <==> CacheOk(prog, regions) && Booked(regions, list, id, needFlush, book)
  {
    assert Asked(ACache, 0);
  }

  /** A sequence of a page is selected: what is executed is the code of its instructions and its tail,
      from the first instruction on, with a scratch register that instruction does not use. */
  ghost predicate Ready(e: EB.ExecBlock, b: Block, seqID: nat)
    reads e, e.code
  {
    && e.View() == b && e.currentSeq == seqID < |b.seqs|
    && e.currentInst == b.seqs[seqID].startInstID < |b.patches|
    && e.currentScratch !in b.patches[e.currentInst].Busy()
    && EB.AtCode(e.selector, e.base, e.code[..], b.patches[e.currentInst])
    && ExecutedAt(b, seqID, e.selector)
  }

  /** The page and the code of the selected sequence. */
  method Loaded(e: EB.ExecBlock, ghost b: Block, ghost seqID: nat) returns (base: nat, piece: seq<Patch>)
    requires Ready(e, b, seqID) && b.seqs[seqID].startInstID <= b.seqs[seqID].endInstID < |b.patches|
    ensures base == b.base && piece == SequenceCode(b, seqID)
  {
    base := e.base;
    piece := e.patches[e.seqs[e.currentSeq].startInstID..e.seqs[e.currentSeq].endInstID + 1];
  }

  method Select(b: Block, seqID: nat, reserved: set<nat>) returns (e: EB.ExecBlock)
    requires BlockValid(b) && seqID < |b.seqs|
    ensures fresh(e) && Ready(e, b, seqID)
  {
    e := new EB.ExecBlock.Load(b, reserved);
    e.SelectSeq(seqID);
  }

  /** Splits a sequence of a page. */
  method SplitPage(b: Block, i: nat, reserved: set<nat>) returns (c: Block, newSeqID: nat)
    requires BlockValid(b) && i < |b.insts| && |b.seqs| + 1 < WORD16
    ensures BlockValid(c) && b.insts[i].seqID < |b.seqs| && c == SplitBlock(b, i) && newSeqID == |b.seqs|
  {
    var e := new EB.ExecBlock.Load(b, reserved);
    newSeqID := e.SplitSequence(i);
    c := e.View();
  }

  /** The first i blocks of a region had no room for the patch, the others are as they were; folded. */
  ghost predicate Passed(x: seq<Block>, y: seq<Block>, p: Patch, i: nat) {
    forall u {:trigger Asked(ASearch, u)} :: Asked(ASearch, u) ==>
      && |x| <= |y| && (forall j :: i <= j < |x| ==> y[j] == x[j])
      && (forall j :: 0 <= j < i && j < |x| ==> NoRoom(x[j], p))
  }

  lemma PassedNone(x: seq<Block>, p: Patch)
    ensures Passed(x, x, p, 0)
  {
  }

  lemma PassedFull(x: seq<Block>, y: seq<Block>, p: Patch, i: nat, c: Block)
    requires Passed(x, y, p, i) && i < |y| && NoRoom(y[i], p)
    ensures Passed(x, y[i := c], p, i + 1)
  {
    assert Asked(ASearch, 0);
  }

  lemma PassedAll(x: seq<Block>, y: seq<Block>, z: seq<Block>, p: Patch, i: nat)
    requires Passed(x, y, p, i) && |y| == i && y <= z
    ensures Passed(x, z, p, i)
  {
    assert Asked(ASearch, 0);
  }

  lemma PassedFits(region: Region, y: seq<Block>, p: Patch, i: nat)
    requires Passed(region.blocks, y, p, i) && i < |y| && !NoRoom(y[i], p)
    ensures FirstFit(region, p, i)
  {
    assert Asked(ASearch, 0);
  }

  /** writeSequence has no place for the patch in the block. */
  predicate NoRoom(b: Block, p: Patch) {
    b.maxSize - b.position < |Bytes(p.items)| + MINIMAL_BLOCK_SIZE
  }

  /** Region z is y with the patches from m to e as one more sequence, in the first block with room for
      the first of them, or in a new one; folded. */
  ghost predicate Delivered(prog: Program, x: Region, y: Region, z: Region, bb: seq<Patch>, m: nat, e: nat, live: set<nat>, pages: set<nat>)
    requires ProgramOk(prog) && m < e <= |bb|
  {
    forall u {:trigger Asked(ASearch, u)} :: Asked(ASearch, u) ==>
      && Advanced(prog, x, z, bb, e) && OneMore(y, z, bb, m, e) && NewPages(y.blocks, z.blocks, live, pages)
      && bb[m].insn.key in z.sequenceCache && FirstFit(y, bb[m], z.sequenceCache[bb[m].insn.key].blockIdx)
  }

  lemma DeliveredIs(prog: Program, x: Region, y: Region, z: Region, bb: seq<Patch>, m: nat, e: nat, live: set<nat>, pages: set<nat>)
    requires ProgramOk(prog) && m < e <= |bb|
    ensures Delivered(prog, x, y, z, bb, m, e, live, pages)
            <==> && Advanced(prog, x, z, bb, e) && OneMore(y, z, bb, m, e) && NewPages(y.blocks, z.blocks, live, pages)
                 && bb[m].insn.key in z.sequenceCache && FirstFit(y, bb[m], z.sequenceCache[bb[m].insn.key].blockIdx)
  {
    assert Asked(ASearch, 0);
  }

  /** Block i is the first one of the region with room for the patch, or a new one. */
  ghost predicate FirstFit(region: Region, p: Patch, i: nat) {
    && (forall j :: 0 <= j < i && j < |region.blocks| ==> NoRoom(region.blocks[j], p))
    && (i < |region.blocks| ==> !NoRoom(region.blocks[i], p))
  }

  /** The patch leaves no register to be its scratch register. */
  predicate Registerless(p: Patch, reserved: set<nat>) { AllRegisters() - reserved - p.Busy() == {} }

  /** Writes a sequence into a page. */
  method WritePage(b: Block, ps: seq<Patch>, reserved: set<nat>) returns (o: EB.Outcome, res: SeqWriteResult, c: Block)
    requires BlockValid(b) && |b.seqs| < EXEC_BLOCK_FULL && forall j :: 0 <= j < |ps| ==> WellFormed(ps[j])
    ensures !o.NoSpace? && (o.Done? ==> BlockValid(c))
    ensures o.Done? ==>
              (res.seqID == EXEC_BLOCK_FULL <==> ps == [] || NoRoom(b, ps[0]))
    ensures o.Done? && res.seqID == EXEC_BLOCK_FULL ==> Restored(b, c)
    ensures o.Done? && res.seqID != EXEC_BLOCK_FULL ==> res.seqID == |b.seqs| && SequenceAdded(b, c, ps, res.patchWritten)
    ensures o.Done? && res.seqID != EXEC_BLOCK_FULL ==>
              c.shadowIdx + TotalShadows(ps[res.patchWritten..]) <= b.shadowIdx + TotalShadows(ps) + 1
    ensures o.Aborted? ==>
              || (o.why == EB.ShadowAllocation && b.shadowCapacity < b.shadowIdx + TotalShadows(ps) + 1)
              || (o.why == EB.ScratchRegister && exists i :: 0 <= i < |ps| && Registerless(ps[i], reserved))
  {
    var e := new EB.ExecBlock.Load(b, reserved);
    o, res := e.WriteSequence(ps);
    c := e.View();
  }

  method FreshPage(base: nat, pageSize: nat, prologue: seq<int>, epilogue: seq<int>, shadowCapacity: nat, reserved: set<nat>)
    returns (c: Block)
    requires |prologue| + |epilogue| <= pageSize <= WORD16 && shadowCapacity < WORD16
    ensures BlockValid(c) && c.base == base && c.patches == [] && c.insts == [] && c.seqs == []
    ensures c.position == |prologue| && c.maxSize == pageSize - |epilogue| && !c.isFull
    ensures c.shadowIdx == 0 && c.shadowCapacity == shadowCapacity
  {
    var e := new EB.ExecBlock(base, pageSize, prologue, epilogue, shadowCapacity, reserved);
    c := e.View();
  }

  /** Any address that is not in use. */
  method NewAddress(live: set<nat>) returns (base: nat)
    ensures base !in live
  {
    ghost var n := Above(live);
    assert n !in live;
    base :| base !in live;
  }

  lemma {:induction false} Above(live: set<nat>) returns (n: nat)
    ensures forall x :: x in live ==> x < n
    decreases |live|
  {
    if live == {} {
      return 0;
    }
    var e :| e in live;
    var rest := Above(live - {e});
    n := Max(rest, e + 1);
    assert forall x :: x in live ==> x == e || x in live - {e};
  }

  /** The instructions of a written sequence, entered one after the other. */
  method EnterInsts(instCache: map<Key, InstLoc>, bb: seq<Patch>, m: nat, ghost n: nat, k: nat, b: nat, start: nat)
    returns (out: map<Key, InstLoc>)
    requires m <= n <= |bb| && k <= n - m && b < WORD16 && start + k <= WORD16
    ensures out == AddInsts(instCache, bb[m..n], k, b, start)
  {
    out := instCache;
    for j := 0 to k
      invariant out == AddInsts(instCache, bb[m..n], j, b, start)
    {
      Fits16(start + j);
      Fits16(b);
      out := out[bb[m + j].insn.key := InstLoc(U16(b), U16(start + j))];
    }
  }

  ghost predicate OneMorePage(before: Region, after: Region, position: nat, maxSize: nat, cap: nat) {
    && |after.blocks| == |before.blocks| + 1 && before.blocks <= after.blocks
    && var c := after.blocks[|before.blocks|];
       c.position == position && c.maxSize == maxSize && !c.isFull && c.shadowIdx == 0 && c.shadowCapacity == cap
  }

  method DropPages(blocks: seq<Block>, book: set<nat>) returns (pages: set<nat>)
    ensures forall x :: x in pages <==> x in book && x !in Pages(blocks)
  {
    pages := book;
    for b := 0 to |blocks|
      invariant forall x :: x in pages <==> x in book && x !in Pages(blocks[..b])
    {
      assert blocks[..b + 1] == blocks[..b] + [blocks[b]];
      PagesSnoc(blocks[..b], blocks[b]);
      pages := pages - {blocks[b].base};
    }
    assert blocks[..|blocks|] == blocks;
  }

  /** Erase and remove_if: the pages of a flagged region leave the map, the region leaves the list
      as it is destroyed, and the others close up. */
  method EraseFlagged(regions: seq<Region>, reduceList: seq<nat>, book: set<nat>)
    returns (kept: seq<Region>, list: seq<nat>, pages: set<nat>)
    ensures kept == Flagged(regions, false) && list == RV.Kept(reduceList, FlaggedIds(regions))
    ensures forall x :: x in pages <==> x in book && x !in Pages(Flat(Flagged(regions, true)))
  {
    kept, list, pages := [], reduceList, book;
    ErasingNone(regions, reduceList, book);
    for i := 0 to |regions|
      invariant Erasing(regions, i, reduceList, book, kept, list, pages)
    {
      if regions[i].toFlush {
        ghost var l, p := list, pages;
        pages := DropPages(regions[i].blocks, pages);
        list := RemoveFromList(list, regions[i].id);
        ErasingDropped(regions, i, reduceList, book, kept, l, p, list, pages);
      } else {
        ErasingKept(regions, i, reduceList, book, kept, list, pages);
        kept := kept + [regions[i]];
      }
    }
    assert regions[..|regions|] == regions;
  }

  /** How many more bytes a region must cover to cover the range, in an unsigned int. */
  function ExtensionCost(r: Range, code: Range): nat {
    ((if r.end < code.end then code.end - r.end else 0) + (if r.start > code.start then r.start - code.start else 0)) % WORD32
  }

  const NO_COST: nat := 0xFFFFFFFF

  /** The cost test lets a region be extended to the range. */
  predicate Accepts(regions: seq<Region>, code: Range, fits: (Region, nat) -> bool, i: int) {
    && 0 <= i < |regions| && fits(regions[i], ExtensionCost(regions[i].covered, code))
    && ExtensionCost(regions[i].covered, code) < NO_COST
  }

  /** Of the regions before and behind position m, the cheapest one that may be extended. */
  function Cheapest(regions: seq<Region>, code: Range, fits: (Region, nat) -> bool, m: nat): (best: nat)
    ensures best == |regions| || (best < |regions| && (best == m || best + 1 == m))
  {
    var before, behind := Accepts(regions, code, fits, m - 1), Accepts(regions, code, fits, m);
    if before && (behind ==> CostAt(regions, code, m - 1) <= CostAt(regions, code, m)) then m - 1
    else if behind then m
    else |regions|
  }

  function CostAt(regions: seq<Region>, code: Range, i: int): nat
    requires 0 <= i < |regions|
  {
    ExtensionCost(regions[i].covered, code)
  }

  /** The cheapest of the regions from low to i that may be extended, the first if there are several. */
  ghost predicate BestOf(regions: seq<Region>, code: Range, fits: (Region, nat) -> bool, low: nat, i: nat, best: nat, cost: nat) {
    forall u {:trigger Asked(AChoice, u)} :: Asked(AChoice, u) ==>
      if best < |regions| then
        && low <= best < i && Accepts(regions, code, fits, best) && cost == CostAt(regions, code, best) < NO_COST
        && (forall j :: low <= j < i && Accepts(regions, code, fits, j) ==> cost <= CostAt(regions, code, j))
        && (forall j :: low <= j < best && Accepts(regions, code, fits, j) ==> cost < CostAt(regions, code, j))
      else
        best == |regions| && cost == NO_COST && forall j :: low <= j < i ==> !Accepts(regions, code, fits, j)
  }

  lemma BestNone(regions: seq<Region>, code: Range, fits: (Region, nat) -> bool, low: nat)
    ensures BestOf(regions, code, fits, low, low, |regions|, NO_COST)
  {
  }

  lemma BestNext(regions: seq<Region>, code: Range, fits: (Region, nat) -> bool, low: nat, i: nat, best: nat, cost: nat)
    requires BestOf(regions, code, fits, low, i, best, cost) && low <= i < |regions|
    ensures if fits(regions[i], CostAt(regions, code, i)) && CostAt(regions, code, i) < cost
            then BestOf(regions, code, fits, low, i + 1, i, CostAt(regions, code, i))
            else BestOf(regions, code, fits, low, i + 1, best, cost)
  {
    assert Asked(AChoice, 0);
  }

  lemma BestIs(regions: seq<Region>, code: Range, fits: (Region, nat) -> bool, low: nat, i: nat, best: nat, cost: nat, m: nat)
    requires BestOf(regions, code, fits, low, i, best, cost) && low <= m <= low + 1 && (low == m ==> m == 0)
    requires i == if m < |regions| then m + 1 else |regions|
    ensures best == Cheapest(regions, code, fits, m)
  {
    assert Asked(AChoice, 0);
  }

  /** The placement of a range that overlaps no region and lies at position m. */
  function PlaceFree(regions: seq<Region>, code: Range, fits: (Region, nat) -> bool, m: nat): Placement {
    var best := Cheapest(regions, code, fits, m);
    if best < |regions| then Widen(best, Hull(regions[best].covered, code)) else Insert(m, code)
  }

  /** The addresses a region has to cover more to cover the range. */
  ghost function Growth(r: Range, code: Range): nat { |Points(Hull(r, code)) - Points(r)| }

  lemma HullLeast(r: Range, code: Range)
    requires r.start <= r.end && code.start <= code.end
    ensures Hull(r, code).Contains(r) && Hull(r, code).Contains(code)
    ensures forall h: Range :: h.Contains(r) && h.Contains(code) ==> h.Contains(Hull(r, code))
  {
  }

  /** The cost counts them, in an unsigned int. */
  lemma CostIsGrowth(r: Range, code: Range)
    requires r.start <= r.end && code.start <= code.end
    ensures ExtensionCost(r, code) == Growth(r, code) % WORD32
  {
    var h := Hull(r, code);
    HullLeast(r, code);
    PointsCount(h);
    PointsCount(r);
    assert forall x :: x in Points(r) ==> x in Points(h);
    assert Points(h) == (Points(h) - Points(r)) + Points(r);
    assert |Points(h)| == |Points(h) - Points(r)| + |Points(r)|;
  }

  /** Of the neighbours of a range at position m that the cost test accepts, the cheapest, or the first,
      is widened to the least range over both; without one a region is made for the range. */
  ghost predicate Economical(regions: seq<Region>, code: Range, fits: (Region, nat) -> bool, m: nat, p: Placement) {
    match p
    case Widen(i, h) =>
      && i < |regions| && fits(regions[i], CostAt(regions, code, i)) && CostAt(regions, code, i) < NO_COST
      && (i == m || i == m - 1) && h == Hull(regions[i].covered, code)
      && (forall j :: m - 1 <= j <= m && 0 <= j < |regions| && fits(regions[j], CostAt(regions, code, j)) ==>
            && CostAt(regions, code, i) <= CostAt(regions, code, j)
            && (CostAt(regions, code, i) == CostAt(regions, code, j) ==> i <= j))
    case Insert(at, r) => at == m && r == code && forall j ::
      m - 1 <= j <= m && 0 <= j < |regions| && fits(regions[j], CostAt(regions, code, j)) ==> CostAt(regions, code, j) == NO_COST
    case _ => false
  }

  lemma FreeIsEconomical(regions: seq<Region>, code: Range, fits: (Region, nat) -> bool, m: nat)
    requires m <= |regions|
    ensures Economical(regions, code, fits, m, PlaceFree(regions, code, fits, m))
  {
  }

  /** So the widened region grows by no more addresses than the other neighbour would, if the cost
      test accepts that one too. */
  lemma GrowsLeast(regions: seq<Region>, code: Range, fits: (Region, nat) -> bool, m: nat, i: nat, h: Range, j: nat)
    requires Sorted(Covers(regions)) && code.start < code.end && Economical(regions, code, fits, m, Widen(i, h))
    requires m - 1 <= j <= m && j < |regions| && fits(regions[j], Growth(regions[j].covered, code) % WORD32)
    ensures i < |regions| && Growth(regions[i].covered, code) % WORD32 <= Growth(regions[j].covered, code) % WORD32
  {
    assert Covers(regions)[i] == regions[i].covered && Covers(regions)[j] == regions[j].covered;
    CostIsGrowth(regions[i].covered, code);
    CostIsGrowth(regions[j].covered, code);
    assert fits(regions[j], CostAt(regions, code, j));
  }

  /** The range overlaps region i first and the next one too, and both have too many blocks for one. */
  ghost predicate Unmergeable(regions: seq<Region>, code: Range, i: nat) {
    && FirstOverlap(Covers(regions), code, i) && PlaceOver(Covers(regions), code, i).Fuse?
    && |regions[i].blocks| + |regions[i + 1].blocks| >= WORD16
  }

  function Head(bb: seq<Patch>, n: nat): seq<Patch> { if n <= |bb| then bb[..n] else bb }

  lemma FlatHas(regions: seq<Region>, r: nat)
    requires r < |regions|
    ensures |regions[r].blocks| <= |Flat(regions)| && forall b :: b in regions[r].blocks ==> b in Flat(regions)
  {
    FlatAt(regions, r);
  }

  lemma {:induction false} FlatSame(x: seq<Region>, y: seq<Region>)
    requires |x| == |y| && forall j :: 0 <= j < |x| ==> x[j].blocks == y[j].blocks
    ensures Flat(x) == Flat(y)
  {
    if x != [] {
      FlatSame(x[1..], y[1..]);
    }
  }

  lemma FlatTwoAt(regions: seq<Region>, i: nat)
    requires i + 1 < |regions|
    ensures |regions[i].blocks| + |regions[i + 1].blocks| <= |Flat(regions)|
  {
    FlatAt(regions, i);
    assert Flat(regions[i + 1..]) == regions[i + 1..][0].blocks + Flat(regions[i + 1..][1..]);
  }

  /** The place CreateRegion finds is the one between the regions. */
  lemma CreatedThere(cov: seq<Range>, code: Range, low: nat, m: nat, r: nat)
    requires Sorted(cov) && code.start < code.end && Between(cov, code, m) && low <= r <= |cov| && (low == m || low + 1 == m)
    requires forall k :: low <= k < r ==> cov[k].start <= code.start
    requires r < |cov| ==> code.start < cov[r].start
    ensures r == m
  {
    assert m < |cov| ==> code.start < cov[m].start;
    assert low < m ==> cov[low].start < cov[low].end <= code.start;
  }

  lemma OneUnmergeable(regions: seq<Region>, code: Range, i: nat)
    requires Sorted(Covers(regions)) && FirstOverlap(Covers(regions), code, i)
    ensures forall j :: Unmergeable(regions, code, j) ==> j == i
  {
    FirstOverlapUnique(Covers(regions), code, i);
  }

  lemma NotBetween(cov: seq<Range>, code: Range, i: nat)
    requires FirstOverlap(cov, code, i)
    ensures forall m :: !Between(cov, code, m)
  {
  }

  lemma BetweenUnique(cov: seq<Range>, code: Range, m: nat)
    requires Sorted(cov) && code.start < code.end && Between(cov, code, m)
    ensures forall k: nat :: Between(cov, code, k) ==> k == m
  {
    forall k: nat | Between(cov, code, k)
      ensures k == m
    {
      var t := if k < m then k else m;
      assert t < |cov| ==> cov[t].start < cov[t].end;
    }
  }

  /** The number of regions findRegion looks at, from the one searchRegion found on. */
  function Limit(cov: seq<Range>, code: Range, low: nat): nat {
    if low == 0 && |cov| != 0 && code.start < cov[0].start then 1 else 2
  }

  /** None of the regions before i overlaps the range; folded. */
  ghost predicate Passing(cov: seq<Range>, code: Range, low: nat, i: nat) {
    forall u {:trigger Asked(AWalk, u)} :: Asked(AWalk, u) ==>
      && i <= |cov| && i <= low + Limit(cov, code, low)
      && (forall k :: 0 <= k < i && k < low + Limit(cov, code, low) - 1 ==> cov[k].end <= code.start)
      && (i == low + Limit(cov, code, low) ==> code.end <= cov[i - 1].start)
  }

  lemma PassingNone(cov: seq<Range>, code: Range, low: nat)
    requires Sorted(cov) && Located(cov, code.start, low)
    ensures Passing(cov, code, low, low)
  {
    assert low > 0 ==> forall k :: 0 <= k < low && low < |cov| ==> cov[k].end <= cov[low].start;
  }

  lemma PassingHit(cov: seq<Range>, code: Range, low: nat, i: nat)
    requires Sorted(cov) && code.start < code.end && Located(cov, code.start, low) && Passing(cov, code, low, i)
    requires i < |cov| && i < low + Limit(cov, code, low) && (cov[i].Contains(code) || cov[i].Overlaps(code))
    ensures FirstOverlap(cov, code, i)
  {
    assert Asked(AWalk, 0);
  }

  lemma PassingNext(cov: seq<Range>, code: Range, low: nat, i: nat)
    requires Sorted(cov) && code.start < code.end && Located(cov, code.start, low) && Passing(cov, code, low, i)
    requires low <= i < |cov| && i < low + Limit(cov, code, low) && !cov[i].Overlaps(code)
    ensures Passing(cov, code, low, i + 1)
  {
    assert Asked(AWalk, 0);
  }

  lemma PassingAll(cov: seq<Range>, code: Range, low: nat, i: nat)
    requires Sorted(cov) && Located(cov, code.start, low) && Passing(cov, code, low, i)
    requires low <= i && (i == |cov| || i == low + Limit(cov, code, low))
    ensures Between(cov, code, if |cov| == 0 then 0 else low + Limit(cov, code, low) - 1)
  {
    assert Asked(AWalk, 0);
    var m := if |cov| == 0 then 0 else low + Limit(cov, code, low) - 1;
    assert m < |cov| ==> forall k :: m < k < |cov| ==> cov[m].end <= cov[k].start;
  }

  function Hull(r: Range, code: Range): Range {
    var e := if r.end < code.end then r.SetEnd(code.end) else r;
    if e.start > code.start then e.SetStart(code.start) else e
  }

  method ShiftSequences(r: Region, q: Region) returns (cache: map<Key, SeqLoc>)
    ensures cache == MergedSeqs(r, q)
  {
    cache := r.sequenceCache;
    var todo := q.sequenceCache.Keys;
    while todo != {}
      invariant todo <= q.sequenceCache.Keys
      invariant cache == r.sequenceCache + map k | k in q.sequenceCache.Keys - todo :: ShiftSeq(q.sequenceCache[k], |r.blocks|)
      decreases todo
    {
      var k :| k in todo;
      cache := cache[k := ShiftSeq(q.sequenceCache[k], |r.blocks|)];
      todo := todo - {k};
    }
  }

  method ShiftInstructions(r: Region, q: Region) returns (cache: map<Key, InstLoc>)
    ensures cache == MergedInsts(r, q)
  {
    cache := r.instCache;
    var todo := q.instCache.Keys;
    while todo != {}
      invariant todo <= q.instCache.Keys
      invariant cache == r.instCache + map k | k in q.instCache.Keys - todo :: ShiftInst(q.instCache[k], |r.blocks|)
      decreases todo
    {
      var k :| k in todo;
      cache := cache[k := ShiftInst(q.instCache[k], |r.blocks|)];
      todo := todo - {k};
    }
  }

  /** The destructor of a region takes its node out of the list. */
  method RemoveFromList(list: seq<nat>, id: nat) returns (r: seq<nat>)
    ensures r == RV.Kept(list, {id})
  {
    r := [];
    for i := 0 to |list|
      invariant r == RV.Kept(list[..i], {id})
    {
      assert list[..i + 1] == list[..i] + [list[i]];
      RV.KeptSnoc(list[..i], list[i], {id});
      if list[i] != id {
        r := r + [list[i]];
      }
    }
    assert list[..|list|] == list;
  }
}
