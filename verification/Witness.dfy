/** A program with overlapping decodings, and caches in which findRegion falls short of it
    (src/ExecBlock/ExecBlockManager.cpp). */
module Witnesses {
  import opened Ranges
  import opened Guest
  import opened Blocks
  import opened Programs
  import opened Caches
  import opened Placements
  import opened RegionLists
  import opened BlockWrites
  import opened BasicBlocks
  import opened Coverage
  import opened Managers

  /** Three one-byte returns inside the bytes of a ten-byte instruction, which is followed by a
      five-byte return. */
  const OVERLAPPING: Program := Program(map[
    Key(0, Default) := Insn(Key(0, Default), 10, false, {}),
    Key(2, Default) := Insn(Key(2, Default), 1, true, {}),
    Key(5, Default) := Insn(Key(5, Default), 1, true, {}),
    Key(8, Default) := Insn(Key(8, Default), 1, true, {}),
    Key(10, Default) := Insn(Key(10, Default), 5, true, {})], [])

  lemma OverlappingOk()
    ensures ProgramOk(OVERLAPPING)
  {
  }

  // ------------------------------------------------------------------------
  // Regions that hold one instruction
  // ------------------------------------------------------------------------

  /** One instruction of four bytes between the two markers every patch has. */
  const ITEMS: seq<Item> := [Tag(TAG_PATCH_BEGIN), Code([0, 0, 0, 0], NoShadow), Tag(TAG_INST_END)]

  function PatchAt(prog: Program, a: nat): Patch
    requires Key(a, Default) in prog.insns
  {
    Patch(prog.insns[Key(a, Default)], ITEMS, {}, {}, [])
  }

  lemma ItemsAre()
    ensures Bytes(ITEMS) == [0, 0, 0, 0] && CountTags(ITEMS) == 2
    ensures CountTag(ITEMS, TAG_PATCH_BEGIN) == 1 && CountTag(ITEMS, TAG_INST_END) == 1
    ensures TagsAt(ITEMS, 0) == [TagInfo(TAG_PATCH_BEGIN, 0), TagInfo(TAG_INST_END, 4)]
    ensures ShadowsAt(ITEMS, 0, 0) == []
  {
    var code, end := ITEMS[1..], ITEMS[2..];
    assert code[1..] == end && end[1..] == [];
    assert Bytes(end) == Bytes([]) == [] && CountTags(end) == 1 + CountTags([]) == 1;
    assert CountTag(end, TAG_PATCH_BEGIN) == CountTag([], TAG_PATCH_BEGIN) == 0;
    assert CountTag(end, TAG_INST_END) == 1 + CountTag([], TAG_INST_END) == 1;
    assert TagsAt(end, 4) == [TagInfo(TAG_INST_END, 4)] + TagsAt([], 4) && TagsAt(code, 0) == TagsAt(end, 4);
    assert ShadowsAt(code, 0, 0) == ShadowsAt(end, 0, 0) == ShadowsAt([], 0, 0) == [];
  }

  lemma EndMarked()
    ensures WithTag(TagsAt(ITEMS, 0), TAG_INST_END) == [TagInfo(TAG_INST_END, 4)]
  {
    ItemsAre();
    var tags := TagsAt(ITEMS, 0);
    assert WithTag(tags[1..], TAG_INST_END) == [tags[1]] + WithTag(tags[1..][1..], TAG_INST_END) && tags[1..][1..] == [];
  }

  /** A page with the patch at its start and its tail behind it. */
  function PageWith(prog: Program, a: nat): Block
    requires Key(a, Default) in prog.insns
  {
    var tail := TailOf(prog.insns[Key(a, Default)]);
    Block(a, [0, 0, 0, 0] + tail + seq(48, i => 0), 4 + |tail|, 48, 8, [],
          [TagInfo(TAG_PATCH_BEGIN, 0), TagInfo(TAG_INST_END, 4)], 0,
          [PatchAt(prog, a)], [InstInfo(0, 0, 4, 0, 0, 0, 2, 0)], [SeqInfo(0, 0, Default, 0)], false)
  }

  function TailOf(x: Insn): seq<int> { TailBytes(!x.modifiesPC, x.End(), 0) }

  lemma TailIs(x: Insn)
    ensures |TailOf(x)| == if x.modifiesPC then 4 else 12
  {
    var first, jump := Terminator(x.End(), 0), JmpEpilogue();
    assert Bytes(jump) == jump[0].bytes + Bytes(jump[1..]) && jump[1..] == [];
    assert Bytes(first) == first[0].bytes + Bytes(first[1..]);
    assert Bytes(first[1..]) == first[1].bytes + Bytes(first[1..][1..]) && first[1..][1..] == [];
  }

  lemma PageValid(prog: Program, a: nat)
    requires Key(a, Default) in prog.insns
    ensures BlockValid(PageWith(prog, a))
  {
    var b, tail := PageWith(prog, a), TailOf(prog.insns[Key(a, Default)]);
    ItemsAre();
    TailIs(prog.insns[Key(a, Default)]);
    assert b.page[0..4] == [0, 0, 0, 0];
    assert InstLaid(b, 0);
    assert b.tagRegistry[0..2] == b.tagRegistry && b.shadowRegistry[0..0] == [];
    EndMarked();
    assert InstMarked(b, 0);
    assert SequenceOk(b, 0);
    BodyIs(b);
    assert b.page[4..4 + |tail|] == tail;
    assert EndOf(b, 0) == 4 && HasBytes(b, 4, tail);
    WovenIs(b);
  }

  /** The region of an instruction that was executed on its own. */
  function Holding(prog: Program, a: nat): Region
    requires Key(a, Default) in prog.insns
  {
    var x := prog.insns[Key(a, Default)];
    Region(a, Range(a, x.End()), [PageWith(prog, a)],
           map[x.key := SeqLoc(0, 0, x.End(), a, x.End())], map[x.key := InstLoc(0, 0)], false)
  }

  ghost predicate Alone(prog: Program, a: nat) {
    Key(a, Default) in prog.insns && !Continues(prog, prog.insns[Key(a, Default)])
  }

  lemma HoldingGood(prog: Program, a: nat)
    requires ProgramOk(prog) && Alone(prog, a)
    ensures Good(prog, Holding(prog, a))
  {
    var r, k := Holding(prog, a), Key(a, Default);
    HoldingIndexed(prog, a);
    PageValid(prog, a);
    assert ValidAt(r.blocks, 0);
    assert ClosedAt(prog, r.instCache, k);
  }

  lemma HoldingIndexed(prog: Program, a: nat)
    requires ProgramOk(prog) && Alone(prog, a)
    ensures Indexed(prog, Holding(prog, a))
  {
    var r, k := Holding(prog, a), Key(a, Default);
    assert SequenceOk(r.blocks[0], 0);
    assert InstListed(r.blocks, r.instCache, 0, 0) && SeqListed(r.blocks, r.sequenceCache, 0, 0);
    assert SeqHas(prog, r.blocks, r.sequenceCache[k], k);
  }

  /** A return of the overlapping program in a region of its own. */
  function Return(a: nat): Region
    requires Key(a, Default) in OVERLAPPING.insns
  {
    Holding(OVERLAPPING, a)
  }

  lemma ThreeGood(a: nat, b: nat, c: nat)
    requires Alone(OVERLAPPING, a) && Alone(OVERLAPPING, b) && Alone(OVERLAPPING, c)
    requires OVERLAPPING.insns[Key(a, Default)].End() <= b && OVERLAPPING.insns[Key(b, Default)].End() <= c
    ensures ProgramOk(OVERLAPPING) && CacheOk(OVERLAPPING, [Return(a), Return(b), Return(c)])
  {
    OverlappingOk();
    HoldingGood(OVERLAPPING, a);
    HoldingGood(OVERLAPPING, b);
    HoldingGood(OVERLAPPING, c);
    ThreeTogether(OVERLAPPING, Return(a), Return(b), Return(c));
  }

  lemma ThreeTogether(prog: Program, x: Region, y: Region, z: Region)
    requires ProgramOk(prog) && Good(prog, x) && Good(prog, y) && Good(prog, z)
    requires x.covered.start < x.covered.end <= y.covered.start < y.covered.end <= z.covered.start < z.covered.end
    ensures CacheOk(prog, [x, y, z])
  {
    var regions := [x, y, z];
    forall i | 0 <= i < |regions|
      ensures GoodAt(prog, regions, i)
    {
      assert regions[i] == x || regions[i] == y || regions[i] == z;
    }
  }

  // ------------------------------------------------------------------------
  // The basic block at 0
  // ------------------------------------------------------------------------

  function Long(): seq<Patch> { [PatchAt(OVERLAPPING, 0), PatchAt(OVERLAPPING, 10)] }

  lemma LongIsBlock()
    ensures IsBasicBlock(OVERLAPPING, Long()) && BlockRange(Long()) == Range(0, 15)
  {
    var long := Long();
    forall i, j | 0 <= i < j < |long| && j == i + 1
      ensures Successor(OVERLAPPING, long[i].insn, long[j].insn)
    {
    }
  }

  /** With the three returns cached in regions of their own the cache is in order, and neither of
      two calls of findRegion covers the last instruction of the basic block at 0. */
  lemma GapReached()
    ensures ProgramOk(OVERLAPPING) && CacheOk(OVERLAPPING, [Return(2), Return(5), Return(8)])
    ensures Gap(OVERLAPPING, [Return(2), Return(5), Return(8)], Key(0, Default))
  {
    var regions := [Return(2), Return(5), Return(8)];
    ThreeGood(2, 5, 8);
    LongIsBlock();
    GapIs(OVERLAPPING, regions, Long());
    var cov := Covers(regions);
    assert cov == [Range(2, 3), Range(5, 6), Range(8, 9)];
    assert FirstOverlap(cov, Range(0, 15), 0) && OverlongTwiceAt(cov, Range(0, 15), 0, 10);
  }

  /** findRegion makes these regions one after the other, if the cost test refuses to extend the one
      before. */
  lemma GapReachable(fits: (Region, nat) -> bool)
    requires !fits(Return(2), 3) && !fits(Return(5), 3)
    ensures Between(Covers([]), Range(2, 3), 0) && PlaceFree([], Range(2, 3), fits, 0) == Insert(0, Range(2, 3))
    ensures Between(Covers([Return(2)]), Range(5, 6), 1)
    ensures PlaceFree([Return(2)], Range(5, 6), fits, 1) == Insert(1, Range(5, 6))
    ensures Between(Covers([Return(2), Return(5)]), Range(8, 9), 2)
    ensures PlaceFree([Return(2), Return(5)], Range(8, 9), fits, 2) == Insert(2, Range(8, 9))
  {
  }

  // ------------------------------------------------------------------------
  // The cost test
  // ------------------------------------------------------------------------

  /** The cost test of findRegion: a region has `available` bytes left on its first page, and code
      grows by the expansion ratio when it is translated. */
  predicate CostTest(available: nat, ratio: real, cost: nat) {
    cost < available && (cost == 0 || ratio < available as real / cost as real)
  }

  /** It refuses when the bytes, or the bytes they would be translated to, are not available. */
  lemma CostRefuses(available: nat, ratio: real, cost: nat)
    ensures !CostTest(available, ratio, cost) <==> available <= cost || (cost > 0 && available as real <= ratio * cost as real)
  {
    if cost > 0 {
      var a, c := available as real, cost as real;
      assert a / c * c == a;
      if ratio < a / c {
        Scale(ratio, a / c, c);
      } else {
        ScaleBack(a / c, ratio, c);
      }
    }
  }

  /** So code that grows to a third of the bytes left on a page, byte by byte, leads to the gap. */
  lemma GapByCost(available: nat -> nat, ratio: real)
    requires available(2) as real <= 3.0 * ratio && available(5) as real <= 3.0 * ratio
    ensures var fits := (r: Region, cost: nat) => CostTest(available(r.id), ratio, cost);
            && PlaceFree([], Range(2, 3), fits, 0) == Insert(0, Range(2, 3))
            && PlaceFree([Return(2)], Range(5, 6), fits, 1) == Insert(1, Range(5, 6))
            && PlaceFree([Return(2), Return(5)], Range(8, 9), fits, 2) == Insert(2, Range(8, 9))
  {
    var fits := (r: Region, cost: nat) => CostTest(available(r.id), ratio, cost);
    CostRefuses(available(2), ratio, 3);
    CostRefuses(available(5), ratio, 3);
    GapReachable(fits);
  }

  lemma Scale(x: real, y: real, c: real)
    requires x < y && 0.0 < c
    ensures x * c < y * c
  {
  }

  lemma ScaleBack(x: real, y: real, c: real)
    requires x <= y && 0.0 < c
    ensures x * c <= y * c
  {
  }

  // ------------------------------------------------------------------------
  // The second trim
  // ------------------------------------------------------------------------

  /** With a return cached in the third region, preWriteBasicBlock finds no cached instruction of the
      basic block at 0, and writeBasicBlock finds its last one. */
  lemma RetrimReached()
    ensures ProgramOk(OVERLAPPING) && CacheOk(OVERLAPPING, [Return(2), Return(5), Return(10)])
    ensures IsBasicBlock(OVERLAPPING, Long()) && ThirdHolds([Return(2), Return(5), Return(10)], Long())
    ensures HeldFrom([Return(2), Return(5), Return(10)], Long(), 2)
  {
    var regions, long := [Return(2), Return(5), Return(10)], Long();
    ThreeGood(2, 5, 10);
    LongIsBlock();
    var cov := Covers(regions);
    assert cov == [Range(2, 3), Range(5, 6), Range(10, 15)];
    assert FirstOverlap(cov, Range(0, 15), 0) && ThirdHoldsAt(regions, long, 0);
    forall j | 0 <= j < |long|
      ensures !Held(regions, Range(0, 15), long[j].insn.key)
    {
      HeldOver(regions, Range(0, 15), long[j].insn.key, 0);
    }
  }

  // ------------------------------------------------------------------------
  // Instrumented ranges
  // ------------------------------------------------------------------------

  /** Two instructions and a return; the second instruction is instrumented alone. */
  const STRAIGHT: Program := Program(map[
    Key(0, Default) := Insn(Key(0, Default), 4, false, {}),
    Key(4, Default) := Insn(Key(4, Default), 4, false, {}),
    Key(8, Default) := Insn(Key(8, Default), 4, true, {})], [Range(4, 8)])

  lemma StraightOk()
    ensures ProgramOk(STRAIGHT) && Canonical(STRAIGHT.ranges)
    ensures DecodeLimit(STRAIGHT.ranges, 0) == WORD && DecodeLimit(STRAIGHT.ranges, 4) == 8
    ensures NextKey(STRAIGHT.insns[Key(0, Default)]) == Key(4, Default)
    ensures NextKey(STRAIGHT.insns[Key(4, Default)]) == Key(8, Default)
  {
    assert DecodeLimit(STRAIGHT.ranges[1..], 0) == WORD;
  }

  /** The basic block at the second instruction ends in front of the return. The one at the first
      instruction, which is in no range, goes on to the return. */
  lemma RangeBreaks()
    ensures ProgramOk(STRAIGHT) && Canonical(STRAIGHT.ranges) && Crosses(STRAIGHT, Key(0, Default), Key(4, Default))
    ensures DecodedEnd(STRAIGHT, Key(4, Default)) == 8 && DecodedEnd(STRAIGHT, Key(0, Default)) == 12
    ensures InPatch(STRAIGHT, Key(0, Default), Key(4, Default)) && InPatch(STRAIGHT, Key(0, Default), Key(8, Default))
  {
    var k0, k4, k8 := Key(0, Default), Key(4, Default), Key(8, Default);
    StraightOk();
    assert EndWithin(STRAIGHT, k8, WORD) == 12 && EndWithin(STRAIGHT, k4, WORD) == 12;
    assert Reaches(STRAIGHT, k4, k4, WORD) && Reaches(STRAIGHT, k0, k4, WORD);
    ReachesNext(STRAIGHT, k0, k4, WORD);
  }

  /** So when the second instruction is cached, the cache is in order, and the trim of the basic block
      at the first instruction does not see it: the return behind it is not cached. */
  lemma TrimMisses()
    ensures ProgramOk(STRAIGHT) && CacheOk(STRAIGHT, [Holding(STRAIGHT, 4)])
    ensures var bb := [PatchAt(STRAIGHT, 0), PatchAt(STRAIGHT, 4), PatchAt(STRAIGHT, 8)];
            var cached := Holding(STRAIGHT, 4).instCache;
            BlockWrites.Trimmed(cached, bb, 3) && bb[1].insn.key in cached
  {
    StraightOk();
    HoldingGood(STRAIGHT, 4);
    var regions := [Holding(STRAIGHT, 4)];
    assert GoodAt(STRAIGHT, regions, 0);
  }
}
