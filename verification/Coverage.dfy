/** When findRegion always covers the whole basic block: for code without overlapping decodings.
    Regions end where basic blocks end, so a basic block never runs past a region it overlaps. */
module Coverage {
  import opened Ranges
  import opened Guest
  import opened Blocks
  import opened Programs
  import opened Caches
  import opened Placements
  import opened RegionLists
  import opened BlockWrites
  import opened Lookups

  /** No byte belongs to two decodable instructions. */
  ghost predicate Apart(prog: Program) {
    forall k, l :: k in prog.insns && l in prog.insns && k != l ==> prog.insns[k].End() <= l.address || prog.insns[l].End() <= k.address
  }

  /** Code of aligned instructions of four bytes in one mode, such as that of AArch64, is like that. */
  lemma AlignedApart(prog: Program)
    requires ProgramOk(prog)
    requires forall k :: k in prog.insns ==> k.mode == Default && k.address % 4 == 0 && prog.insns[k].size == 4
    ensures Apart(prog)
  {
    forall k, l | k in prog.insns && l in prog.insns && k != l
      ensures prog.insns[k].End() <= l.address || prog.insns[l].End() <= k.address
    {
      FourApart(k.address, l.address);
      assert prog.insns[k].End() == k.address + 4 && prog.insns[l].End() == l.address + 4;
    }
  }

  lemma FourApart(a: nat, b: nat)
    requires a % 4 == 0 && b % 4 == 0 && a != b
    ensures a + 4 <= b || b + 4 <= a
  {
  }

  /** An instruction of the basic block has each of its bytes. */
  lemma {:induction false} ByteOf(prog: Program, bb: seq<Patch>, n: nat, a: int) returns (i: nat)
    requires ProgramOk(prog) && Chain(prog, bb) && n < |bb|
    requires bb[0].insn.key.address <= a < bb[n].insn.End()
    ensures i <= n && bb[i].insn.key.address <= a < bb[i].insn.End()
  {
    if bb[n].insn.key.address <= a {
      return n;
    }
    ChainStep(prog, bb, n - 1);
    i := ByteOf(prog, bb, n - 1, a);
  }

  /** A basic block that goes past the end of another one starts behind it. */
  lemma EndInside(prog: Program, bb: seq<Patch>, e: int)
    requires ProgramOk(prog) && Apart(prog) && IsBasicBlock(prog, bb) && EndsBlock(prog, e)
    ensures !(BlockRange(bb).start < e < BlockRange(bb).end)
  {
    if BlockRange(bb).start < e < BlockRange(bb).end {
      var k :| k in prog.insns && !Continues(prog, prog.insns[k]) && prog.insns[k].End() == e;
      assert k.address < e;
      var i := ByteOf(prog, bb, |bb| - 1, e - 1);
      assert bb[i].insn.key == k;
      if i + 1 < |bb| {
        ChainStep(prog, bb, i);
      }
    }
  }

  /** Without overlapping decodings no basic block is overlong, however often it is placed. */
  lemma NeverOverlong(prog: Program, regions: seq<Region>, bb: seq<Patch>)
    requires ProgramOk(prog) && Apart(prog) && CacheOk(prog, regions) && IsBasicBlock(prog, bb)
    ensures !Overlong(Covers(regions), BlockRange(bb), bb[|bb| - 1].insn.key.address)
    ensures !OverlongTwice(Covers(regions), BlockRange(bb), bb[|bb| - 1].insn.key.address)
  {
    var cov, code := Covers(regions), BlockRange(bb);
    forall j | 0 <= j < |cov| && cov[j].Overlaps(code)
      ensures code.end <= cov[j].end
    {
      GoodOne(prog, regions, j);
      EndInside(prog, bb, cov[j].end);
    }
  }

  /** findRegion, called twice, cannot make one region cover the basic block at the instruction. */
  ghost predicate Gap(prog: Program, regions: seq<Region>, k: Key)
    requires ProgramOk(prog) && k in prog.insns
  {
    OverlongTwice(Covers(regions), Range.Make(k.address, BlockEnd(prog, k)), LastKey(prog, k).address)
  }

  lemma GapIs(prog: Program, regions: seq<Region>, bb: seq<Patch>)
    requires ProgramOk(prog) && IsBasicBlock(prog, bb)
    ensures Gap(prog, regions, bb[0].insn.key)
            <==> OverlongTwice(Covers(regions), BlockRange(bb), bb[|bb| - 1].insn.key.address)
  {
    BasicBlockEnd(prog, bb, 0);
    BasicBlockLast(prog, bb, 0);
  }
}
