/** Regions of the translation cache and their indexes (src/ExecBlock/ExecBlockManager.h). */
module Caches {
  import opened Ranges
  import opened Guest
  import opened Blocks
  import opened Programs

  datatype InstLoc = InstLoc(blockIdx: nat, instID: nat)

  datatype SeqLoc = SeqLoc(blockIdx: nat, seqID: nat, bbEnd: nat, seqStart: nat, seqEnd: nat)

  /** `id` tells regions apart when they move in the vector. */
  datatype Region = Region(id: nat, covered: Range, blocks: seq<Block>,
                           sequenceCache: map<Key, SeqLoc>, instCache: map<Key, InstLoc>, toFlush: bool)

  // ------------------------------------------------------------------------
  // Blocks
  // ------------------------------------------------------------------------

  ghost predicate Shaped(b: Block) { |b.insts| == |b.patches| && Sequenced(b) }

  /** The instructions of a block are those of the program, in order within a sequence. */
  ghost predicate Decoded(prog: Program, b: Block)
    requires |b.insts| == |b.patches|
  {
    && (forall i :: 0 <= i < |b.patches| ==> b.patches[i].insn.key in prog.insns && prog.insns[b.patches[i].insn.key] == b.patches[i].insn)
    && (forall i, j :: 0 <= i < j < |b.patches| && j == i + 1 && b.insts[i].seqID == b.insts[j].seqID ==>
          Successor(prog, b.patches[i].insn, b.patches[j].insn))
  }

  /** The instructions of a sequence, written or split off, form a chain. */
  lemma SequenceChain(prog: Program, b: Block, s: nat)
    requires Shaped(b) && Decoded(prog, b) && s < |b.seqs|
    ensures b.seqs[s].startInstID <= b.seqs[s].endInstID < |b.patches|
    ensures Chain(prog, b.patches[b.seqs[s].startInstID..b.seqs[s].endInstID + 1])
  {
    assert SequenceOk(b, s);
    var q := b.seqs[s];
    var part := b.patches[q.startInstID..q.endInstID + 1];
    forall i, j | 0 <= i < j < |part| && j == i + 1
      ensures Successor(prog, part[i].insn, part[j].insn)
    {
      var i', j' := q.startInstID + i, q.startInstID + j;
      assert b.insts[i'].seqID == b.insts[j'].seqID;
      assert part[i] == b.patches[i'] && part[j] == b.patches[j'];
    }
  }

  /** An instruction, the start and the end of the sequence it was written with. */
  lemma {:induction false} OwnSequence(prog: Program, b: Block, i: nat)
    requires ProgramOk(prog) && Shaped(b) && Decoded(prog, b) && i < |b.patches|
    ensures b.insts[i].seqID < |b.seqs|
    ensures var q := b.seqs[b.insts[i].seqID];
            && q.startInstID <= i <= q.endInstID < |b.patches|
            && b.patches[q.startInstID].insn.key.mode == b.patches[i].insn.key.mode
            && b.patches[q.startInstID].insn.key in prog.insns && b.patches[i].insn.key in prog.insns
            && BlockEnd(prog, b.patches[q.startInstID].insn.key) == BlockEnd(prog, b.patches[i].insn.key)
  {
    var o := b.insts[i].seqID;
    SequenceChain(prog, b, o);
    var q := b.seqs[o];
    var part := b.patches[q.startInstID..q.endInstID + 1];
    assert part[0] == b.patches[q.startInstID] && part[i - q.startInstID] == b.patches[i];
    ChainEnd(prog, part, 0, i - q.startInstID);
    if q.startInstID < i {
      ChainGrows(prog, part, 0, i - q.startInstID);
    }
  }

  // ------------------------------------------------------------------------
  // Indexes of a region
  // ------------------------------------------------------------------------

  ghost predicate AllShaped(blocks: seq<Block>) {
    forall b :: 0 <= b < |blocks| ==> Shaped(blocks[b])
  }

  ghost predicate AllDecoded(prog: Program, blocks: seq<Block>)
    requires AllShaped(blocks)
  {
    forall b :: 0 <= b < |blocks| ==> Decoded(prog, blocks[b])
  }

  ghost predicate InstHas(blocks: seq<Block>, l: InstLoc, k: Key) {
    l.blockIdx < |blocks| && l.instID < |blocks[l.blockIdx].patches| && blocks[l.blockIdx].patches[l.instID].insn.key == k
  }

  /** instCache lists every instruction of the region, each at its one place. */
  ghost predicate InstsIndexed(blocks: seq<Block>, instCache: map<Key, InstLoc>) {
    InstEntriesRight(blocks, instCache) && InstsListed(blocks, instCache)
  }

  ghost predicate InstEntriesRight(blocks: seq<Block>, instCache: map<Key, InstLoc>) {
    forall k :: k in instCache ==> InstHas(blocks, instCache[k], k)
  }

  ghost predicate InstsListed(blocks: seq<Block>, instCache: map<Key, InstLoc>) {
    forall b, i :: 0 <= b < |blocks| && 0 <= i < |blocks[b].patches| ==> InstListed(blocks, instCache, b, i)
  }

  ghost predicate InstListed(blocks: seq<Block>, instCache: map<Key, InstLoc>, b: nat, i: nat)
    requires b < |blocks| && i < |blocks[b].patches|
  {
    var k := blocks[b].patches[i].insn.key;
    k in instCache && instCache[k] == InstLoc(b, i)
  }

  ghost function StartInsn(b: Block, s: nat): Insn
    requires Shaped(b) && s < |b.seqs|
  {
    assert SequenceOk(b, s);
    b.patches[b.seqs[s].startInstID].insn
  }

  ghost function EndInsn(b: Block, s: nat): Insn
    requires Shaped(b) && s < |b.seqs|
  {
    assert SequenceOk(b, s);
    b.patches[b.seqs[s].endInstID].insn
  }

  /** The code of a sequence. */
  function SequenceCode(b: Block, s: nat): seq<Patch>
    requires s < |b.seqs| && b.seqs[s].startInstID <= b.seqs[s].endInstID < |b.patches|
  {
    b.patches[b.seqs[s].startInstID..b.seqs[s].endInstID + 1]
  }

  /** The block has the code as a sequence. */
  ghost predicate SequenceIs(blocks: seq<Block>, l: SeqLoc, code: seq<Patch>) {
    && l.blockIdx < |blocks|
    && var b := blocks[l.blockIdx];
       && l.seqID < |b.seqs| && b.seqs[l.seqID].startInstID <= b.seqs[l.seqID].endInstID < |b.patches|
       && SequenceCode(b, l.seqID) == code
  }

  /** A sequence of the region and the addresses its descriptor must hold. */
  ghost predicate SeqHas(prog: Program, blocks: seq<Block>, l: SeqLoc, k: Key)
    requires ProgramOk(prog) && AllShaped(blocks)
  {
    && l.blockIdx < |blocks| && l.seqID < |blocks[l.blockIdx].seqs|
    && StartInsn(blocks[l.blockIdx], l.seqID).key == k
    && l.seqStart == k.address && l.seqEnd == EndInsn(blocks[l.blockIdx], l.seqID).End()
    && k in prog.insns && l.bbEnd == BlockEnd(prog, k)
  }

  /** sequenceCache lists every sequence of the region under the instruction it starts with. */
  ghost predicate SeqsIndexed(prog: Program, blocks: seq<Block>, sequenceCache: map<Key, SeqLoc>)
    requires ProgramOk(prog) && AllShaped(blocks)
  {
    SeqEntriesRight(prog, blocks, sequenceCache) && SeqsListed(blocks, sequenceCache)
  }

  ghost predicate SeqEntriesRight(prog: Program, blocks: seq<Block>, sequenceCache: map<Key, SeqLoc>)
    requires ProgramOk(prog) && AllShaped(blocks)
  {
    forall k :: k in sequenceCache ==> SeqHas(prog, blocks, sequenceCache[k], k)
  }

  ghost predicate SeqsListed(blocks: seq<Block>, sequenceCache: map<Key, SeqLoc>)
    requires AllShaped(blocks)
  {
    forall b, s :: 0 <= b < |blocks| && 0 <= s < |blocks[b].seqs| ==> SeqListed(blocks, sequenceCache, b, s)
  }

  ghost predicate SeqListed(blocks: seq<Block>, sequenceCache: map<Key, SeqLoc>, b: nat, s: nat)
    requires AllShaped(blocks) && b < |blocks| && s < |blocks[b].seqs|
  {
    var k := StartInsn(blocks[b], s).key;
    k in sequenceCache && sequenceCache[k].blockIdx == b && sequenceCache[k].seqID == s
  }

  /** With an instruction, its basic block is cached to the end. */
  ghost predicate Closed(prog: Program, instCache: map<Key, InstLoc>) {
    forall k {:trigger ClosedAt(prog, instCache, k)} :: k in instCache ==> ClosedAt(prog, instCache, k)
  }

  ghost predicate ClosedAt(prog: Program, instCache: map<Key, InstLoc>, k: Key) {
    k in prog.insns && Continues(prog, prog.insns[k]) ==> NextKey(prog.insns[k]) in instCache
  }

  ghost predicate Covered(r: Region) {
    forall k :: k in r.instCache ==> r.covered.Has(k.address)
  }

  /** Both indexes of the region agree with its blocks. */
  ghost predicate Indexed(prog: Program, r: Region)
    requires ProgramOk(prog)
  {
    && AllShaped(r.blocks) && AllDecoded(prog, r.blocks)
    && InstsIndexed(r.blocks, r.instCache)
    && SeqsIndexed(prog, r.blocks, r.sequenceCache)
    && |r.blocks| <= WORD16
  }

  /** What holds of every region between two operations of the manager. */
  ghost predicate RegionOk(prog: Program, r: Region)
    requires ProgramOk(prog)
  {
    Indexed(prog, r) && Closed(prog, r.instCache)
  }

  // ------------------------------------------------------------------------
  // Splitting a sequence
  // ------------------------------------------------------------------------

  /** The block after splitSequence(i). */
  function SplitBlock(b: Block, i: nat): Block
    requires i < |b.insts| && b.insts[i].seqID < |b.seqs|
  {
    var q := b.seqs[b.insts[i].seqID];
    b.(seqs := b.seqs + [SeqInfo(i, q.endInstID, q.mode, b.insts[i].sr)])
  }

  lemma SplitShaped(b: Block, i: nat)
    requires Shaped(b) && i < |b.insts|
    ensures b.insts[i].seqID < |b.seqs| && Shaped(SplitBlock(b, i))
  {
    var c := SplitBlock(b, i);
    var o := b.insts[i].seqID;
    assert SequenceOk(b, o);
    forall s | 0 <= s < |c.seqs|
      ensures SequenceOk(c, s)
    {
      if s < |b.seqs| {
        assert SequenceOk(b, s);
        assert c.seqs[s] == b.seqs[s];
      } else {
        assert b.insts[i].seqID == b.insts[b.seqs[o].startInstID].seqID;
      }
    }
  }

  /** Splitting keeps all sequences and adds the suffix from i on, with the same end. */
  lemma SplitEnds(b: Block, i: nat, s: nat)
    requires Shaped(b) && i < |b.insts| && s <= |b.seqs|
    ensures b.insts[i].seqID < |b.seqs| && Shaped(SplitBlock(b, i))
    ensures s < |b.seqs| ==> StartInsn(SplitBlock(b, i), s) == StartInsn(b, s) && EndInsn(SplitBlock(b, i), s) == EndInsn(b, s)
    ensures s == |b.seqs| ==> StartInsn(SplitBlock(b, i), s) == b.patches[i].insn
                              && EndInsn(SplitBlock(b, i), s) == EndInsn(b, b.insts[i].seqID)
  {
    SplitShaped(b, i);
    var c := SplitBlock(b, i);
    assert s < |b.seqs| ==> c.seqs[s] == b.seqs[s];
  }

  /** The entry getProgrammedExecBlock looks up for the sequence an instruction was written
      with: it is always there, under the mode of the instruction. */
  lemma {:induction false} OwnEntry(prog: Program, blocks: seq<Block>, sequenceCache: map<Key, SeqLoc>, b: nat, i: nat)
    requires ProgramOk(prog) && AllShaped(blocks) && AllDecoded(prog, blocks) && SeqsIndexed(prog, blocks, sequenceCache)
    requires b < |blocks| && i < |blocks[b].patches|
    ensures blocks[b].insts[i].seqID < |blocks[b].seqs|
    ensures var o := blocks[b].insts[i].seqID;
            var k := blocks[b].patches[i].insn.key;
            var start := Key(StartInsn(blocks[b], o).key.address, k.mode);
            && start in sequenceCache && k in prog.insns
            && sequenceCache[start].seqEnd == EndInsn(blocks[b], o).End()
            && sequenceCache[start].bbEnd == BlockEnd(prog, k)
  {
    OwnSequence(prog, blocks[b], i);
    var o := blocks[b].insts[i].seqID;
    var start := StartInsn(blocks[b], o).key;
    assert SeqListed(blocks, sequenceCache, b, o);
    assert SeqHas(prog, blocks, sequenceCache[start], start);
  }

  lemma SplitBlocks(prog: Program, blocks: seq<Block>, instCache: map<Key, InstLoc>, b: nat, i: nat)
    requires AllShaped(blocks) && AllDecoded(prog, blocks) && InstsIndexed(blocks, instCache)
    requires b < |blocks| && i < |blocks[b].patches|
    ensures blocks[b].insts[i].seqID < |blocks[b].seqs|
    ensures var blocks' := blocks[b := SplitBlock(blocks[b], i)];
            AllShaped(blocks') && AllDecoded(prog, blocks') && InstsIndexed(blocks', instCache)
  {
    SplitShaped(blocks[b], i);
    var blocks' := blocks[b := SplitBlock(blocks[b], i)];
    assert forall c :: 0 <= c < |blocks| ==> blocks'[c].patches == blocks[c].patches && blocks'[c].insts == blocks[c].insts;
    forall c | 0 <= c < |blocks'|
      ensures Decoded(prog, blocks'[c])
    {
      assert Decoded(prog, blocks[c]);
    }
    forall k | k in instCache
      ensures InstHas(blocks', instCache[k], k)
    {
      assert InstHas(blocks, instCache[k], k);
    }
    forall c, j | 0 <= c < |blocks'| && 0 <= j < |blocks'[c].patches|
      ensures InstListed(blocks', instCache, c, j)
    {
      assert InstListed(blocks, instCache, c, j);
    }
  }

  /** The descriptor getProgrammedExecBlock makes for the suffix from instruction i on. */
  ghost function SplitLoc(blocks: seq<Block>, sequenceCache: map<Key, SeqLoc>, b: nat, i: nat): SeqLoc
    requires AllShaped(blocks) && b < |blocks| && i < |blocks[b].patches| && blocks[b].insts[i].seqID < |blocks[b].seqs|
    requires Key(StartInsn(blocks[b], blocks[b].insts[i].seqID).key.address, blocks[b].patches[i].insn.key.mode) in sequenceCache
  {
    var k := blocks[b].patches[i].insn.key;
    var existing := sequenceCache[Key(StartInsn(blocks[b], blocks[b].insts[i].seqID).key.address, k.mode)];
    SeqLoc(b, |blocks[b].seqs|, existing.bbEnd, k.address, existing.seqEnd)
  }

  lemma SplitKeepsEntry(prog: Program, blocks: seq<Block>, b: nat, i: nat, l: SeqLoc, k: Key)
    requires ProgramOk(prog) && AllShaped(blocks) && b < |blocks| && i < |blocks[b].patches|
    requires blocks[b].insts[i].seqID < |blocks[b].seqs| && AllShaped(blocks[b := SplitBlock(blocks[b], i)])
    requires SeqHas(prog, blocks, l, k)
    ensures SeqHas(prog, blocks[b := SplitBlock(blocks[b], i)], l, k)
  {
    if l.blockIdx == b {
      SplitEnds(blocks[b], i, l.seqID);
    }
  }

  lemma SplitKeepsListed(prog: Program, blocks: seq<Block>, sequenceCache: map<Key, SeqLoc>, b: nat, i: nat, loc: SeqLoc)
    requires AllShaped(blocks) && SeqsListed(blocks, sequenceCache) && b < |blocks| && i < |blocks[b].patches|
    requires blocks[b].insts[i].seqID < |blocks[b].seqs| && AllShaped(blocks[b := SplitBlock(blocks[b], i)])
    requires blocks[b].patches[i].insn.key !in sequenceCache && loc.blockIdx == b && loc.seqID == |blocks[b].seqs|
    ensures SeqsListed(blocks[b := SplitBlock(blocks[b], i)], sequenceCache[blocks[b].patches[i].insn.key := loc])
  {
    var blocks' := blocks[b := SplitBlock(blocks[b], i)];
    var cache' := sequenceCache[blocks[b].patches[i].insn.key := loc];
    forall c, s | 0 <= c < |blocks'| && 0 <= s < |blocks'[c].seqs|
      ensures SeqListed(blocks', cache', c, s)
    {
      if c == b {
        SplitEnds(blocks[b], i, s);
      }
      if c != b || s < |blocks[b].seqs| {
        assert SeqListed(blocks, sequenceCache, c, s);
      }
    }
  }

  /** A split leaves every descriptor right and adds a right one. */
  lemma SplitIndexed(prog: Program, blocks: seq<Block>, sequenceCache: map<Key, SeqLoc>, instCache: map<Key, InstLoc>, b: nat, i: nat)
    requires ProgramOk(prog) && AllShaped(blocks) && AllDecoded(prog, blocks)
    requires SeqsIndexed(prog, blocks, sequenceCache) && InstsIndexed(blocks, instCache)
    requires b < |blocks| && i < |blocks[b].patches| && blocks[b].patches[i].insn.key !in sequenceCache
    ensures blocks[b].insts[i].seqID < |blocks[b].seqs|
    ensures Key(StartInsn(blocks[b], blocks[b].insts[i].seqID).key.address, blocks[b].patches[i].insn.key.mode) in sequenceCache
    ensures var blocks' := blocks[b := SplitBlock(blocks[b], i)];
            && AllShaped(blocks')
            && SeqsIndexed(prog, blocks', sequenceCache[blocks[b].patches[i].insn.key := SplitLoc(blocks, sequenceCache, b, i)])
  {
    OwnEntry(prog, blocks, sequenceCache, b, i);
    SplitBlocks(prog, blocks, instCache, b, i);
    var blocks' := blocks[b := SplitBlock(blocks[b], i)];
    var loc := SplitLoc(blocks, sequenceCache, b, i);
    SplitEnds(blocks[b], i, |blocks[b].seqs|);
    assert SeqHas(prog, blocks', loc, blocks[b].patches[i].insn.key);
    forall k | k in sequenceCache
      ensures SeqHas(prog, blocks', sequenceCache[k], k)
    {
      SplitKeepsEntry(prog, blocks, b, i, sequenceCache[k], k);
    }
    SplitKeepsListed(prog, blocks, sequenceCache, b, i, loc);
  }

  // ------------------------------------------------------------------------
  // Writing a sequence
  // ------------------------------------------------------------------------

  /** The instructions written by one call of writeSequence, entered one after the other. */
  function AddInsts(instCache: map<Key, InstLoc>, ps: seq<Patch>, k: nat, b: nat, start: nat): map<Key, InstLoc>
    requires k <= |ps|
  {
    if k == 0 then instCache
    else AddInsts(instCache, ps, k - 1, b, start)[ps[k - 1].insn.key := InstLoc(b, start + k - 1)]
  }

  lemma {:induction false} AddInstsNew(instCache: map<Key, InstLoc>, ps: seq<Patch>, k: nat, b: nat, start: nat)
    requires k <= |ps|
    requires forall i, j :: 0 <= i < |ps| && 0 <= j < |ps| && ps[i].insn.key == ps[j].insn.key ==> i == j
    ensures var added := AddInsts(instCache, ps, k, b, start);
            forall j :: 0 <= j < k ==> ps[j].insn.key in added && added[ps[j].insn.key] == InstLoc(b, start + j)
  {
    if k > 0 {
      AddInstsNew(instCache, ps, k - 1, b, start);
    }
  }

  lemma {:induction false} AddInstsOld(instCache: map<Key, InstLoc>, ps: seq<Patch>, k: nat, b: nat, start: nat, x: Key)
    requires k <= |ps|
    ensures var added := AddInsts(instCache, ps, k, b, start);
            && (x in added <==> x in instCache || exists j :: 0 <= j < k && ps[j].insn.key == x)
            && (x in added && (forall j :: 0 <= j < k ==> ps[j].insn.key != x) ==> added[x] == instCache[x])
  {
    if k > 0 {
      AddInstsOld(instCache, ps, k - 1, b, start, x);
    }
  }

  lemma AddInstsKeys(instCache: map<Key, InstLoc>, ps: seq<Patch>, k: nat, b: nat, start: nat)
    requires k <= |ps|
    requires forall i, j :: 0 <= i < |ps| && 0 <= j < |ps| && ps[i].insn.key == ps[j].insn.key ==> i == j
    ensures var added := AddInsts(instCache, ps, k, b, start);
            && (forall x :: x in added <==> x in instCache || exists j :: 0 <= j < k && ps[j].insn.key == x)
            && (forall j :: 0 <= j < k ==> ps[j].insn.key in added && added[ps[j].insn.key] == InstLoc(b, start + j))
            && (forall x :: x in added && (forall j :: 0 <= j < k ==> ps[j].insn.key != x) ==> added[x] == instCache[x])
  {
    AddInstsNew(instCache, ps, k, b, start);
    forall x
      ensures var added := AddInsts(instCache, ps, k, b, start);
              && (x in added <==> x in instCache || exists j :: 0 <= j < k && ps[j].insn.key == x)
              && (x in added && (forall j :: 0 <= j < k ==> ps[j].insn.key != x) ==> added[x] == instCache[x])
    {
      AddInstsOld(instCache, ps, k, b, start, x);
    }
  }

  /** What the region needs to know about a block with a new sequence (Recording.SequenceAdded). */
  ghost predicate Grown(b: Block, c: Block, ps: seq<Patch>, k: nat) {
    && 1 <= k <= |ps|
    && c.patches == b.patches + ps[..k]
    && |c.insts| == |b.insts| + k && b.insts <= c.insts
    && (forall j :: |b.insts| <= j < |c.insts| ==> c.insts[j].seqID == |b.seqs|)
    && |c.seqs| == |b.seqs| + 1 && b.seqs <= c.seqs
    && c.seqs[|b.seqs|].startInstID == |b.insts| && c.seqs[|b.seqs|].endInstID == |b.insts| + k - 1
  }

  lemma GrownDecoded(prog: Program, b: Block, c: Block, ps: seq<Patch>, k: nat)
    requires Shaped(b) && Decoded(prog, b) && Shaped(c) && Grown(b, c, ps, k) && Chain(prog, ps)
    ensures Decoded(prog, c)
  {
    var n := |b.patches|;
    forall i | 0 <= i < |c.patches|
      ensures c.patches[i].insn.key in prog.insns && prog.insns[c.patches[i].insn.key] == c.patches[i].insn
    {
      assert c.patches[i] == if i < n then b.patches[i] else ps[i - n];
    }
    assert forall m :: 0 <= m < n ==> c.insts[m] == b.insts[m];
    forall i, j | 0 <= i < j < |c.patches| && j == i + 1 && c.insts[i].seqID == c.insts[j].seqID
      ensures Successor(prog, c.patches[i].insn, c.patches[j].insn)
    {
      if j < n {
        assert c.patches[i] == b.patches[i] && c.patches[j] == b.patches[j];
      } else {
        assert c.patches[i] == ps[i - n] && c.patches[j] == ps[j - n];
      }
    }
  }

  lemma {:induction false} GrownInsts(blocks: seq<Block>, instCache: map<Key, InstLoc>, at: nat, c: Block, ps: seq<Patch>, k: nat)
    requires InstsIndexed(blocks, instCache) && at < |blocks| && Grown(blocks[at], c, ps, k)
    requires |blocks[at].insts| == |blocks[at].patches|
    requires forall i, j :: 0 <= i < |ps| && 0 <= j < |ps| && ps[i].insn.key == ps[j].insn.key ==> i == j
    requires forall j :: 0 <= j < k ==> ps[j].insn.key !in instCache
    ensures InstsIndexed(blocks[at := c], AddInsts(instCache, ps, k, at, |blocks[at].insts|))
  {
    var n := |blocks[at].insts|;
    var blocks', added := blocks[at := c], AddInsts(instCache, ps, k, at, n);
    AddInstsKeys(instCache, ps, k, at, n);
    forall x | x in added
      ensures InstHas(blocks', added[x], x)
    {
      if j :| 0 <= j < k && ps[j].insn.key == x {
        assert c.patches[n + j] == ps[j];
      } else {
        assert InstHas(blocks, instCache[x], x);
      }
    }
    forall b, i | 0 <= b < |blocks'| && 0 <= i < |blocks'[b].patches|
      ensures InstListed(blocks', added, b, i)
    {
      GrownListed(blocks, instCache, at, c, ps, k, added, b, i);
    }
  }

  lemma GrownListed(blocks: seq<Block>, instCache: map<Key, InstLoc>, at: nat, c: Block, ps: seq<Patch>, k: nat,
                    added: map<Key, InstLoc>, b: nat, i: nat)
    requires InstsListed(blocks, instCache) && at < |blocks| && Grown(blocks[at], c, ps, k)
    requires |blocks[at].insts| == |blocks[at].patches|
    requires forall j :: 0 <= j < k ==> ps[j].insn.key !in instCache
    requires forall j :: 0 <= j < k ==> ps[j].insn.key in added && added[ps[j].insn.key] == InstLoc(at, |blocks[at].insts| + j)
    requires forall x :: x in instCache ==> x in added
    requires forall x :: x in added && (forall j :: 0 <= j < k ==> ps[j].insn.key != x) ==> x in instCache && added[x] == instCache[x]
    requires b < |blocks| && i < |blocks[at := c][b].patches|
    ensures InstListed(blocks[at := c], added, b, i)
  {
    var n := |blocks[at].insts|;
    if b == at && n <= i {
      assert c.patches[i] == ps[i - n];
    } else {
      assert blocks[at := c][b].patches[i] == blocks[b].patches[i];
      assert InstListed(blocks, instCache, b, i);
    }
  }

  lemma GrownEnds(b: Block, c: Block, ps: seq<Patch>, k: nat, s: nat)
    requires Shaped(b) && Shaped(c) && Grown(b, c, ps, k) && s <= |b.seqs|
    ensures s < |b.seqs| ==> StartInsn(c, s) == StartInsn(b, s) && EndInsn(c, s) == EndInsn(b, s)
    ensures s == |b.seqs| ==> StartInsn(c, s) == ps[0].insn && EndInsn(c, s) == ps[k - 1].insn
  {
    if s < |b.seqs| {
      assert SequenceOk(b, s);
      assert c.seqs[s] == b.seqs[s];
    } else {
      assert c.patches[|b.insts|] == ps[0] && c.patches[|b.insts| + k - 1] == ps[k - 1];
    }
  }

  lemma {:induction false} GrownSeqs(prog: Program, blocks: seq<Block>, sequenceCache: map<Key, SeqLoc>, at: nat, c: Block,
                  ps: seq<Patch>, k: nat, loc: SeqLoc)
    requires ProgramOk(prog) && AllShaped(blocks) && SeqsIndexed(prog, blocks, sequenceCache)
    requires at < |blocks| && Shaped(c) && Grown(blocks[at], c, ps, k)
    requires ps[0].insn.key in prog.insns && ps[0].insn.key !in sequenceCache
    requires loc == SeqLoc(at, |blocks[at].seqs|, BlockEnd(prog, ps[0].insn.key), ps[0].insn.key.address, ps[k - 1].insn.End())
    ensures AllShaped(blocks[at := c]) && SeqsIndexed(prog, blocks[at := c], sequenceCache[ps[0].insn.key := loc])
  {
    var blocks', cache' := blocks[at := c], sequenceCache[ps[0].insn.key := loc];
    GrownEnds(blocks[at], c, ps, k, |blocks[at].seqs|);
    assert SeqHas(prog, blocks', loc, ps[0].insn.key);
    forall x | x in sequenceCache
      ensures SeqHas(prog, blocks', sequenceCache[x], x)
    {
      assert SeqHas(prog, blocks, sequenceCache[x], x);
      if sequenceCache[x].blockIdx == at {
        GrownEnds(blocks[at], c, ps, k, sequenceCache[x].seqID);
      }
    }
    forall b, s | 0 <= b < |blocks'| && 0 <= s < |blocks'[b].seqs|
      ensures SeqListed(blocks', cache', b, s)
    {
      if b == at {
        GrownEnds(blocks[at], c, ps, k, s);
      }
      if b != at || s < |blocks[at].seqs| {
        assert SeqListed(blocks, sequenceCache, b, s);
      }
    }
  }

  /** The start of every listed sequence is a listed instruction. */
  lemma SeqKeysCached(prog: Program, blocks: seq<Block>, sequenceCache: map<Key, SeqLoc>, instCache: map<Key, InstLoc>, k: Key)
    requires ProgramOk(prog) && AllShaped(blocks) && SeqsIndexed(prog, blocks, sequenceCache) && InstsIndexed(blocks, instCache)
    ensures k in sequenceCache ==> k in instCache
  {
    if k in sequenceCache {
      var l := sequenceCache[k];
      assert SeqHas(prog, blocks, l, k);
      assert SequenceOk(blocks[l.blockIdx], l.seqID);
      assert InstListed(blocks, instCache, l.blockIdx, blocks[l.blockIdx].seqs[l.seqID].startInstID);
    }
  }

  // ------------------------------------------------------------------------
  // Merging two regions
  // ------------------------------------------------------------------------

  function ShiftInst(l: InstLoc, n: nat): InstLoc { InstLoc(U16(l.blockIdx + n), l.instID) }

  function ShiftSeq(l: SeqLoc, n: nat): SeqLoc { l.(blockIdx := U16(l.blockIdx + n)) }

  function MergedInsts(r: Region, q: Region): map<Key, InstLoc> {
    r.instCache + map k | k in q.instCache :: ShiftInst(q.instCache[k], |r.blocks|)
  }

  function MergedSeqs(r: Region, q: Region): map<Key, SeqLoc> {
    r.sequenceCache + map k | k in q.sequenceCache :: ShiftSeq(q.sequenceCache[k], |r.blocks|)
  }

  /** mergeRegion: r takes over everything of its successor q, and its end. */
  function Merged(r: Region, q: Region): Region {
    Region(r.id, r.covered.SetEnd(q.covered.end), r.blocks + q.blocks, MergedSeqs(r, q), MergedInsts(r, q),
           r.toFlush || q.toFlush)
  }

  lemma MergeShaped(prog: Program, x: seq<Block>, y: seq<Block>)
    requires AllShaped(x) && AllShaped(y) && AllDecoded(prog, x) && AllDecoded(prog, y)
    ensures AllShaped(x + y) && AllDecoded(prog, x + y)
  {
    assert forall b :: 0 <= b < |x + y| ==> (x + y)[b] == if b < |x| then x[b] else y[b - |x|];
  }

  lemma MergedInstAt(r: Region, q: Region, k: Key)
    requires r.instCache.Keys !! q.instCache.Keys
    ensures k in MergedInsts(r, q) <==> k in r.instCache || k in q.instCache
    ensures k in r.instCache ==> MergedInsts(r, q)[k] == r.instCache[k]
    ensures k in q.instCache && q.instCache[k].blockIdx + |r.blocks| < WORD16 ==>
              MergedInsts(r, q)[k] == InstLoc(q.instCache[k].blockIdx + |r.blocks|, q.instCache[k].instID)
  {
  }

  lemma MergedSeqAt(r: Region, q: Region, k: Key)
    requires r.sequenceCache.Keys !! q.sequenceCache.Keys
    ensures k in MergedSeqs(r, q) <==> k in r.sequenceCache || k in q.sequenceCache
    ensures k in r.sequenceCache ==> MergedSeqs(r, q)[k] == r.sequenceCache[k]
    ensures k in q.sequenceCache && q.sequenceCache[k].blockIdx + |r.blocks| < WORD16 ==>
              MergedSeqs(r, q)[k] == q.sequenceCache[k].(blockIdx := q.sequenceCache[k].blockIdx + |r.blocks|)
  {
  }

  lemma Second<T>(x: seq<T>, y: seq<T>, i: nat)
    requires i < |y|
    ensures (x + y)[|x| + i] == y[i]
  {
  }

  lemma MergeInsts(r: Region, q: Region)
    requires InstsIndexed(r.blocks, r.instCache) && InstsIndexed(q.blocks, q.instCache)
    requires r.instCache.Keys !! q.instCache.Keys && |r.blocks| + |q.blocks| < WORD16
    ensures InstsIndexed(r.blocks + q.blocks, MergedInsts(r, q))
  {
    forall k | k in MergedInsts(r, q)
      ensures InstHas(r.blocks + q.blocks, MergedInsts(r, q)[k], k)
    {
      MergeInstEntry(r, q, k);
    }
    forall b, i | 0 <= b < |r.blocks + q.blocks| && 0 <= i < |(r.blocks + q.blocks)[b].patches|
      ensures InstListed(r.blocks + q.blocks, MergedInsts(r, q), b, i)
    {
      MergeInstListed(r, q, b, i);
    }
  }

  lemma MergeInstEntry(r: Region, q: Region, k: Key)
    requires InstEntriesRight(r.blocks, r.instCache) && InstEntriesRight(q.blocks, q.instCache)
    requires r.instCache.Keys !! q.instCache.Keys && |r.blocks| + |q.blocks| < WORD16
    requires k in MergedInsts(r, q)
    ensures InstHas(r.blocks + q.blocks, MergedInsts(r, q)[k], k)
  {
    MergedInstAt(r, q, k);
    if k in q.instCache {
      assert InstHas(q.blocks, q.instCache[k], k);
      Second(r.blocks, q.blocks, q.instCache[k].blockIdx);
    } else {
      assert InstHas(r.blocks, r.instCache[k], k);
    }
  }

  lemma MergeInstListed(r: Region, q: Region, b: nat, i: nat)
    requires InstsListed(r.blocks, r.instCache) && InstsListed(q.blocks, q.instCache)
    requires r.instCache.Keys !! q.instCache.Keys && |r.blocks| + |q.blocks| < WORD16
    requires b < |r.blocks + q.blocks| && i < |(r.blocks + q.blocks)[b].patches|
    ensures InstListed(r.blocks + q.blocks, MergedInsts(r, q), b, i)
  {
    var k := (r.blocks + q.blocks)[b].patches[i].insn.key;
    MergedInstAt(r, q, k);
    if b < |r.blocks| {
      assert InstListed(r.blocks, r.instCache, b, i);
    } else {
      Second(r.blocks, q.blocks, b - |r.blocks|);
      assert InstListed(q.blocks, q.instCache, b - |r.blocks|, i);
    }
  }

  lemma MergeSeqs(prog: Program, r: Region, q: Region)
    requires ProgramOk(prog) && AllShaped(r.blocks) && AllShaped(q.blocks) && AllShaped(r.blocks + q.blocks)
    requires SeqsIndexed(prog, r.blocks, r.sequenceCache) && SeqsIndexed(prog, q.blocks, q.sequenceCache)
    requires r.sequenceCache.Keys !! q.sequenceCache.Keys && |r.blocks| + |q.blocks| < WORD16
    ensures SeqsIndexed(prog, r.blocks + q.blocks, MergedSeqs(r, q))
  {
    forall k | k in MergedSeqs(r, q)
      ensures SeqHas(prog, r.blocks + q.blocks, MergedSeqs(r, q)[k], k)
    {
      MergeSeqEntry(prog, r, q, k);
    }
    forall b, s | 0 <= b < |r.blocks + q.blocks| && 0 <= s < |(r.blocks + q.blocks)[b].seqs|
      ensures SeqListed(r.blocks + q.blocks, MergedSeqs(r, q), b, s)
    {
      MergeSeqListed(r, q, b, s);
    }
  }

  lemma MergeSeqEntry(prog: Program, r: Region, q: Region, k: Key)
    requires ProgramOk(prog) && AllShaped(r.blocks) && AllShaped(q.blocks) && AllShaped(r.blocks + q.blocks)
    requires SeqEntriesRight(prog, r.blocks, r.sequenceCache) && SeqEntriesRight(prog, q.blocks, q.sequenceCache)
    requires r.sequenceCache.Keys !! q.sequenceCache.Keys && |r.blocks| + |q.blocks| < WORD16
    requires k in MergedSeqs(r, q)
    ensures SeqHas(prog, r.blocks + q.blocks, MergedSeqs(r, q)[k], k)
  {
    MergedSeqAt(r, q, k);
    if k in q.sequenceCache {
      SecondHas(prog, r.blocks, q.blocks, q.sequenceCache[k], k);
    } else {
      FirstHas(prog, r.blocks, q.blocks, r.sequenceCache[k], k);
    }
  }

  lemma FirstHas(prog: Program, x: seq<Block>, y: seq<Block>, l: SeqLoc, k: Key)
    requires ProgramOk(prog) && AllShaped(x) && AllShaped(x + y) && SeqHas(prog, x, l, k)
    ensures SeqHas(prog, x + y, l, k)
  {
  }

  lemma SecondHas(prog: Program, x: seq<Block>, y: seq<Block>, l: SeqLoc, k: Key)
    requires ProgramOk(prog) && AllShaped(y) && AllShaped(x + y) && SeqHas(prog, y, l, k)
    ensures SeqHas(prog, x + y, l.(blockIdx := l.blockIdx + |x|), k)
  {
    Second(x, y, l.blockIdx);
  }

  lemma MergeSeqListed(r: Region, q: Region, b: nat, s: nat)
    requires AllShaped(r.blocks) && AllShaped(q.blocks) && AllShaped(r.blocks + q.blocks)
    requires SeqsListed(r.blocks, r.sequenceCache) && SeqsListed(q.blocks, q.sequenceCache)
    requires r.sequenceCache.Keys !! q.sequenceCache.Keys && |r.blocks| + |q.blocks| < WORD16
    requires b < |r.blocks + q.blocks| && s < |(r.blocks + q.blocks)[b].seqs|
    ensures SeqListed(r.blocks + q.blocks, MergedSeqs(r, q), b, s)
  {
    var k := StartInsn((r.blocks + q.blocks)[b], s).key;
    MergedSeqAt(r, q, k);
    if b < |r.blocks| {
      assert SeqListed(r.blocks, r.sequenceCache, b, s);
    } else {
      Second(r.blocks, q.blocks, b - |r.blocks|);
      assert SeqListed(q.blocks, q.sequenceCache, b - |r.blocks|, s);
    }
  }

  lemma MergeClosed(prog: Program, r: Region, q: Region)
    requires Closed(prog, r.instCache) && Closed(prog, q.instCache)
    ensures Closed(prog, MergedInsts(r, q))
  {
    forall k | k in MergedInsts(r, q)
      ensures ClosedAt(prog, MergedInsts(r, q), k)
    {
      if k in q.instCache {
        assert ClosedAt(prog, q.instCache, k);
      } else {
        assert ClosedAt(prog, r.instCache, k);
      }
    }
  }

  /** Every key of either region resolves to the same block and instruction. */
  lemma MergeMeaning(r: Region, q: Region, k: Key)
    requires InstEntriesRight(r.blocks, r.instCache) && InstEntriesRight(q.blocks, q.instCache)
    requires r.instCache.Keys !! q.instCache.Keys && |r.blocks| + |q.blocks| < WORD16
    ensures ResolveInst(Merged(r, q), k) == if k in q.instCache then ResolveInst(q, k) else ResolveInst(r, k)
  {
    MergedInstAt(r, q, k);
    if k in q.instCache {
      assert InstHas(q.blocks, q.instCache[k], k);
      Second(r.blocks, q.blocks, q.instCache[k].blockIdx);
    } else if k in r.instCache {
      assert InstHas(r.blocks, r.instCache[k], k);
    }
  }

  /** Every key of either region resolves to the same block and sequence. */
  lemma MergeSequences(r: Region, q: Region, k: Key)
    requires forall x :: x in q.sequenceCache ==> q.sequenceCache[x].blockIdx < |q.blocks|
    requires forall x :: x in r.sequenceCache ==> r.sequenceCache[x].blockIdx < |r.blocks|
    requires r.sequenceCache.Keys !! q.sequenceCache.Keys && |r.blocks| + |q.blocks| < WORD16
    ensures ResolveSeq(Merged(r, q), k) == if k in q.sequenceCache then ResolveSeq(q, k) else ResolveSeq(r, k)
  {
    MergedSeqAt(r, q, k);
    if k in q.sequenceCache {
      Second(r.blocks, q.blocks, q.sequenceCache[k].blockIdx);
    }
  }

  datatype Resolved = Missing | Found(block: Block, index: nat, bbEnd: nat, start: nat, end: nat)

  /** What a key of the instCache stands for. */
  function ResolveInst(r: Region, k: Key): Resolved {
    if k in r.instCache && r.instCache[k].blockIdx < |r.blocks|
    then Found(r.blocks[r.instCache[k].blockIdx], r.instCache[k].instID, 0, 0, 0)
    else Missing
  }

  /** What a key of the sequenceCache stands for. */
  function ResolveSeq(r: Region, k: Key): Resolved {
    if k in r.sequenceCache && r.sequenceCache[k].blockIdx < |r.blocks|
    then
      var l := r.sequenceCache[k];
      Found(r.blocks[l.blockIdx], l.seqID, l.bbEnd, l.seqStart, l.seqEnd)
    else Missing
  }
}
