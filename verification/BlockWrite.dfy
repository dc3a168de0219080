/** What writing a basic block does to a region (src/ExecBlock/ExecBlockManager.cpp,
    preWriteBasicBlock and writeBasicBlock). */
module BlockWrites {
  import opened Ranges
  import opened Guest
  import opened Blocks
  import opened Programs
  import opened Caches
  import opened RegionLists
  import opened Recording

  // ------------------------------------------------------------------------
  // The range of a basic block, and the part of it that is cached
  // ------------------------------------------------------------------------

  function BlockRange(bb: seq<Patch>): Range
    requires bb != []
  {
    Range.Make(bb[0].insn.key.address, bb[|bb| - 1].insn.End())
  }

  lemma BlockRangeHas(prog: Program, bb: seq<Patch>, i: nat)
    requires ProgramOk(prog) && IsBasicBlock(prog, bb) && i < |bb|
    ensures 0 <= BlockRange(bb).start < BlockRange(bb).end
    ensures BlockRange(bb).Has(bb[i].insn.key.address)
    ensures bb[i].insn.key.address <= bb[|bb| - 1].insn.key.address
    ensures bb[i].insn.key.mode == bb[0].insn.key.mode
  {
    if 0 < i {
      ChainGrows(prog, bb, 0, i);
    }
    if i < |bb| - 1 {
      ChainGrows(prog, bb, i, |bb| - 1);
    }
  }

  /** The instructions from n on are cached and the one before is not. */
  ghost predicate Trimmed(instCache: map<Key, InstLoc>, bb: seq<Patch>, n: nat) {
    && n <= |bb|
    && (forall j :: n <= j < |bb| ==> bb[j].insn.key in instCache)
    && (n > 0 ==> bb[n - 1].insn.key !in instCache)
  }

  /** The backward trim removes exactly the cached instructions. */
  lemma TrimExact(prog: Program, instCache: map<Key, InstLoc>, bb: seq<Patch>, n: nat)
    requires Closed(prog, instCache) && Chain(prog, bb) && Trimmed(instCache, bb, n)
    ensures forall j :: 0 <= j < |bb| ==> (bb[j].insn.key in instCache <==> n <= j)
  {
    forall j | 0 <= j < n
      ensures bb[j].insn.key !in instCache
    {
      CachedOn(prog, instCache, bb, j, n - 1);
    }
  }

  lemma {:induction false} CachedOn(prog: Program, instCache: map<Key, InstLoc>, bb: seq<Patch>, i: nat, j: nat)
    requires Closed(prog, instCache) && Chain(prog, bb) && i <= j < |bb|
    ensures bb[i].insn.key in instCache ==> bb[j].insn.key in instCache
    decreases j - i
  {
    if i < j {
      ChainStep(prog, bb, i);
      assert bb[i].insn.key in instCache ==> ClosedAt(prog, instCache, bb[i].insn.key);
      CachedOn(prog, instCache, bb, i + 1, j);
    }
  }

  /** Caching a basic block up to a cached suffix keeps the cache closed. */
  lemma ClosedAfterWrite(prog: Program, before: map<Key, InstLoc>, after: map<Key, InstLoc>, bb: seq<Patch>, n: nat)
    requires Closed(prog, before) && IsBasicBlock(prog, bb) && n <= |bb|
    requires forall j :: n <= j < |bb| ==> bb[j].insn.key in before
    requires after.Keys == before.Keys + KeySet(bb[..n])
    ensures Closed(prog, after)
  {
    KeySetHas(bb, n);
    forall k | k in after
      ensures ClosedAt(prog, after, k)
    {
      if k in before {
        assert ClosedAt(prog, before, k);
      } else if Continues(prog, prog.insns[k]) {
        assert k in KeySet(bb[..n]);
        var j :| 0 <= j < n && bb[j].insn.key == k;
        assert j + 1 < |bb|;
        ChainStep(prog, bb, j);
        if j + 1 < n {
          assert bb[j + 1].insn.key in KeySet(bb[..n]);
        }
      }
    }
  }

  ghost function KeySet(ps: seq<Patch>): set<Key> {
    set j | 0 <= j < |ps| :: ps[j].insn.key
  }

  lemma KeySetHas(bb: seq<Patch>, n: nat)
    requires n <= |bb|
    ensures forall k :: k in KeySet(bb[..n]) <==> exists j :: 0 <= j < n && bb[j].insn.key == k
  {
    forall k
      ensures k in KeySet(bb[..n]) <==> exists j :: 0 <= j < n && bb[j].insn.key == k
    {
      if j :| 0 <= j < n && bb[j].insn.key == k {
        assert bb[..n][j] == bb[j];
      }
      if k in KeySet(bb[..n]) {
        var j :| 0 <= j < |bb[..n]| && bb[..n][j].insn.key == k;
        assert bb[j] == bb[..n][j];
      }
    }
  }

  lemma KeySetJoin(bb: seq<Patch>, m: nat, n: nat)
    requires m <= n <= |bb|
    ensures KeySet(bb[..m]) + KeySet(bb[m..n]) == KeySet(bb[..n])
  {
    forall k | k in KeySet(bb[..n])
      ensures k in KeySet(bb[..m]) + KeySet(bb[m..n])
    {
      var j :| 0 <= j < n && bb[..n][j].insn.key == k;
      if j < m {
        assert bb[..m][j] == bb[..n][j];
      } else {
        assert bb[m..n][j - m] == bb[..n][j];
      }
    }
    forall k | k in KeySet(bb[..m]) + KeySet(bb[m..n])
      ensures k in KeySet(bb[..n])
    {
      if k in KeySet(bb[..m]) {
        var j :| 0 <= j < m && bb[..m][j].insn.key == k;
        assert bb[..n][j] == bb[..m][j];
      } else {
        var j :| 0 <= j < n - m && bb[m..n][j].insn.key == k;
        assert bb[..n][m + j] == bb[m..n][j];
      }
    }
  }

  // ------------------------------------------------------------------------
  // One block of the region changes
  // ------------------------------------------------------------------------

  /** The patches of some blocks, with multiplicity. */
  ghost function Inventory(blocks: seq<Block>): multiset<Patch> {
    if blocks == [] then multiset{} else multiset(blocks[0].patches) + Inventory(blocks[1..])
  }

  lemma {:induction false} InventoryJoin(x: seq<Block>, y: seq<Block>)
    ensures Inventory(x + y) == Inventory(x) + Inventory(y)
  {
    if x == [] {
      assert x + y == y;
    } else {
      assert (x + y)[1..] == x[1..] + y;
      InventoryJoin(x[1..], y);
    }
  }

  lemma InventoryAt(blocks: seq<Block>, at: nat, c: Block)
    requires at < |blocks|
    ensures Inventory(blocks[at := c]) + multiset(blocks[at].patches) == Inventory(blocks) + multiset(c.patches)
  {
    var x, y := blocks[..at], blocks[at + 1..];
    assert blocks == x + ([blocks[at]] + y) && blocks[at := c] == x + ([c] + y);
    InventoryJoin(x, [blocks[at]] + y);
    InventoryJoin(x, [c] + y);
    assert ([c] + y)[1..] == y && ([blocks[at]] + y)[1..] == y;
  }

  /** No instruction and no sequence moves, and no page is replaced. */
  ghost predicate Extends(x: seq<Block>, y: seq<Block>) {
    && |x| <= |y|
    && forall b :: 0 <= b < |x| ==> x[b].patches <= y[b].patches && x[b].seqs <= y[b].seqs && x[b].base == y[b].base
  }

  lemma SequenceStays(x: seq<Block>, y: seq<Block>, l: SeqLoc, code: seq<Patch>)
    requires Extends(x, y) && SequenceIs(x, l, code)
    ensures SequenceIs(y, l, code)
  {
    var b, c := x[l.blockIdx], y[l.blockIdx];
    assert c.seqs[l.seqID] == b.seqs[l.seqID];
    assert forall i :: 0 <= i < |b.patches| ==> c.patches[i] == b.patches[i];
  }

  lemma ExtendsTransitive(x: seq<Block>, y: seq<Block>, z: seq<Block>)
    requires Extends(x, y) && Extends(y, z)
    ensures Extends(x, z)
  {
  }

  /** What every step of writeBasicBlock keeps, up to closure and coverage. */
  ghost predicate Sound(prog: Program, r: Region)
    requires ProgramOk(prog)
  {
    Indexed(prog, r) && AllValid(r.blocks)
  }

  lemma ValidShaped(c: Block)
    requires BlockValid(c)
    ensures Shaped(c) && 4 * |c.insts| <= WORD16
  {
  }

  /** A full block is left as it was, but for the page behind its position. */
  lemma RestoredSound(prog: Program, r: Region, at: nat, c: Block)
    requires ProgramOk(prog) && Sound(prog, r) && at < |r.blocks|
    requires BlockValid(c) && Restored(r.blocks[at], c)
    ensures Sound(prog, r.(blocks := r.blocks[at := c]))
    ensures Extends(r.blocks, r.blocks[at := c]) && Inventory(r.blocks[at := c]) == Inventory(r.blocks)
  {
    AllValidSet(r.blocks, at, c);
    RestoredIndexed(prog, r, at, c);
  }

  lemma RestoredIndexed(prog: Program, r: Region, at: nat, c: Block)
    requires ProgramOk(prog) && Indexed(prog, r) && at < |r.blocks| && Restored(r.blocks[at], c)
    ensures Indexed(prog, r.(blocks := r.blocks[at := c]))
    ensures Extends(r.blocks, r.blocks[at := c]) && Inventory(r.blocks[at := c]) == Inventory(r.blocks)
  {
    RestoredPatches(r.blocks, at, c);
    RestoredSame(r.blocks, at, c);
    SameIndexes(prog, r, r.blocks[at := c]);
  }

  ghost predicate SameRecords(x: seq<Block>, y: seq<Block>) {
    && |x| == |y|
    && forall b :: 0 <= b < |x| ==> y[b].patches == x[b].patches && y[b].insts == x[b].insts && y[b].seqs == x[b].seqs
  }

  lemma RestoredSame(blocks: seq<Block>, at: nat, c: Block)
    requires at < |blocks| && Restored(blocks[at], c)
    ensures SameRecords(blocks, blocks[at := c])
  {
  }

  lemma RestoredPatches(blocks: seq<Block>, at: nat, c: Block)
    requires at < |blocks| && Restored(blocks[at], c)
    ensures Extends(blocks, blocks[at := c]) && Inventory(blocks[at := c]) == Inventory(blocks)
  {
    InventoryAt(blocks, at, c);
    Cancel(Inventory(blocks[at := c]), Inventory(blocks), multiset(c.patches), multiset{});
  }

  lemma Cancel<T>(x: multiset<T>, y: multiset<T>, a: multiset<T>, b: multiset<T>)
    requires x + a == y + (a + b)
    ensures x == y + b
  {
    forall e
      ensures x[e] == (y + b)[e]
    {
      assert (x + a)[e] == (y + (a + b))[e];
    }
  }

  lemma SameIndexes(prog: Program, r: Region, blocks': seq<Block>)
    requires ProgramOk(prog) && Indexed(prog, r)
    requires SameRecords(r.blocks, blocks')
    ensures Indexed(prog, r.(blocks := blocks'))
  {
    SameShapes(prog, r.blocks, blocks');
    SameInsts(r.blocks, blocks', r.instCache);
    SameSeqs(prog, r.blocks, blocks', r.sequenceCache);
  }

  lemma SameShapes(prog: Program, blocks: seq<Block>, blocks': seq<Block>)
    requires ProgramOk(prog) && AllShaped(blocks) && AllDecoded(prog, blocks) && |blocks'| == |blocks|
    requires SameRecords(blocks, blocks')
    ensures AllShaped(blocks') && AllDecoded(prog, blocks')
  {
    forall b | 0 <= b < |blocks'|
      ensures Shaped(blocks'[b]) && Decoded(prog, blocks'[b])
    {
      assert Shaped(blocks[b]) && Decoded(prog, blocks[b]);
      forall s | 0 <= s < |blocks'[b].seqs|
        ensures SequenceOk(blocks'[b], s)
      {
        assert SequenceOk(blocks[b], s);
      }
    }
  }

  lemma SameInsts(blocks: seq<Block>, blocks': seq<Block>, instCache: map<Key, InstLoc>)
    requires InstsIndexed(blocks, instCache) && |blocks'| == |blocks|
    requires forall b :: 0 <= b < |blocks'| ==> blocks'[b].patches == blocks[b].patches
    ensures InstsIndexed(blocks', instCache)
  {
    forall k | k in instCache
      ensures InstHas(blocks', instCache[k], k)
    {
      assert InstHas(blocks, instCache[k], k);
    }
    forall b, i | 0 <= b < |blocks'| && 0 <= i < |blocks'[b].patches|
      ensures InstListed(blocks', instCache, b, i)
    {
      assert InstListed(blocks, instCache, b, i);
    }
  }

  lemma SameSeqs(prog: Program, blocks: seq<Block>, blocks': seq<Block>, sequenceCache: map<Key, SeqLoc>)
    requires ProgramOk(prog) && AllShaped(blocks) && AllShaped(blocks') && |blocks'| == |blocks|
    requires SeqsIndexed(prog, blocks, sequenceCache)
    requires SameRecords(blocks, blocks')
    ensures SeqsIndexed(prog, blocks', sequenceCache)
  {
    forall k | k in sequenceCache
      ensures SeqHas(prog, blocks', sequenceCache[k], k)
    {
      assert SeqHas(prog, blocks, sequenceCache[k], k);
    }
    forall b, s | 0 <= b < |blocks'| && 0 <= s < |blocks'[b].seqs|
      ensures SeqListed(blocks', sequenceCache, b, s)
    {
      assert SeqListed(blocks, sequenceCache, b, s);
    }
  }

  /** A new block has nothing to list. */
  lemma FreshSound(prog: Program, r: Region, c: Block)
    requires ProgramOk(prog) && Sound(prog, r) && |r.blocks| < WORD16
    requires BlockValid(c) && c.patches == [] && c.insts == [] && c.seqs == []
    ensures Sound(prog, r.(blocks := r.blocks + [c]))
    ensures Extends(r.blocks, r.blocks + [c]) && Inventory(r.blocks + [c]) == Inventory(r.blocks)
  {
    ValidShaped(c);
    assert AllValid([c]);
    AllValidJoin(r.blocks, [c]);
    FreshIndexed(prog, r, c);
    InventoryJoin(r.blocks, [c]);
  }

  lemma FreshIndexed(prog: Program, r: Region, c: Block)
    requires ProgramOk(prog) && Indexed(prog, r) && |r.blocks| < WORD16
    requires Shaped(c) && c.patches == [] && c.seqs == []
    ensures Indexed(prog, r.(blocks := r.blocks + [c]))
  {
    FreshInsts(r.blocks, c, r.instCache);
    FreshSeqs(prog, r.blocks, c, r.sequenceCache);
    FreshDecoded(prog, r.blocks, c);
  }

  lemma FreshDecoded(prog: Program, blocks: seq<Block>, c: Block)
    requires AllShaped(blocks) && AllDecoded(prog, blocks) && Shaped(c) && c.patches == [] && AllShaped(blocks + [c])
    ensures AllDecoded(prog, blocks + [c])
  {
    var all := blocks + [c];
    forall b | 0 <= b < |all|
      ensures Decoded(prog, all[b])
    {
      if b < |blocks| {
        assert all[b] == blocks[b];
      }
    }
  }

  lemma FreshInsts(blocks: seq<Block>, c: Block, instCache: map<Key, InstLoc>)
    requires InstsIndexed(blocks, instCache) && c.patches == []
    ensures InstsIndexed(blocks + [c], instCache)
  {
    forall k | k in instCache
      ensures InstHas(blocks + [c], instCache[k], k)
    {
      assert InstHas(blocks, instCache[k], k);
    }
    forall b, i | 0 <= b < |blocks + [c]| && 0 <= i < |(blocks + [c])[b].patches|
      ensures InstListed(blocks + [c], instCache, b, i)
    {
      assert InstListed(blocks, instCache, b, i);
    }
  }

  lemma FreshSeqs(prog: Program, blocks: seq<Block>, c: Block, sequenceCache: map<Key, SeqLoc>)
    requires ProgramOk(prog) && AllShaped(blocks) && SeqsIndexed(prog, blocks, sequenceCache)
    requires Shaped(c) && c.seqs == []
    ensures AllShaped(blocks + [c]) && SeqsIndexed(prog, blocks + [c], sequenceCache)
  {
    var all := blocks + [c];
    assert forall b :: 0 <= b < |all| ==> all[b] == if b < |blocks| then blocks[b] else c;
    forall k | k in sequenceCache
      ensures SeqHas(prog, all, sequenceCache[k], k)
    {
      assert SeqHas(prog, blocks, sequenceCache[k], k);
    }
    forall b, s | 0 <= b < |all| && 0 <= s < |all[b].seqs|
      ensures SeqListed(all, sequenceCache, b, s)
    {
      assert SeqListed(blocks, sequenceCache, b, s);
    }
  }

  /** The region after a successful writeSequence of ps[..k] in block `at`. */
  function WrittenRegion(r: Region, at: nat, c: Block, ps: seq<Patch>, k: nat, loc: SeqLoc): Region
    requires at < |r.blocks| && 1 <= k <= |ps|
  {
    r.(blocks := r.blocks[at := c],
       sequenceCache := r.sequenceCache[ps[0].insn.key := loc],
       instCache := AddInsts(r.instCache, ps, k, at, |r.blocks[at].insts|))
  }

  function NewLoc(r: Region, at: nat, bbEnd: nat, ps: seq<Patch>, k: nat): SeqLoc
    requires at < |r.blocks| && 1 <= k <= |ps|
  {
    SeqLoc(at, |r.blocks[at].seqs|, bbEnd, ps[0].insn.key.address, ps[k - 1].insn.End())
  }

  lemma {:induction false} WrittenSound(prog: Program, r: Region, at: nat, c: Block, ps: seq<Patch>, k: nat, bbEnd: nat)
    requires ProgramOk(prog) && Sound(prog, r) && at < |r.blocks|
    requires BlockValid(c) && SequenceAdded(r.blocks[at], c, ps, k) && Chain(prog, ps)
    requires forall j :: 0 <= j < k ==> ps[j].insn.key !in r.instCache
    requires bbEnd == BlockEnd(prog, ps[0].insn.key)
    ensures Sound(prog, WrittenRegion(r, at, c, ps, k, NewLoc(r, at, bbEnd, ps, k)))
  {
    ValidShaped(c);
    AllValidSet(r.blocks, at, c);
    WrittenIndexed(prog, r, at, c, ps, k, bbEnd);
  }

  lemma {:induction false} WrittenIndexed(prog: Program, r: Region, at: nat, c: Block, ps: seq<Patch>, k: nat, bbEnd: nat)
    requires ProgramOk(prog) && Indexed(prog, r) && at < |r.blocks|
    requires Shaped(c) && SequenceAdded(r.blocks[at], c, ps, k) && Chain(prog, ps)
    requires forall j :: 0 <= j < k ==> ps[j].insn.key !in r.instCache
    requires bbEnd == BlockEnd(prog, ps[0].insn.key)
    ensures Indexed(prog, WrittenRegion(r, at, c, ps, k, NewLoc(r, at, bbEnd, ps, k)))
  {
    AddedGrown(r.blocks[at], c, ps, k);
    ChainDistinct(prog, ps);
    WrittenDecoded(prog, r.blocks, at, c, ps, k);
    GrownInsts(r.blocks, r.instCache, at, c, ps, k);
    SeqKeysCached(prog, r.blocks, r.sequenceCache, r.instCache, ps[0].insn.key);
    GrownSeqs(prog, r.blocks, r.sequenceCache, at, c, ps, k, NewLoc(r, at, bbEnd, ps, k));
  }

  lemma AddedGrown(b: Block, c: Block, ps: seq<Patch>, k: nat)
    requires SequenceAdded(b, c, ps, k)
    ensures Grown(b, c, ps, k)
  {
  }

  lemma WrittenDecoded(prog: Program, blocks: seq<Block>, at: nat, c: Block, ps: seq<Patch>, k: nat)
    requires AllShaped(blocks) && AllDecoded(prog, blocks) && at < |blocks|
    requires Shaped(c) && Grown(blocks[at], c, ps, k) && Chain(prog, ps)
    ensures AllShaped(blocks[at := c]) && AllDecoded(prog, blocks[at := c])
  {
    GrownDecoded(prog, blocks[at], c, ps, k);
  }

  lemma WrittenKeys(prog: Program, r: Region, at: nat, c: Block, ps: seq<Patch>, k: nat, loc: SeqLoc)
    requires ProgramOk(prog) && at < |r.blocks| && 1 <= k <= |ps| && Chain(prog, ps)
    ensures WrittenRegion(r, at, c, ps, k, loc).instCache.Keys == r.instCache.Keys + KeySet(ps[..k])
  {
    ChainDistinct(prog, ps);
    AddInstsKeys(r.instCache, ps, k, at, |r.blocks[at].insts|);
    KeySetHas(ps, k);
  }

  lemma WrittenPatches(r: Region, at: nat, c: Block, ps: seq<Patch>, k: nat)
    requires at < |r.blocks| && SequenceAdded(r.blocks[at], c, ps, k)
    ensures Extends(r.blocks, r.blocks[at := c])
    ensures Inventory(r.blocks[at := c]) == Inventory(r.blocks) + multiset(ps[..k])
  {
    InventoryAt(r.blocks, at, c);
    assert multiset(c.patches) == multiset(r.blocks[at].patches) + multiset(ps[..k]);
    Cancel(Inventory(r.blocks[at := c]), Inventory(r.blocks), multiset(r.blocks[at].patches), multiset(ps[..k]));
  }

  // ------------------------------------------------------------------------
  // Sequence numbers
  // ------------------------------------------------------------------------

  /** No two sequences of a block start with the same instruction, so there are no more
      sequences than instructions and sequence numbers fit 16 bits. */
  lemma SequenceCount(prog: Program, r: Region, b: nat)
    requires ProgramOk(prog) && Indexed(prog, r) && b < |r.blocks|
    ensures |r.blocks[b].seqs| <= |r.blocks[b].insts|
  {
    var c := r.blocks[b];
    StartsCount(r.blocks, r.sequenceCache, b, |c.seqs|);
    StartsBounded(c);
    SubsetSize(StartsBelow(c, |c.seqs|), NatsBelow(|c.insts|));
  }

  /** An instruction that no sequence starts with leaves room for one more. */
  lemma RoomToSplit(prog: Program, r: Region, b: nat, i: nat)
    requires ProgramOk(prog) && Indexed(prog, r) && b < |r.blocks| && i < |r.blocks[b].patches|
    requires r.blocks[b].patches[i].insn.key !in r.sequenceCache
    ensures |r.blocks[b].seqs| < |r.blocks[b].insts|
  {
    var c := r.blocks[b];
    StartsCount(r.blocks, r.sequenceCache, b, |c.seqs|);
    StartsBounded(c);
    NotAStart(r.blocks, r.sequenceCache, b, i);
    assert Shaped(c);
    SubsetSize(StartsBelow(c, |c.seqs|), NatsBelow(|c.insts|) - {i});
  }

  lemma StartsBounded(c: Block)
    requires Shaped(c)
    ensures StartsBelow(c, |c.seqs|) <= NatsBelow(|c.insts|)
  {
    forall x | x in StartsBelow(c, |c.seqs|)
      ensures x in NatsBelow(|c.insts|)
    {
      var s :| 0 <= s < |c.seqs| && c.seqs[s].startInstID == x;
      assert SequenceOk(c, s);
    }
  }

  lemma NotAStart(blocks: seq<Block>, sequenceCache: map<Key, SeqLoc>, b: nat, i: nat)
    requires AllShaped(blocks) && SeqsListed(blocks, sequenceCache) && b < |blocks| && i < |blocks[b].patches|
    requires blocks[b].patches[i].insn.key !in sequenceCache
    ensures i !in StartsBelow(blocks[b], |blocks[b].seqs|)
  {
    forall s | 0 <= s < |blocks[b].seqs|
      ensures blocks[b].seqs[s].startInstID != i
    {
      assert SeqListed(blocks, sequenceCache, b, s);
    }
  }

  ghost function StartsBelow(c: Block, n: nat): set<nat>
    requires n <= |c.seqs|
  {
    set s | 0 <= s < n :: c.seqs[s].startInstID
  }

  lemma {:induction false} StartsCount(blocks: seq<Block>, sequenceCache: map<Key, SeqLoc>, b: nat, n: nat)
    requires AllShaped(blocks) && SeqsListed(blocks, sequenceCache) && b < |blocks| && n <= |blocks[b].seqs|
    ensures |StartsBelow(blocks[b], n)| == n
  {
    var c := blocks[b];
    if n == 0 {
      assert StartsBelow(c, 0) == {};
    } else {
      StartsCount(blocks, sequenceCache, b, n - 1);
      var x := c.seqs[n - 1].startInstID;
      assert x !in StartsBelow(c, n - 1) by {
        forall s | 0 <= s < n - 1
          ensures c.seqs[s].startInstID != x
        {
          assert SeqListed(blocks, sequenceCache, b, s) && SeqListed(blocks, sequenceCache, b, n - 1);
        }
      }
      assert StartsBelow(c, n) == StartsBelow(c, n - 1) + {x};
    }
  }

  ghost function NatsBelow(n: nat): (s: set<nat>)
    ensures |s| == n && forall i: nat :: i in s <==> i < n
  {
    if n == 0 then {} else NatsBelow(n - 1) + {n - 1}
  }

  lemma {:induction false} SubsetSize(x: set<nat>, y: set<nat>)
    requires x <= y
    ensures |x| <= |y|
  {
    if x != {} {
      var e :| e in x;
      SubsetSize(x - {e}, y - {e});
    }
  }

  // ------------------------------------------------------------------------
  // All sequences of a basic block
  // ------------------------------------------------------------------------

  /** Region x after trying its blocks and adding new ones, before a sequence is written. */
  ghost predicate Stepped(prog: Program, x: Region, y: Region)
    requires ProgramOk(prog)
  {
    && Sound(prog, y) && y == x.(blocks := y.blocks)
    && Extends(x.blocks, y.blocks) && Inventory(y.blocks) == Inventory(x.blocks)
  }

  lemma SteppedRestored(prog: Program, x: Region, y: Region, at: nat, c: Block)
    requires ProgramOk(prog) && Stepped(prog, x, y) && at < |y.blocks| && BlockValid(c) && Restored(y.blocks[at], c)
    ensures Stepped(prog, x, y.(blocks := y.blocks[at := c]))
    ensures |y.blocks[at := c]| == |y.blocks| && Extends(y.blocks, y.blocks[at := c])
  {
    RestoredSound(prog, y, at, c);
    ExtendsTransitive(x.blocks, y.blocks, y.blocks[at := c]);
  }

  lemma SteppedFresh(prog: Program, x: Region, y: Region, c: Block)
    requires ProgramOk(prog) && Stepped(prog, x, y) && |y.blocks| < WORD16
    requires BlockValid(c) && c.patches == [] && c.insts == [] && c.seqs == []
    ensures Stepped(prog, x, y.(blocks := y.blocks + [c]))
  {
    FreshSound(prog, y, c);
    ExtendsTransitive(x.blocks, y.blocks, y.blocks + [c]);
  }

  /** Region x after the first m patches of a basic block were written into it. */
  ghost predicate Advanced(prog: Program, x: Region, y: Region, bb: seq<Patch>, m: nat)
    requires ProgramOk(prog)
  {
    && m <= |bb|
    && Sound(prog, y) && y == x.(blocks := y.blocks, sequenceCache := y.sequenceCache, instCache := y.instCache)
    && Extends(x.blocks, y.blocks)
    && Inventory(y.blocks) == Inventory(x.blocks) + multiset(bb[..m])
    && y.instCache.Keys == x.instCache.Keys + KeySet(bb[..m])
  }

  /** One more sequence: the k patches from m to e. */
  lemma AdvancedMore(prog: Program, x: Region, y: Region, z: Region, bb: seq<Patch>, m: nat, n: nat, at: nat, c: Block, k: nat, e: nat)
    requires ProgramOk(prog) && IsBasicBlock(prog, bb) && m < n <= |bb| && Advanced(prog, x, y, bb, m) && e == m + k
    requires Stepped(prog, y, z) && at < |z.blocks| && BlockValid(c) && SequenceAdded(z.blocks[at], c, bb[m..n], k)
    requires forall j :: 0 <= j < n ==> bb[j].insn.key !in x.instCache
    ensures e <= n && Advanced(prog, x, NextRegion(z, at, c, bb, m, n, k), bb, e)
    ensures Extends(z.blocks, z.blocks[at := c])
  {
    SliceSound(prog, x, y, z, bb, m, n, at, c, k);
    MoreKeys(prog, x, y, z, at, c, bb, m, n, k, e);
    MorePatches(x, y, z, at, c, bb, m, n, k, e);
  }

  lemma MoreKeys(prog: Program, x: Region, y: Region, z: Region, at: nat, c: Block, bb: seq<Patch>, m: nat, n: nat, k: nat, e: nat)
    requires ProgramOk(prog) && Chain(prog, bb) && m < n <= |bb| && at < |z.blocks| && 1 <= k <= n - m && e == m + k
    requires y.instCache.Keys == x.instCache.Keys + KeySet(bb[..m]) && z.instCache == y.instCache
    ensures NextRegion(z, at, c, bb, m, n, k).instCache.Keys == x.instCache.Keys + KeySet(bb[..e])
  {
    SliceKeys(prog, z, at, c, bb, m, n, k, e);
    KeySetJoin(bb, m, e);
  }

  lemma MorePatches(x: Region, y: Region, z: Region, at: nat, c: Block, bb: seq<Patch>, m: nat, n: nat, k: nat, e: nat)
    requires m < n <= |bb| && at < |z.blocks| && SequenceAdded(z.blocks[at], c, bb[m..n], k) && e == m + k
    requires Extends(x.blocks, y.blocks) && Inventory(y.blocks) == Inventory(x.blocks) + multiset(bb[..m])
    requires Extends(y.blocks, z.blocks) && Inventory(z.blocks) == Inventory(y.blocks)
    ensures e <= n && Extends(x.blocks, z.blocks[at := c]) && Extends(z.blocks, z.blocks[at := c])
    ensures Inventory(z.blocks[at := c]) == Inventory(x.blocks) + multiset(bb[..e])
  {
    SlicePatches(z, at, c, bb, m, n, k, e);
    SliceJoin(bb, m, e);
    ExtendsTransitive(x.blocks, y.blocks, z.blocks);
    ExtendsTransitive(x.blocks, z.blocks, z.blocks[at := c]);
  }

  function NextRegion(z: Region, at: nat, c: Block, bb: seq<Patch>, m: nat, n: nat, k: nat): Region
    requires m < n <= |bb| && at < |z.blocks| && 1 <= k <= n - m
  {
    WrittenRegion(z, at, c, bb[m..n], k, NewLoc(z, at, bb[|bb| - 1].insn.End(), bb[m..n], k))
  }

  lemma SliceSound(prog: Program, x: Region, y: Region, z: Region, bb: seq<Patch>, m: nat, n: nat, at: nat, c: Block, k: nat)
    requires ProgramOk(prog) && IsBasicBlock(prog, bb) && m < n <= |bb| && Advanced(prog, x, y, bb, m)
    requires Stepped(prog, y, z) && at < |z.blocks| && BlockValid(c) && SequenceAdded(z.blocks[at], c, bb[m..n], k)
    requires forall j :: 0 <= j < n ==> bb[j].insn.key !in x.instCache
    ensures Sound(prog, NextRegion(z, at, c, bb, m, n, k))
  {
    ChainSlice(prog, bb, m, n);
    BasicBlockEnd(prog, bb, m);
    NotYetCached(prog, x, y, bb, m, n);
    assert bb[m..n][0] == bb[m];
    WrittenSound(prog, z, at, c, bb[m..n], k, bb[|bb| - 1].insn.End());
  }

  lemma SliceKeys(prog: Program, z: Region, at: nat, c: Block, bb: seq<Patch>, m: nat, n: nat, k: nat, e: nat)
    requires ProgramOk(prog) && Chain(prog, bb) && m < n <= |bb| && at < |z.blocks| && 1 <= k <= n - m && e == m + k
    ensures NextRegion(z, at, c, bb, m, n, k).instCache.Keys == z.instCache.Keys + KeySet(bb[m..e])
  {
    ChainSlice(prog, bb, m, n);
    WrittenKeys(prog, z, at, c, bb[m..n], k, NewLoc(z, at, bb[|bb| - 1].insn.End(), bb[m..n], k));
    assert bb[m..n][..k] == bb[m..e];
  }

  lemma SlicePatches(z: Region, at: nat, c: Block, bb: seq<Patch>, m: nat, n: nat, k: nat, e: nat)
    requires m < n <= |bb| && at < |z.blocks| && SequenceAdded(z.blocks[at], c, bb[m..n], k) && e == m + k
    ensures Extends(z.blocks, z.blocks[at := c]) && e <= n
    ensures Inventory(z.blocks[at := c]) == Inventory(z.blocks) + multiset(bb[m..e])
  {
    WrittenPatches(z, at, c, bb[m..n], k);
    assert bb[m..n][..k] == bb[m..e];
  }

  lemma SliceJoin(bb: seq<Patch>, m: nat, n: nat)
    requires m <= n <= |bb|
    ensures multiset(bb[..n]) == multiset(bb[..m]) + multiset(bb[m..n])
  {
    assert bb[..n] == bb[..m] + bb[m..n];
  }

  lemma NotYetCached(prog: Program, x: Region, y: Region, bb: seq<Patch>, m: nat, n: nat)
    requires ProgramOk(prog) && Chain(prog, bb) && m <= n <= |bb| && Advanced(prog, x, y, bb, m)
    requires forall j :: 0 <= j < n ==> bb[j].insn.key !in x.instCache
    ensures forall j :: 0 <= j < n - m ==> bb[m..n][j].insn.key !in y.instCache
  {
    ChainDistinct(prog, bb);
    KeySetHas(bb, m);
    forall j | 0 <= j < n - m
      ensures bb[m..n][j].insn.key !in y.instCache
    {
      assert bb[m..n][j] == bb[m + j];
    }
  }

  /** The sequences of a region that hold the first m patches of a basic block, in order: sequence i
      is listed under its first instruction, and holds the patches from cuts[i] to cuts[i + 1]. */
  ghost predicate Partition(r: Region, cuts: seq<nat>, bb: seq<Patch>, m: nat) {
    && cuts != [] && cuts[0] == 0 && cuts[|cuts| - 1] == m <= |bb|
    && (forall i, j :: 0 <= i < j < |cuts| ==> cuts[i] < cuts[j])
    && forall i, j :: 0 <= i < j < |cuts| && j == i + 1 ==> Piece(r, bb, cuts[i], cuts[j])
  }

  ghost predicate Piece(r: Region, bb: seq<Patch>, lo: nat, hi: nat) {
    && lo < hi <= |bb| && bb[lo].insn.key in r.sequenceCache
    && var l := r.sequenceCache[bb[lo].insn.key];
       && l.seqStart == bb[lo].insn.key.address && l.seqEnd == bb[hi - 1].insn.End()
       && l.bbEnd == bb[|bb| - 1].insn.End()
       && SequenceIs(r.blocks, l, bb[lo..hi])
  }

  /** Region y is x after one more sequence was written, for the patches from m to e. */
  ghost predicate OneMore(x: Region, y: Region, bb: seq<Patch>, m: nat, e: nat) {
    && Extends(x.blocks, y.blocks) && Piece(y, bb, m, e)
    && y.sequenceCache == x.sequenceCache[bb[m].insn.key := y.sequenceCache[bb[m].insn.key]]
  }

  /** The sequences written before keep their places and their code. */
  lemma PieceStays(prog: Program, x: Region, y: Region, bb: seq<Patch>, m: nat, e: nat, lo: nat, hi: nat)
    requires ProgramOk(prog) && Chain(prog, bb) && OneMore(x, y, bb, m, e) && Piece(x, bb, lo, hi) && hi <= m
    ensures Piece(y, bb, lo, hi)
  {
    ChainGrows(prog, bb, lo, m);
    var l := x.sequenceCache[bb[lo].insn.key];
    SequenceStays(x.blocks, y.blocks, l, bb[lo..hi]);
  }

  lemma PartitionMore(prog: Program, x: Region, y: Region, cuts: seq<nat>, bb: seq<Patch>, m: nat, e: nat)
    requires ProgramOk(prog) && Chain(prog, bb) && Partition(x, cuts, bb, m) && OneMore(x, y, bb, m, e)
    ensures Partition(y, cuts + [e], bb, e)
  {
    var all := cuts + [e];
    forall i, j | 0 <= i < j < |all|
      ensures all[i] < all[j]
    {
      if j < |cuts| {
        assert all[i] == cuts[i] && all[j] == cuts[j];
      } else {
        assert all[i] == cuts[i] && (i < |cuts| - 1 ==> cuts[i] < cuts[|cuts| - 1]);
      }
    }
    forall i, j | 0 <= i < j < |all| && j == i + 1
      ensures Piece(y, bb, all[i], all[j])
    {
      if j < |cuts| {
        assert Piece(x, bb, cuts[i], cuts[j]);
        assert j < |cuts| - 1 ==> cuts[j] < cuts[|cuts| - 1];
        PieceStays(prog, x, y, bb, m, e, cuts[i], cuts[j]);
      }
    }
  }

  /** Each sequence ends where the next one starts. */
  lemma PartitionTiles(prog: Program, r: Region, cuts: seq<nat>, bb: seq<Patch>, m: nat, i: nat)
    requires ProgramOk(prog) && Chain(prog, bb) && Partition(r, cuts, bb, m) && i + 2 < |cuts|
    ensures bb[cuts[i]].insn.key in r.sequenceCache && bb[cuts[i + 1]].insn.key in r.sequenceCache
    ensures r.sequenceCache[bb[cuts[i]].insn.key].seqEnd == r.sequenceCache[bb[cuts[i + 1]].insn.key].seqStart
  {
    assert Piece(r, bb, cuts[i], cuts[i + 1]) && Piece(r, bb, cuts[i + 1], cuts[i + 2]);
    ChainStep(prog, bb, cuts[i + 1] - 1);
  }

  lemma PartitionNone(r: Region, bb: seq<Patch>)
    ensures Partition(r, [0], bb, 0)
  {
  }

  /** A written block has the patches as its last sequence. */
  lemma AddedPiece(blocks: seq<Block>, at: nat, c: Block, bb: seq<Patch>, m: nat, n: nat, k: nat, e: nat, loc: SeqLoc)
    requires at < |blocks| && m < n <= |bb| && SequenceAdded(blocks[at], c, bb[m..n], k) && e == m + k
    requires |blocks[at].insts| == |blocks[at].patches| && loc.blockIdx == at && loc.seqID == |blocks[at].seqs|
    ensures e <= n && SequenceIs(blocks[at := c], loc, bb[m..e])
  {
    var s := |blocks[at].insts|;
    assert bb[m..n][..k] == bb[m..e];
    assert c.patches[s..s + k] == bb[m..e];
    assert c.seqs[loc.seqID].startInstID == s && c.seqs[loc.seqID].endInstID == s + k - 1;
  }

  lemma AdvancedStart(prog: Program, x: Region, bb: seq<Patch>)
    requires ProgramOk(prog) && Sound(prog, x)
    ensures Advanced(prog, x, x, bb, 0)
  {
    assert KeySet(bb[..0]) == {};
  }

  /** A written basic block leaves a region that is right up to its coverage. */
  lemma AdvancedOk(prog: Program, x: Region, y: Region, bb: seq<Patch>, n: nat)
    requires ProgramOk(prog) && IsBasicBlock(prog, bb) && n <= |bb| && Advanced(prog, x, y, bb, n)
    requires Closed(prog, x.instCache) && forall j :: n <= j < |bb| ==> bb[j].insn.key in x.instCache
    ensures RegionOk(prog, y) && forall j :: 0 <= j < |bb| ==> bb[j].insn.key in y.instCache
  {
    ClosedAfterWrite(prog, x.instCache, y.instCache, bb, n);
    KeySetHas(bb, n);
  }

  /** All instructions of the basic block are covered exactly when the last one is. */
  lemma CoveredIff(prog: Program, x: Region, y: Region, bb: seq<Patch>, n: nat)
    requires ProgramOk(prog) && IsBasicBlock(prog, bb) && n <= |bb| && Advanced(prog, x, y, bb, n)
    requires Closed(prog, x.instCache) && forall j :: n <= j < |bb| ==> bb[j].insn.key in x.instCache
    requires Covered(x) && x.covered.Has(BlockRange(bb).start)
    ensures Covered(y) <==> x.covered.Has(bb[|bb| - 1].insn.key.address)
  {
    AdvancedOk(prog, x, y, bb, n);
    var last := bb[|bb| - 1].insn.key;
    if x.covered.Has(last.address) {
      forall k | k in y.instCache
        ensures y.covered.Has(k.address)
      {
        if k !in x.instCache {
          KeySetHas(bb, n);
          var j :| 0 <= j < n && bb[j].insn.key == k;
          BlockRangeHas(prog, bb, j);
        }
      }
    } else {
      assert last in y.instCache;
    }
  }

  // ------------------------------------------------------------------------
  // What the manager needs in between
  // ------------------------------------------------------------------------

  lemma SliceWellFormed(bb: seq<Patch>, m: nat, n: nat)
    requires m < n <= |bb| && forall j :: 0 <= j < n ==> WellFormed(bb[j])
    ensures bb[m..n][0] == bb[m] && forall j :: 0 <= j < n - m ==> WellFormed(bb[m..n][j])
  {
    forall j | 0 <= j < n - m
      ensures WellFormed(bb[m..n][j])
    {
      assert bb[m..n][j] == bb[m + j];
    }
  }

  lemma SteppedNot(prog: Program, y: Region)
    requires ProgramOk(prog) && Sound(prog, y)
    ensures Stepped(prog, y, y)
  {
  }

  /** A block of a region is fit for writeSequence: a number is left for the sequence. */
  lemma CanWrite(prog: Program, z: Region, i: nat)
    requires ProgramOk(prog) && Sound(prog, z) && i < |z.blocks|
    ensures BlockValid(z.blocks[i]) && |z.blocks[i].seqs| < EXEC_BLOCK_FULL
  {
    assert ValidAt(z.blocks, i);
    SequenceCount(prog, z, i);
    ValidShaped(z.blocks[i]);
  }

  lemma RecordFits(prog: Program, z: Region, i: nat, c: Block, ps: seq<Patch>, k: nat)
    requires ProgramOk(prog) && Sound(prog, z) && i < |z.blocks| && BlockValid(c) && SequenceAdded(z.blocks[i], c, ps, k)
    ensures i < WORD16 && U16(i) == i && |z.blocks[i].insts| + k <= WORD16
    ensures |z.blocks[i].seqs| < |c.seqs| && c.seqs[|z.blocks[i].seqs|].startInstID == |z.blocks[i].insts|
  {
    ValidShaped(c);
    Fits16(i);
  }

  /** The region Record makes. */
  lemma {:induction false} NextIs(z: Region, i: nat, c: Block, bb: seq<Patch>, m: nat, n: nat, k: nat, e: nat, loc: SeqLoc, insts: map<Key, InstLoc>)
    requires m < n <= |bb| && i < |z.blocks| && 1 <= k <= n - m && e == m + k
    requires loc == SeqLoc(i, |z.blocks[i].seqs|, bb[|bb| - 1].insn.End(), bb[m].insn.key.address, bb[e - 1].insn.End())
    requires insts == AddInsts(z.instCache, bb[m..n], k, i, |z.blocks[i].insts|)
    ensures var w := NextRegion(z, i, c, bb, m, n, k);
            && w.id == z.id && w.toFlush == z.toFlush && w.blocks == z.blocks[i := c]
            && w == z.(blocks := z.blocks[i := c], sequenceCache := z.sequenceCache[bb[m].insn.key := loc], instCache := insts)
  {
    assert bb[m..n][0] == bb[m] && bb[m..n][k - 1] == bb[e - 1];
  }
}
