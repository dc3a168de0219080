/** The code of a page as it is executed: from patch to patch, to the tail of the sequence
    (src/ExecBlock/ExecBlock.cpp, writeSequence). */
module Threading {
  import opened Guest
  import opened Blocks
  import opened PageWrites
  import opened Folding

  lemma BytesStay(b: Block, c: Block, at: nat, bytes: seq<int>)
    requires HasBytes(b, at, bytes) && b.position <= c.position <= |c.page| == |b.page|
    requires c.page[..b.position] == b.page[..b.position]
    ensures HasBytes(c, at, bytes)
  {
    SamePrefixSlice(b.page, c.page, b.position, at, at + |bytes|);
  }

  /** c has the instructions of b, at the same place with the same code. */
  ghost predicate Keeps(b: Block, c: Block) {
    && |b.insts| == |b.patches| && |c.insts| == |c.patches| && b.insts <= c.insts && b.patches <= c.patches
    && b.position <= c.position <= |c.page| == |b.page| && c.page[..b.position] == b.page[..b.position]
  }

  lemma FollowsStay(b: Block, c: Block, i: nat, j: nat)
    requires Keeps(b, c) && i < |b.insts| && j < |b.insts| && Follows(b, i, j)
    ensures Follows(c, i, j)
  {
    BytesStay(b, c, EndOf(b, i), Bytes(LeadFor(b.patches[j], b.insts[i].sr, b.insts[j].sr)));
  }

  lemma TailStays(b: Block, c: Block, i: nat)
    requires Keeps(b, c) && i < |b.insts| && Tailed(b, i)
    ensures Tailed(c, i)
  {
    var x := b.patches[i].insn;
    var long := Bytes(Terminator(x.End(), b.insts[i].sr)) + Bytes(JmpEpilogue());
    if HasBytes(b, EndOf(b, i), long) {
      BytesStay(b, c, EndOf(b, i), long);
    } else {
      BytesStay(b, c, EndOf(b, i), Bytes(JmpEpilogue()));
    }
  }

  /** Code written behind the instructions leaves them threaded. */
  lemma WovenStays(b: Block, c: Block)
    requires Keeps(b, c) && Woven(b) && c.insts == b.insts && c.seqs == b.seqs
    ensures Woven(c)
  {
    WovenIs(b);
    forall i, j | 0 <= i < j < |c.insts| && j == i + 1 && c.insts[i].seqID == c.insts[j].seqID
      ensures Follows(c, i, j)
    {
      FollowsStay(b, c, i, j);
    }
    forall s | 0 <= s < |c.seqs|
      ensures c.seqs[s].endInstID < |c.insts| && Tailed(c, c.seqs[s].endInstID)
    {
      TailStays(b, c, c.seqs[s].endInstID);
    }
    WovenIs(c);
  }

  /** One more instruction, behind the last one if it is in the same sequence. */
  lemma WovenMore(b: Block, c: Block)
    requires Keeps(b, c) && Woven(b) && |c.insts| == |b.insts| + 1 && c.seqs == b.seqs
    requires |b.insts| > 0 && b.insts[|b.insts| - 1].seqID == c.insts[|b.insts|].seqID ==> Follows(c, |b.insts| - 1, |b.insts|)
    ensures Woven(c)
  {
    WovenIs(b);
    forall i, j | 0 <= i < j < |c.insts| && j == i + 1 && c.insts[i].seqID == c.insts[j].seqID
      ensures Follows(c, i, j)
    {
      if j < |b.insts| {
        FollowsStay(b, c, i, j);
      }
    }
    forall s | 0 <= s < |c.seqs|
      ensures c.seqs[s].endInstID < |c.insts| && Tailed(c, c.seqs[s].endInstID)
    {
      TailStays(b, c, c.seqs[s].endInstID);
    }
    WovenIs(c);
  }

  /** One more sequence that ends with a tail. */
  lemma WovenSequence(b: Block, c: Block, q: SeqInfo)
    requires Woven(b) && c == b.(seqs := b.seqs + [q]) && b.position <= |b.page|
    requires q.endInstID < |b.insts| == |b.patches| && Tailed(b, q.endInstID)
    ensures Woven(c)
  {
    WovenIs(b);
    forall i, j | 0 <= i < j < |c.insts| && j == i + 1 && c.insts[i].seqID == c.insts[j].seqID
      ensures Follows(c, i, j)
    {
      FollowsStay(b, c, i, j);
    }
    forall s | 0 <= s < |c.seqs|
      ensures c.seqs[s].endInstID < |c.insts| && Tailed(c, c.seqs[s].endInstID)
    {
      assert s < |b.seqs| ==> Tailed(b, b.seqs[s].endInstID);
      TailStays(b, c, c.seqs[s].endInstID);
    }
    WovenIs(c);
  }

  /** The instruction written behind the last one of an open sequence follows it. */
  lemma WovenBehind(b: Block, c: Block, sr: nat)
    requires Keeps(b, c) && Woven(b) && |c.insts| == |b.insts| + 1 && c.seqs == b.seqs
    requires var n := |b.insts|;
             n > 0 && b.insts[n - 1].seqID == c.insts[n].seqID ==>
               && EndOf(b, n - 1) == b.position && b.insts[n - 1].sr == sr
               && c.insts[n].offset == b.position + |Bytes(LeadFor(c.patches[n], sr, c.insts[n].sr))|
               && HasBytes(c, b.position, Bytes(LeadFor(c.patches[n], sr, c.insts[n].sr)))
               && (sr !in c.patches[n].Busy() ==> c.insts[n].sr == sr)
    ensures Woven(c)
  {
    var n := |b.insts|;
    if n > 0 && b.insts[n - 1].seqID == c.insts[n].seqID {
      assert c.patches[n - 1] == b.patches[n - 1] && EndOf(c, n - 1) == EndOf(b, n - 1);
    }
    WovenMore(b, c);
  }

  /** The rest of a sequence, as a sequence of its own. */
  lemma WovenSplit(b: Block, c: Block, instID: nat)
    requires Woven(b) && Sequenced(b) && instID < |b.insts| && b.position <= |b.page|
    requires var q := b.seqs[b.insts[instID].seqID];
             c == b.(seqs := b.seqs + [SeqInfo(instID, q.endInstID, q.mode, b.insts[instID].sr)])
    ensures Woven(c)
  {
    WovenIs(b);
    var q := b.seqs[b.insts[instID].seqID];
    WovenSequence(b, c, SeqInfo(instID, q.endInstID, q.mode, b.insts[instID].sr));
  }

  // ------------------------------------------------------------------------
  // Executing a sequence
  // ------------------------------------------------------------------------

  /** The code of the instructions from i to e, with the changes of the scratch register between. */
  function CodeFrom(b: Block, i: nat, e: nat): seq<int>
    requires i <= e < |b.insts| == |b.patches|
    decreases e - i
  {
    Bytes(b.patches[i].items)
    + (if i == e then []
       else Bytes(LeadFor(b.patches[i + 1], b.insts[i].sr, b.insts[i + 1].sr)) + CodeFrom(b, i + 1, e))
  }

  lemma LeadInPlace(b: Block, i: nat, j: nat)
    requires Sized(b) && i < |b.insts| && j < |b.insts| && Follows(b, i, j)
    ensures var lead := Bytes(LeadFor(b.patches[j], b.insts[i].sr, b.insts[j].sr));
            && EndOf(b, i) <= b.insts[j].offset <= |b.page|
            && b.page[EndOf(b, i)..b.insts[j].offset] == lead
  {
  }

  lemma {:induction false} CodeInPlace(b: Block, i: nat, e: nat)
    requires Sized(b) && i <= e < |b.insts|
    requires forall j :: i <= j <= e ==> InstLaid(b, j)
    requires forall j, k :: i <= j < k <= e && k == j + 1 ==> Follows(b, j, k)
    ensures b.insts[i].offset <= EndOf(b, e) <= |b.page|
    ensures b.page[b.insts[i].offset..EndOf(b, e)] == CodeFrom(b, i, e)
    decreases e - i
  {
    assert InstLaid(b, i);
    if i < e {
      var lead := Bytes(LeadFor(b.patches[i + 1], b.insts[i].sr, b.insts[i + 1].sr));
      LeadInPlace(b, i, i + 1);
      CodeInPlace(b, i + 1, e);
      Spliced(b.page, b.insts[i].offset, EndOf(b, i), b.insts[i + 1].offset, EndOf(b, e),
              Bytes(b.patches[i].items), lead, CodeFrom(b, i + 1, e));
    }
  }

  lemma Spliced(a: seq<int>, i: nat, j: nat, k: nat, l: nat, x: seq<int>, y: seq<int>, z: seq<int>)
    requires i <= j <= k <= l <= |a| && a[i..j] == x && a[j..k] == y && a[k..l] == z
    ensures a[i..l] == x + (y + z)
  {
  }

  /** What is executed from the address on is the code of the instructions of the sequence, and its
      tail; folded. */
  ghost predicate ExecutedAt(b: Block, s: nat, address: nat) {
    forall u {:trigger Asked(AThread, u)} :: Asked(AThread, u) ==>
      && s < |b.seqs| && b.seqs[s].startInstID <= b.seqs[s].endInstID < |b.insts| == |b.patches|
      && Tailed(b, b.seqs[s].endInstID)
      && b.base <= address && address - b.base <= EndOf(b, b.seqs[s].endInstID) <= |b.page|
      && b.page[address - b.base..EndOf(b, b.seqs[s].endInstID)] == CodeFrom(b, b.seqs[s].startInstID, b.seqs[s].endInstID)
  }

  lemma ExecutedIs(b: Block, s: nat, address: nat)
    ensures ExecutedAt(b, s, address) <==>
            && s < |b.seqs| && b.seqs[s].startInstID <= b.seqs[s].endInstID < |b.insts| == |b.patches|
            && Tailed(b, b.seqs[s].endInstID)
            && b.base <= address && address - b.base <= EndOf(b, b.seqs[s].endInstID) <= |b.page|
            && b.page[address - b.base..EndOf(b, b.seqs[s].endInstID)] == CodeFrom(b, b.seqs[s].startInstID, b.seqs[s].endInstID)
  {
    assert Asked(AThread, 0);
  }

  /** That is so where its first instruction is, whether the sequence was written or split off. */
  lemma SequenceInPlace(b: Block, s: nat)
    requires BlockValid(b) && s < |b.seqs|
    ensures b.seqs[s].startInstID < |b.insts| && ExecutedAt(b, s, b.base + b.insts[b.seqs[s].startInstID].offset)
  {
    BodyIs(b);
    WovenIs(b);
    assert SequenceOk(b, s);
    CodeInPlace(b, b.seqs[s].startInstID, b.seqs[s].endInstID);
    ExecutedIs(b, s, b.base + b.insts[b.seqs[s].startInstID].offset);
  }
}
