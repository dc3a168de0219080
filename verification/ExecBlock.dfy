/** Writing code in a page (src/ExecBlock/ExecBlock.cpp and its AArch64 part
    src/ExecBlock/AARCH64/ExecBlock_AARCH64.cpp). */
module ExecBlocks {
  import opened Guest
  import opened Blocks
  import opened PageWrites
  import opened Threading
  import opened Recording

  /** The places where the source gives up with QBDI_REQUIRE_ABORT. */
  datatype Abort =
    | ShadowAllocation      // newShadow
    | ScratchRegister       // initScratchRegisterForPatch
    | BeginTag | EndTag     // writeSequence, markers of the new instruction
    | TerminatorSpace | JmpEpilogueSpace | EpilogueOverflow // writeSequence, page overflow

  datatype Outcome = Done | NoSpace | Aborted(why: Abort)

  /** The register is free in the patches [start, end) and, if there is one, busy in the next. */
  ghost predicate ScratchChosen(ps: seq<Patch>, start: nat, end: nat, r: nat) {
    && start < end <= |ps|
    && (forall j :: start <= j < end ==> r !in ps[j].Busy())
    && (end < |ps| ==> r in ps[end].Busy())
  }

  /** No register stays free longer, and no higher one as long. */
  ghost predicate ScratchBest(ps: seq<Patch>, start: nat, end: nat, r: nat, registers: set<nat>) {
    && end <= |ps| && r in registers
    && (forall q :: q in registers && FreeIn(ps, start, end, q) ==> q <= r)
    && (end < |ps| ==> forall q :: q in registers ==> !FreeIn(ps, start, end + 1, q))
  }

  ghost predicate FreeIn(ps: seq<Patch>, start: nat, end: nat, r: nat)
    requires end <= |ps|
  {
    forall j :: start <= j < end ==> r !in ps[j].Busy()
  }

  /** The register can be kept up to patch `end`, which is where it becomes busy. */
  ghost predicate ScratchReady(ps: seq<Patch>, k: nat, end: nat, r: nat) {
    && k <= end <= |ps|
    && (forall j :: k <= j < end ==> r !in ps[j].Busy())
    && (end < |ps| ==> r in ps[end].Busy())
  }

  method MaxRegister(free: set<nat>) returns (m: nat)
    requires free != {} && free <= AllRegisters()
    ensures m in free && forall r :: r in free ==> r <= m
  {
    ghost var found := false;
    m := 0;
    for r := 0 to AVAILABLE_GPR
      invariant found ==> m in free
      invariant forall x :: x in free && x < r ==> found && x <= m
    {
      if r in free {
        m := r;
        found := true;
      }
    }
    ghost var w :| w in free;
    assert w < AVAILABLE_GPR;
  }

  function FreshBlock(base: nat, page: seq<int>, prologue: seq<int>, epilogue: seq<int>, shadowCapacity: nat): Block
    requires |epilogue| <= |page|
  {
    Block(base, page, |prologue|, |page| - |epilogue|, shadowCapacity, [], [], 0, [], [], [], false)
  }

  /** The code of a patch is at the address. */
  ghost predicate AtCode(address: nat, base: nat, page: seq<int>, p: Patch) {
    && base <= address && address - base + |Bytes(p.items)| <= |page|
    && page[address - base..address - base + |Bytes(p.items)|] == Bytes(p.items)
  }

  class ExecBlock {
    const base: nat
    const code: array<int>
    /** The epilogue starts here. */
    const maxSize: nat
    const shadowCapacity: nat
    /** Registers of the platform (x18 on Apple systems). */
    const reserved: set<nat>

    var position: nat
    var shadowRegistry: seq<ShadowInfo>
    var tagRegistry: seq<TagInfo>
    var shadowIdx: nat
    var patches: seq<Patch>
    var insts: seq<InstInfo>
    var seqs: seq<SeqInfo>
    var isFull: bool
    /** srInfo: the scratch register, and the index of the first patch that cannot use it. */
    var scratch: nat
    var scratchEnd: nat
    /** The sequence selected for execution, and the host state made from it. */
    var currentSeq: nat
    var currentInst: nat
    var currentScratch: nat
    var selector: nat

    function View(): Block
      reads this, code
    {
      Block(base, code[..], position, maxSize, shadowCapacity, shadowRegistry, tagRegistry, shadowIdx,
            patches, insts, seqs, isFull)
    }

    /** A new page: the epilogue at its end, the prologue at its start. */
    constructor (base: nat, pageSize: nat, prologue: seq<int>, epilogue: seq<int>, shadowCapacity: nat, reserved: set<nat>)
      requires |prologue| + |epilogue| <= pageSize <= WORD16 && shadowCapacity < WORD16
      ensures BlockValid(View()) && fresh(code)
      ensures code.Length == pageSize && View() == FreshBlock(base, code[..], prologue, epilogue, shadowCapacity)
      ensures code[..|prologue|] == prologue && code[maxSize..] == epilogue
    {
      this.base := base;
      code := new int[pageSize](i => 0);
      maxSize := pageSize - |epilogue|;
      this.shadowCapacity := shadowCapacity;
      this.reserved := reserved;
      position, shadowIdx, isFull := |prologue|, 0, false;
      shadowRegistry, tagRegistry, patches, insts, seqs := [], [], [], [], [];
      scratch, scratchEnd, currentSeq, currentInst, currentScratch, selector := 0, 0, 0, 0, 0, 0;
      new;
      forall i | maxSize <= i < pageSize {
        code[i] := epilogue[i - maxSize];
      }
      forall i | 0 <= i < |prologue| {
        code[i] := prologue[i];
      }
      assert code[maxSize..] == epilogue;
      BodyIs(View());
    }

    /** A page in a given state. */
    constructor Load(b: Block, reserved: set<nat>)
      requires BlockValid(b)
      ensures View() == b && fresh(code) && this.reserved == reserved
    {
      base, maxSize, shadowCapacity := b.base, b.maxSize, b.shadowCapacity;
      code := new int[|b.page|](i requires 0 <= i < |b.page| => b.page[i]);
      this.reserved := reserved;
      position, shadowIdx, isFull := b.position, b.shadowIdx, b.isFull;
      shadowRegistry, tagRegistry := b.shadowRegistry, b.tagRegistry;
      patches, insts, seqs := b.patches, b.insts, b.seqs;
      scratch, scratchEnd, currentSeq, currentInst, currentScratch, selector := 0, 0, 0, 0, 0, 0;
      new;
      assert code[..] == b.page;
    }

    ghost predicate InPage()
      reads this
    {
      position <= maxSize <= code.Length <= WORD16 && shadowIdx <= shadowCapacity < WORD16
    }

    method WriteCodeByte(bytes: seq<int>) returns (ok: bool)
      requires InPage()
      modifies this`position, code
      ensures InPage()
      ensures ok <==> |bytes| <= maxSize - old(position)
      ensures position == old(position) + if ok then |bytes| else 0
      ensures code[..] == if ok then Overwrite(old(code[..]), old(position), bytes) else old(code[..])
    {
      if |bytes| > maxSize - position {
        return false;
      }
      for i := 0 to |bytes|
        invariant position == old(position)
        invariant code[..] == Overwrite(old(code[..]), position, bytes[..i])
      {
        ghost var was := code[..];
        OverwriteSnoc(old(code[..]), position, bytes, i);
        code[position + i] := bytes[i];
        assert code[..] == was[position + i := bytes[i]];
      }
      assert bytes[..|bytes|] == bytes;
      position := position + |bytes|;
      return true;
    }

    method NewShadow(tag: nat) returns (o: Outcome, id: nat)
      requires InPage()
      modifies this`shadowIdx, this`shadowRegistry
      ensures o == if old(shadowIdx) < shadowCapacity then Done else Aborted(ShadowAllocation)
      ensures o.Done? ==> InPage() && id == old(shadowIdx) && shadowIdx == old(shadowIdx) + 1
      ensures o.Done? ==> shadowRegistry ==
                          old(shadowRegistry) + if tag != UNTAGGED then [ShadowInfo(U16(|patches|), tag, id)] else []
    {
      id := shadowIdx;
      shadowIdx := U16(shadowIdx + 1);
      if id >= shadowCapacity {
        return Aborted(ShadowAllocation), id;
      }
      if tag != UNTAGGED {
        shadowRegistry := shadowRegistry + [ShadowInfo(U16(|patches|), tag, id)];
      }
      o := Done;
    }

    /** One step of applyRelocatedInst. A shadow is taken before the space is looked at. */
    method WriteItem(x: Item, limit: nat) returns (o: Outcome)
      requires InPage()
      modifies this`position, this`shadowRegistry, this`tagRegistry, this`shadowIdx, code
      ensures o.Aborted? ==> o.why == ShadowAllocation && shadowCapacity < old(shadowIdx) + ItemCount(x)
      ensures !o.Aborted? ==> InPage()
      ensures o.NoSpace? ==> maxSize - old(position) < |ItemBytes(x)| + limit
                             && View() == AfterItem(old(View()), x, [])
      ensures o.Done? ==> old(position) + |ItemBytes(x)| <= maxSize
                          && View() == AfterItem(old(View()), x, ItemBytes(x))
                          && (x.Code? ==> limit <= maxSize - position)
    {
      ghost var b := View();
      AppendedNothing(b);
      if x.Tag? {
        tagRegistry := tagRegistry + [TagInfo(U16(x.tag), U16(position))];
        return Done;
      }
      if x.shadow.NewShadow? {
        var r, _ := NewShadow(x.shadow.tag);
        if r.Aborted? {
          return r;
        }
      }
      if maxSize - position < |x.bytes| + limit {
        return NoSpace;
      }
      var ok := WriteCodeByte(x.bytes);
      return if ok then Done else NoSpace;
    }

    /** Writes the items one by one; `limit` bytes must stay free behind each instruction. */
    method ApplyRelocatedInst(items: seq<Item>, limit: nat) returns (o: Outcome)
      requires InPage()
      modifies this`position, this`shadowRegistry, this`tagRegistry, this`shadowIdx, code
      ensures o.Aborted? ==> o.why == ShadowAllocation && shadowCapacity < old(shadowIdx) + CountShadows(items)
      ensures !o.Aborted? ==> InPage() && Grows(old(View()), View())
      ensures o.NoSpace? ==> maxSize - old(position) < |Bytes(items)| + limit
      ensures o.Done? ==>
                && old(position) + |Bytes(items)| <= maxSize
                && View() == Written(old(View()), items)
                && (Bytes(items) == [] || limit <= maxSize - position)
    {
      ghost var b0 := View();
      AppendedNothing(b0);
      for i := 0 to |items|
        invariant InPage() && b0.position + |Bytes(items[..i])| <= maxSize
        invariant View() == Written(b0, items[..i])
        invariant Bytes(items[..i]) == [] || limit <= maxSize - position
      {
        ghost var b := View();
        BytesSnoc(items, i);
        PrefixBounds(items, i + 1);
        o := WriteItem(items[i], limit);
        if !o.Done? {
          if o.NoSpace? {
            FailedGrows(b0, items[..i], items[i]);
          }
          return;
        }
        WrittenSnoc(b0, items, i);
      }
      assert items[..|items|] == items;
      WrittenGrows(b0, items);
      o := Done;
    }

    // ----------------------------------------------------------------------
    // Scratch register
    // ----------------------------------------------------------------------

    /** Chooses the scratch register for the patches from `start` on: one that stays free for
        as many of them as possible. */
    method InitScratchRegister(ps: seq<Patch>, start: nat) returns (o: Outcome)
      requires start < |ps|
      modifies this`scratch, this`scratchEnd
      ensures o == if AllRegisters() - reserved - ps[start].Busy() == {} then Aborted(ScratchRegister) else Done
      ensures o.Done? ==> ScratchChosen(ps, start, scratchEnd, scratch)
      ensures o.Done? ==> ScratchBest(ps, start, scratchEnd, scratch, AllRegisters() - reserved)
    {
      var free := AllRegisters() - reserved;
      var i := start;
      while i < |ps|
        invariant start <= i <= |ps|
        invariant free <= AllRegisters() - reserved
        invariant forall r :: r in free <==> r in AllRegisters() - reserved && FreeIn(ps, start, i, r)
        invariant i > start ==> free != {}
        invariant i > start ==> AllRegisters() - reserved - ps[start].Busy() != {}
      {
        var delta := free - ps[i].temp;
        for r := 0 to AVAILABLE_GPR
          invariant delta == free - ps[i].temp - set u | u in ps[i].used && u < r
        {
          if r in ps[i].used {
            delta := delta - {r};
          }
        }
        assert delta == free - ps[i].Busy() by {
          assert forall u :: u in free ==> u < AVAILABLE_GPR;
        }
        if delta == {} {
          assert forall r :: r in free ==> r in ps[i].Busy() || r in delta;
          break;
        }
        ghost var w :| w in delta;
        assert i == start ==> w in AllRegisters() - reserved - ps[start].Busy();
        free := delta;
        i := i + 1;
      }
      if free == {} || i == start {
        assert i == start;
        return Aborted(ScratchRegister);
      }
      scratchEnd := i;
      scratch := MaxRegister(free);
      o := Done;
    }

    /** Writes patch k, with a change of the scratch register in front when the current one is
        busy in it. Without space everything but the registries' tails is as before. */
    method WritePatch(ps: seq<Patch>, k: nat) returns (o: Outcome, ghost pre: seq<Item>)
      requires Sized(View()) && k < |ps| && WellFormed(ps[k]) && ScratchReady(ps, k, scratchEnd, scratch)
      modifies this`position, this`shadowRegistry, this`tagRegistry, this`shadowIdx, this`isFull,
               this`scratch, this`scratchEnd, code
      ensures o.Aborted? ==>
                || (o.why == ShadowAllocation && shadowCapacity < old(shadowIdx) + CountShadows(ps[k].items))
                || (o.why == ScratchRegister && AllRegisters() - reserved - ps[k].Busy() == {})
      ensures o.NoSpace? ==>
                && Grows(old(View()), View()) && position <= maxSize
                && isFull == (old(isFull) || maxSize - old(position) <= MINIMAL_BLOCK_SIZE)
                && scratch == old(scratch) && scratchEnd == old(scratchEnd)
                && maxSize - old(position) < LeadSize(ps[k], scratch) + |Bytes(ps[k].items)| + MINIMAL_BLOCK_SIZE
      ensures o.Done? ==>
                && PatchWritten(old(View()), View(), pre, ps[k])
                && pre == LeadFor(ps[k], old(scratch), scratch) && |Bytes(pre)| == LeadSize(ps[k], old(scratch))
                && (old(scratch) !in ps[k].Busy() ==> scratch == old(scratch))
                && scratch !in ps[k].Busy() && ScratchReady(ps, k + 1, scratchEnd, scratch)
    {
      ghost var b := View();
      pre := [];
      if maxSize - position <= MINIMAL_BLOCK_SIZE {
        isFull := true;
        GrowsSelf(b, View());
        return NoSpace, [];
      }
      var backup, backupEnd := scratch, scratchEnd;
      o, pre := WriteLeadIn(ps, k);
      if !o.Done? {
        scratch, scratchEnd := backup, backupEnd;
        return;
      }
      o := WriteBehind(ps[k], b, pre);
      if !o.Done? {
        scratch, scratchEnd := backup, backupEnd;
      }
    }

    /** The part of writePatch behind the lead-in. */
    method WriteBehind(p: Patch, ghost b: Block, ghost pre: seq<Item>) returns (o: Outcome)
      requires Sized(b) && WellFormed(p) && IsLeadIn(pre) && CountShadows(pre) == 0
      requires InPage() && b.maxSize == maxSize && b.shadowCapacity == shadowCapacity
      requires b.position + |Bytes(pre)| <= maxSize && View() == Written(b, pre)
      modifies this`position, this`shadowRegistry, this`tagRegistry, this`shadowIdx, code
      ensures o.Aborted? ==> o.why == ShadowAllocation && shadowCapacity < b.shadowIdx + CountShadows(p.items)
      ensures o.NoSpace? ==>
                && Grows(b, View()) && position <= maxSize
                && maxSize - b.position < |Bytes(pre)| + |Bytes(p.items)| + MINIMAL_BLOCK_SIZE
      ensures o.Done? ==> PatchWritten(b, View(), pre, p)
    {
      ghost var c := View();
      o := ApplyRelocatedInst(p.items, MINIMAL_BLOCK_SIZE);
      if o.NoSpace? {
        WrittenGrows(b, pre);
        GrowsTransitive(b, c, View());
      }
    }

    /** The part of writePatch in front of the patch. */
    method WriteLeadIn(ps: seq<Patch>, k: nat) returns (o: Outcome, ghost pre: seq<Item>)
      requires Sized(View()) && k < |ps| && ScratchReady(ps, k, scratchEnd, scratch)
      modifies this`position, this`shadowRegistry, this`tagRegistry, this`shadowIdx,
               this`scratch, this`scratchEnd, code
      ensures o.Aborted? ==> o.why == ScratchRegister && AllRegisters() - reserved - ps[k].Busy() == {}
      ensures o.NoSpace? ==>
                && InPage() && Grows(old(View()), View())
                && maxSize - old(position) < LeadSize(ps[k], old(scratch)) + MINIMAL_BLOCK_SIZE
      ensures o.Done? ==>
                && InPage() && IsLeadIn(pre) && CountShadows(pre) == 0
                && old(position) + |Bytes(pre)| <= maxSize && View() == Written(old(View()), pre)
                && pre == LeadFor(ps[k], old(scratch), scratch) && |Bytes(pre)| == LeadSize(ps[k], old(scratch))
                && (old(scratch) !in ps[k].Busy() ==> scratch == old(scratch))
                && scratch !in ps[k].Busy() && ScratchReady(ps, k + 1, scratchEnd, scratch)
    {
      ghost var b := View();
      pre := [];
      if k != scratchEnd {
        AppendedNothing(b);
        return Done, [];
      }
      var backup := scratch;
      o := InitScratchRegister(ps, k);
      if o.Aborted? {
        return;
      }
      pre := ChangeScratch(backup, scratch);
      LeadInFacts(pre, b.position, U16(|b.patches|), b.shadowIdx);
      o := ApplyRelocatedInst(ChangeScratch(backup, scratch), MINIMAL_BLOCK_SIZE);
    }

    // ----------------------------------------------------------------------
    // Registries
    // ----------------------------------------------------------------------

    /** The entries of the marker registry between the offsets of an instruction. */
    method TagSlice(instID: nat) returns (r: seq<TagInfo>)
      requires instID < |insts| && insts[instID].tagOffset + insts[instID].tagSize <= |tagRegistry|
      ensures r == tagRegistry[insts[instID].tagOffset..insts[instID].tagOffset + insts[instID].tagSize]
    {
      if insts[instID].tagOffset == |tagRegistry| {
        return [];
      }
      return tagRegistry[insts[instID].tagOffset..insts[instID].tagOffset + insts[instID].tagSize];
    }

    /** Those of them with the tag. */
    method TagSliceWith(instID: nat, tag: nat) returns (r: seq<TagInfo>)
      requires instID < |insts| && insts[instID].tagOffset + insts[instID].tagSize <= |tagRegistry|
      ensures r == WithTag(tagRegistry[insts[instID].tagOffset..insts[instID].tagOffset + insts[instID].tagSize], tag)
    {
      var tags := TagSlice(instID);
      r := [];
      for i := 0 to |tags|
        invariant r == WithTag(tags[..i], tag)
      {
        assert tags[..i + 1] == tags[..i] + [tags[i]];
        WithTagConcat(tags[..i], [tags[i]], tag);
        assert [tags[i]][1..] == [];
        if tags[i].tag == tag {
          r := r + [tags[i]];
        }
      }
      assert tags[..|tags|] == tags;
    }

    /** The markers of an instruction: those of its patch, at the offsets they were written at. */
    method GetTagByInst(instID: nat) returns (r: seq<TagInfo>)
      requires BlockValid(View()) && instID < |insts|
      ensures |patches| == |insts| && TagsOf(r, patches[instID], insts[instID].offset)
    {
      BodyIs(View());
      assert InstMarked(View(), instID);
      r := TagSlice(instID);
    }

    /** The markers of its patch with the tag. */
    method QueryTagByInst(instID: nat, tag: nat) returns (r: seq<TagInfo>)
      requires BlockValid(View()) && instID < |insts|
      ensures |patches| == |insts|
      ensures tag != TAG_CHANGE_SCRATCH ==> r == WithTag(TagsAt(patches[instID].items, insts[instID].offset), tag)
      ensures tag == TAG_PATCH_BEGIN ==> r == [TagInfo(TAG_PATCH_BEGIN, insts[instID].offset)]
      ensures tag == TAG_INST_END ==> r == [TagInfo(TAG_INST_END, insts[instID].offsetSkip)]
    {
      ghost var b := View();
      BodyIs(b);
      assert InstMarked(b, instID) && InstLaid(b, instID);
      r := TagSliceWith(instID, tag);
      MarkersOf(b, instID, tag);
    }

    /** The bookkeeping of writeSequence for a complete patch whose markers start at
        `rollbackTag`. Its aborts cannot happen when there is one begin and one end marker. */
    method RegisterInstruction(p: Patch, seqID: nat, rollbackTag: nat, rollbackShadow: nat) returns (o: Outcome)
      requires rollbackTag <= |tagRegistry| < WORD16 && rollbackShadow <= |shadowRegistry|
      modifies this`patches, this`insts
      ensures var begin := WithTag(tagRegistry[rollbackTag..], TAG_PATCH_BEGIN);
              var end := WithTag(tagRegistry[rollbackTag..], TAG_INST_END);
              if |begin| != 1 then o == Aborted(BeginTag)
              else if |end| != 1 then o == Aborted(EndTag)
              else
                && o == Done
                && patches == old(patches) + [p]
                && insts == old(insts) + [NewInst(seqID, begin[0].offset, end[0].offset, rollbackShadow, |shadowRegistry|,
                                                  rollbackTag, |tagRegistry|, scratch)]
    {
      patches := patches + [p];
      insts := insts + [NewInst(seqID, 0, 0, rollbackShadow, |shadowRegistry|, rollbackTag, |tagRegistry|, 0)];
      var last := |insts| - 1;
      Fits16(rollbackTag);
      Fits16(|tagRegistry| - rollbackTag);
      assert tagRegistry[rollbackTag..|tagRegistry|] == tagRegistry[rollbackTag..];
      var begin := TagSliceWith(last, TAG_PATCH_BEGIN);
      if |begin| != 1 {
        return Aborted(BeginTag);
      }
      insts := insts[last := insts[last].(offset := begin[0].offset)];
      var end := TagSliceWith(last, TAG_INST_END);
      if |end| != 1 {
        return Aborted(EndTag);
      }
      insts := insts[last := insts[last].(offsetSkip := end[0].offset)];
      insts := insts[last := insts[last].(sr := scratch)];
      o := Done;
    }

    /** Undoes an incomplete patch. */
    method Rollback(offset: nat, shadow: nat, shadows: nat, tags: nat, ghost b: Block)
      requires BodyValid(b) && Grows(b, View()) && position <= maxSize
      requires View() == b.(page := code[..], position := position, shadowRegistry := shadowRegistry,
                            tagRegistry := tagRegistry, shadowIdx := shadowIdx, isFull := isFull)
      requires offset == b.position && shadow == b.shadowIdx && shadows == |b.shadowRegistry| && tags == |b.tagRegistry|
      modifies this`position, this`shadowRegistry, this`tagRegistry, this`shadowIdx
      ensures Restored(b, View()) && BodyValid(View())
    {
      ghost var hi := position;
      position := offset;
      shadowIdx := shadow;
      shadowRegistry := shadowRegistry[..shadows];
      tagRegistry := tagRegistry[..tags];
      RestoredValid(b, View(), hi);
    }

    /** One round of the loop of writeSequence: patch k is written and registered, or the page
        is rolled back to the state before it. */
    method WriteOrRollback(ps: seq<Patch>, k: nat, seqID: nat) returns (o: Outcome)
      requires BodyValid(View()) && k < |ps| && WellFormed(ps[k]) && ScratchReady(ps, k, scratchEnd, scratch)
      modifies this`position, this`shadowRegistry, this`tagRegistry, this`shadowIdx, this`isFull,
               this`scratch, this`scratchEnd, this`patches, this`insts, code
      ensures o.Aborted? ==>
                || (o.why == ShadowAllocation && shadowCapacity < old(shadowIdx) + CountShadows(ps[k].items))
                || (o.why == ScratchRegister && AllRegisters() - reserved - ps[k].Busy() == {})
      ensures !o.Aborted? ==> BodyValid(View()) && SameOutside(old(code[..]), code[..], old(position), maxSize)
      ensures o.NoSpace? ==>
                && Restored(old(View()), View())
                && isFull == (old(isFull) || maxSize - position <= MINIMAL_BLOCK_SIZE)
                && scratch == old(scratch) && scratchEnd == old(scratchEnd)
                && maxSize - position < LeadSize(ps[k], scratch) + |Bytes(ps[k].items)| + MINIMAL_BLOCK_SIZE
      ensures o.Done? ==>
                && patches == old(patches) + [ps[k]]
                && |insts| == |old(insts)| + 1 && old(insts) <= insts
                && insts[|old(insts)|].seqID == seqID && insts[|old(insts)|].sr == scratch
                && position == old(position) + LeadSize(ps[k], old(scratch)) + |Bytes(ps[k].items)|
                && position == insts[|old(insts)|].offset + |Bytes(ps[k].items)|
                && MINIMAL_BLOCK_SIZE <= maxSize - position
                && shadowIdx == old(shadowIdx) + CountShadows(ps[k].items)
                && ScratchReady(ps, k + 1, scratchEnd, scratch)
      ensures o.Done? ==> isFull == old(isFull) && LedIn(old(View()), View(), old(scratch))
    {
      ghost var b := View();
      var rollbackOffset, rollbackShadowIdx := position, shadowIdx;
      var rollbackShadow, rollbackTag := |shadowRegistry|, |tagRegistry|;
      ghost var pre;
      o, pre := WritePatch(ps, k);
      if o.Aborted? {
        return;
      }
      if o.NoSpace? {
        Rollback(rollbackOffset, rollbackShadowIdx, rollbackShadow, rollbackTag, b);
        return;
      }
      o := Complete(ps[k], seqID, rollbackTag, rollbackShadow, b, pre, old(scratch));
    }

    /** Registers a complete patch, which was written behind the block b. */
    method Complete(p: Patch, seqID: nat, rollbackTag: nat, rollbackShadow: nat, ghost b: Block, ghost pre: seq<Item>, ghost sr: nat)
      returns (o: Outcome)
      requires BodyValid(b) && PatchWritten(b, View(), pre, p) && scratch !in p.Busy()
      requires pre == LeadFor(p, sr, scratch) && (sr !in p.Busy() ==> scratch == sr)
      requires rollbackTag == |b.tagRegistry| && rollbackShadow == |b.shadowRegistry|
      modifies this`patches, this`insts
      ensures o.Done? && BodyValid(View()) && SameOutside(b.page, code[..], b.position, maxSize)
      ensures patches == b.patches + [p] && |insts| == |b.insts| + 1 && b.insts <= insts
      ensures insts[|b.insts|].seqID == seqID && insts[|b.insts|].sr == scratch
      ensures position == b.position + |Bytes(pre)| + |Bytes(p.items)| == insts[|b.insts|].offset + |Bytes(p.items)|
      ensures shadowIdx == b.shadowIdx + CountShadows(p.items)
      ensures LedIn(b, View(), sr)
    {
      ghost var c := View();
      WrittenFacts(b, c, pre, p);
      o := RegisterInstruction(p, seqID, rollbackTag, rollbackShadow);
      ghost var d := View();
      RecordValid(b, c, pre, p, d, seqID, insts[|b.insts|].offset, insts[|b.insts|].offsetSkip, scratch);
    }

    // ----------------------------------------------------------------------
    // Sequences
    // ----------------------------------------------------------------------

    /** Code that is neither registered nor marked. */
    method WritePlain(items: seq<Item>) returns (o: Outcome)
      requires BodyValid(View())
      requires TagsAt(items, position) == [] && ShadowsAt(items, U16(|patches|), shadowIdx) == []
      modifies this`position, this`shadowRegistry, this`tagRegistry, this`shadowIdx, code
      ensures o.Aborted? ==> o.why == ShadowAllocation && shadowCapacity < old(shadowIdx) + CountShadows(items)
      ensures o.NoSpace? ==> maxSize - old(position) < |Bytes(items)|
      ensures o.Done? ==>
                && BodyValid(View()) && position == old(position) + |Bytes(items)|
                && View() == old(View()).(page := code[..], position := position, shadowIdx := shadowIdx)
                && shadowIdx == old(shadowIdx) + CountShadows(items)
                && SameOutside(old(code[..]), code[..], old(position), position)
                && code[old(position)..position] == Bytes(items)
    {
      ghost var b := View();
      o := ApplyRelocatedInst(items, 0);
      if o.Done? {
        TailValid(b, items);
        OverwriteOutside(b.page, b.position, Bytes(items));
      }
    }

    /** Terminator and jump to the epilogue. The room kept behind every patch is enough. */
    method WriteTail(needTerminator: bool, next: nat) returns (o: Outcome)
      requires BodyValid(View()) && MINIMAL_BLOCK_SIZE <= maxSize - position
      modifies this`position, this`shadowRegistry, this`tagRegistry, this`shadowIdx, code
      ensures o.Done? || (o == Aborted(ShadowAllocation) && shadowCapacity < old(shadowIdx) + 1)
      ensures o.Done? ==>
                && BodyValid(View()) && old(position) <= position <= maxSize
                && View() == old(View()).(page := code[..], position := position, shadowIdx := shadowIdx)
                && SameOutside(old(code[..]), code[..], old(position), position)
                && code[old(position)..position] == TailBytes(needTerminator, next, scratch)
                && shadowIdx <= old(shadowIdx) + 1
    {
      ghost var page, at := code[..], position;
      TailFacts(next, scratch, position, U16(|patches|), shadowIdx);
      if needTerminator {
        o := WritePlain(Terminator(next, scratch));
        if o.NoSpace? {
          return Aborted(TerminatorSpace);
        }
        if o.Aborted? {
          return;
        }
      }
      ghost var mid, middle := code[..], position;
      TailFacts(next, scratch, position, U16(|patches|), shadowIdx);
      o := WritePlain(JmpEpilogue());
      if o.NoSpace? {
        return Aborted(JmpEpilogueSpace);
      }
      if position > maxSize {
        return Aborted(EpilogueOverflow);
      }
      SameOutsideTransitive(page, mid, code[..], at, middle, position);
      TwoParts(mid, code[..], at, middle, position);
    }

    /** The loop of writeSequence. */
    method WritePatches(ps: seq<Patch>, seqID: nat) returns (o: Outcome, k: nat, needTerminator: bool)
      requires BodyValid(View()) && Woven(View()) && !isFull
      requires OpenSequence(View(), |insts|) && ps != [] && seqID == |seqs| && ScratchReady(ps, 0, scratchEnd, scratch)
      requires scratch !in ps[0].Busy()
      requires forall i :: 0 <= i < |ps| ==> WellFormed(ps[i])
      modifies this, code
      ensures o.Aborted? ==>
                || (o.why == ShadowAllocation && shadowCapacity < old(shadowIdx) + TotalShadows(ps))
                || (o.why == ScratchRegister && exists i :: 0 <= i < |ps| && AllRegisters() - reserved - ps[i].Busy() == {})
      ensures o.NoSpace? ==>
                && BodyValid(View()) && Restored(old(View()), View())
                && maxSize - position < |Bytes(ps[0].items)| + MINIMAL_BLOCK_SIZE
      ensures o.Done? ==> 1 <= k <= |ps| && Adding(old(View()), View(), ps, k, scratch)
      ensures !o.Aborted? ==> Woven(View()) && (isFull <==> k < |ps| && maxSize - position <= MINIMAL_BLOCK_SIZE)
      ensures o.Done? ==> (needTerminator <==> k < |ps| || !ps[k - 1].insn.modifiesPC)
      ensures o.NoSpace? ==> k == 0
      ensures o.Done? ==> shadowIdx + TotalShadows(ps[k..]) <= old(shadowIdx) + TotalShadows(ps)
      ensures o.Done? ==> |Bytes(ps[0].items)| + MINIMAL_BLOCK_SIZE <= maxSize - old(position)
      ensures o.Done? && k < |ps| ==>
                maxSize - position < LeadSize(ps[k], scratch) + |Bytes(ps[k].items)| + MINIMAL_BLOCK_SIZE
    {
      ghost var b := View();
      var startOffset := position;
      needTerminator := true;
      k := 0;
      AddingIs(b, b, ps, 0, scratch);
      while k < |ps|
        invariant 0 <= k <= |ps| && BodyValid(View()) && Woven(View()) && !isFull
        invariant k > 0 ==> (needTerminator <==> !ps[k - 1].insn.modifiesPC)
        invariant ScratchReady(ps, k, scratchEnd, scratch)
        invariant Adding(b, View(), ps, k, scratch) && startOffset <= position
        invariant k == 0 <==> position == startOffset
        invariant k == 0 ==> View() == b && scratch == old(scratch)
        invariant k > 0 ==> |Bytes(ps[0].items)| + MINIMAL_BLOCK_SIZE <= maxSize - b.position
        invariant shadowIdx + TotalShadows(ps[k..]) <= b.shadowIdx + TotalShadows(ps)
      {
        ShadowsLeft(ps, k);
        o := AddPatch(ps, k, seqID, b);
        if o.Aborted? {
          return;
        }
        if o.NoSpace? {
          if position != startOffset {
            needTerminator := true;
            o := Done;
          }
          return;
        }
        needTerminator := !ps[k].insn.modifiesPC;
        k := k + 1;
      }
      o := Done;
    }

    /** One turn of the loop: patch k is added, or the block is as it was. */
    method AddPatch(ps: seq<Patch>, k: nat, seqID: nat, ghost b: Block) returns (o: Outcome)
      requires BodyValid(View()) && Woven(View())
      requires k < |ps| && WellFormed(ps[k]) && ScratchReady(ps, k, scratchEnd, scratch)
      requires OpenSequence(b, |b.insts|) && seqID == |b.seqs|
      requires Adding(b, View(), ps, k, scratch)
      modifies this`position, this`shadowRegistry, this`tagRegistry, this`shadowIdx, this`isFull,
               this`scratch, this`scratchEnd, this`patches, this`insts, code
      ensures o.Aborted? ==>
                || (o.why == ShadowAllocation && shadowCapacity < old(shadowIdx) + CountShadows(ps[k].items))
                || (o.why == ScratchRegister && AllRegisters() - reserved - ps[k].Busy() == {})
      ensures !o.Aborted? ==> BodyValid(View()) && Woven(View())
      ensures o.NoSpace? ==>
                && Restored(old(View()), View()) && scratch == old(scratch)
                && isFull == (old(isFull) || maxSize - position <= MINIMAL_BLOCK_SIZE)
                && (k > 0 ==> Adding(b, View(), ps, k, scratch))
                && maxSize - position < LeadSize(ps[k], scratch) + |Bytes(ps[k].items)| + MINIMAL_BLOCK_SIZE
      ensures o.Done? ==>
                && Adding(b, View(), ps, k + 1, scratch) && ScratchReady(ps, k + 1, scratchEnd, scratch)
                && old(position) < position
                && shadowIdx == old(shadowIdx) + CountShadows(ps[k].items) && isFull == old(isFull)
                && |Bytes(ps[k].items)| + MINIMAL_BLOCK_SIZE <= maxSize - old(position)
    {
      ghost var c, sr := View(), scratch;
      AddingIs(b, c, ps, k, sr);
      o := WriteOrRollback(ps, k, seqID);
      if o.NoSpace? {
        WovenStays(c, View());
        if k > 0 {
          AddedRestored(b, c, View(), ps, k, scratch);
          AddingIs(b, View(), ps, k, scratch);
        }
      }
      if o.Done? {
        AddedOne(b, c, View(), ps, k, sr);
        AddedBehind(b, c, View(), ps, k, sr);
        AddingIs(b, View(), ps, k + 1, scratch);
      }
    }

    /** The end of writeSequence: tail code and registration of the sequence. */
    method FinishSequence(ps: seq<Patch>, k: nat, startInstID: nat, needTerminator: bool, ghost b: Block)
      returns (o: Outcome)
      requires PatchesAdded(b, View(), ps, k, scratch) && startInstID == |b.insts|
      requires Woven(View()) && Brimful(View()) && (!needTerminator ==> ps[k - 1].insn.modifiesPC)
      requires base == b.base && shadowCapacity == b.shadowCapacity
      modifies this`position, this`shadowRegistry, this`tagRegistry, this`shadowIdx, this`seqs, code
      ensures o.Done? || (o == Aborted(ShadowAllocation) && shadowCapacity < old(shadowIdx) + 1)
      ensures o.Done? ==>
                && BlockValid(View()) && SequenceAdded(b, View(), ps, k) && old(position) <= position
                && SameOutside(b.page, code[..], b.position, maxSize)
                && code[old(position)..position] == TailBytes(needTerminator, ps[k - 1].insn.End(), scratch)
                && shadowIdx <= old(shadowIdx) + 1
    {
      ghost var c := View();
      assert patches[|patches| - 1] == ps[..k][k - 1];
      o := WriteTail(needTerminator, patches[|patches| - 1].insn.End());
      if o.Aborted? {
        return;
      }
      ghost var d := View();
      Fits16(|patches|);
      seqs := seqs + [SeqInfo(startInstID, U16(|patches|) - 1, ps[0].insn.key.mode, insts[startInstID].sr)];
      AddedWoven(b, c, d, View(), ps, k, scratch, needTerminator);
      AddedSequence(b, c, d, View(), ps, k, scratch);
      SameOutsideEnd(b.page, c.page, d.page, b.position, c.position, d.position, maxSize);
    }

    /** Writes as many of the patches as fit, as one sequence. */
    method WriteSequence(ps: seq<Patch>) returns (o: Outcome, res: SeqWriteResult)
      requires BlockValid(View()) && |seqs| < EXEC_BLOCK_FULL
      requires forall i :: 0 <= i < |ps| ==> WellFormed(ps[i])
      modifies this, code
      ensures !o.NoSpace?
      ensures o.Aborted? ==>
                || (o.why == ShadowAllocation && shadowCapacity < old(shadowIdx) + TotalShadows(ps) + 1)
                || (o.why == ScratchRegister && exists i :: 0 <= i < |ps| && AllRegisters() - reserved - ps[i].Busy() == {})
      ensures o.Done? ==> BlockValid(View()) && SameOutside(old(code[..]), code[..], old(position), maxSize)
      ensures o.Done? ==>
                (res.seqID == EXEC_BLOCK_FULL <==>
                 ps == [] || maxSize - old(position) < |Bytes(ps[0].items)| + MINIMAL_BLOCK_SIZE)
      ensures o.Done? ==> res.bytesWritten == position - old(position)
      ensures o.Done? && res.seqID == EXEC_BLOCK_FULL ==>
                && Restored(old(View()), View()) && res.patchWritten == 0
                && (isFull <==> old(isFull) || (ps != [] && maxSize - position <= MINIMAL_BLOCK_SIZE))
      ensures o.Done? && res.seqID != EXEC_BLOCK_FULL ==>
                && res.seqID == |old(seqs)| && SequenceAdded(old(View()), View(), ps, res.patchWritten)
                && shadowIdx + TotalShadows(ps[res.patchWritten..]) <= old(shadowIdx) + TotalShadows(ps) + 1
                && exists end: nat :: LastEnd(insts, ps, res.patchWritten, scratch, end)
                               && TailedAt(View(), ps, res.patchWritten, scratch, end)
                               && (isFull <==> res.patchWritten < |ps| && maxSize - end <= MINIMAL_BLOCK_SIZE)
                               && (res.patchWritten < |ps| ==>
                                     maxSize - end < LeadSize(ps[res.patchWritten], scratch)
                                                     + |Bytes(ps[res.patchWritten].items)| + MINIMAL_BLOCK_SIZE)
    {
      ghost var b := View();
      var startOffset, startInstID := position, U16(|patches|);
      var seqID := U16(|seqs|);
      Fits16(|seqs|);
      Fits16(|patches|);
      res := SeqWriteResult(EXEC_BLOCK_FULL, 0, 0);
      if isFull || ps == [] {
        assert ps != [] ==> WellFormed(ps[0]);
        return Done, res;
      }
      var k;
      ghost var end;
      o, k, end := WriteFitting(ps, seqID, startInstID);
      if o.Aborted? {
        return;
      }
      if o.NoSpace? {
        return Done, res;
      }
      return Done, SeqWriteResult(seqID, position - startOffset, k);
    }

    /** Writes the first k patches, which is as many as fit, and the tail code; `end` is where the
        code of the last one ends. */
    method WriteFitting(ps: seq<Patch>, seqID: nat, startInstID: nat) returns (o: Outcome, k: nat, ghost end: nat)
      requires BlockValid(View()) && !isFull && ps != [] && seqID == |seqs| && startInstID == |insts|
      requires forall i :: 0 <= i < |ps| ==> WellFormed(ps[i])
      modifies this, code
      ensures o.Aborted? ==>
                || (o.why == ShadowAllocation && shadowCapacity < old(shadowIdx) + TotalShadows(ps) + 1)
                || (o.why == ScratchRegister && exists i :: 0 <= i < |ps| && AllRegisters() - reserved - ps[i].Busy() == {})
      ensures !o.Aborted? ==> BlockValid(View()) && SameOutside(old(code[..]), code[..], old(position), maxSize)
      ensures !o.Aborted? ==> (o.NoSpace? <==> maxSize - old(position) < |Bytes(ps[0].items)| + MINIMAL_BLOCK_SIZE)
      ensures o.NoSpace? ==> Restored(old(View()), View()) && (isFull <==> maxSize - position <= MINIMAL_BLOCK_SIZE)
      ensures o.Done? ==> k <= |ps| && shadowIdx + TotalShadows(ps[k..]) <= old(shadowIdx) + TotalShadows(ps) + 1
      ensures o.Done? ==> TailedAt(View(), ps, k, scratch, end) && (isFull <==> k < |ps| && maxSize - end <= MINIMAL_BLOCK_SIZE)
      ensures o.Done? ==> SequenceAdded(old(View()), View(), ps, k) && LastEnd(insts, ps, k, scratch, end) && old(position) <= position
      ensures o.Done? && k < |ps| ==>
                maxSize - end < LeadSize(ps[k], scratch) + |Bytes(ps[k].items)| + MINIMAL_BLOCK_SIZE
    {
      k, end := 0, 0;
      o := InitScratchRegister(ps, 0);
      if o.Done? {
        o, k, end := WriteChosen(ps, seqID, startInstID);
      }
    }

    /** The same with a scratch register chosen. */
    method WriteChosen(ps: seq<Patch>, seqID: nat, startInstID: nat) returns (o: Outcome, k: nat, ghost end: nat)
      requires BlockValid(View()) && !isFull && ps != [] && seqID == |seqs| && startInstID == |insts|
      requires forall i :: 0 <= i < |ps| ==> WellFormed(ps[i])
      requires ScratchReady(ps, 0, scratchEnd, scratch) && scratch !in ps[0].Busy()
      modifies this, code
      ensures o.Aborted? ==>
                || (o.why == ShadowAllocation && shadowCapacity < old(shadowIdx) + TotalShadows(ps) + 1)
                || (o.why == ScratchRegister && exists i :: 0 <= i < |ps| && AllRegisters() - reserved - ps[i].Busy() == {})
      ensures !o.Aborted? ==> BlockValid(View()) && SameOutside(old(code[..]), code[..], old(position), maxSize)
      ensures !o.Aborted? ==> (o.NoSpace? <==> maxSize - old(position) < |Bytes(ps[0].items)| + MINIMAL_BLOCK_SIZE)
      ensures o.NoSpace? ==> Restored(old(View()), View()) && (isFull <==> maxSize - position <= MINIMAL_BLOCK_SIZE)
      ensures o.Done? ==> k <= |ps| && shadowIdx + TotalShadows(ps[k..]) <= old(shadowIdx) + TotalShadows(ps) + 1
      ensures o.Done? ==> TailedAt(View(), ps, k, scratch, end) && (isFull <==> k < |ps| && maxSize - end <= MINIMAL_BLOCK_SIZE)
      ensures o.Done? ==> SequenceAdded(old(View()), View(), ps, k) && LastEnd(insts, ps, k, scratch, end) && old(position) <= position
      ensures o.Done? && k < |ps| ==>
                maxSize - end < LeadSize(ps[k], scratch) + |Bytes(ps[k].items)| + MINIMAL_BLOCK_SIZE
    {
      ghost var b := View();
      end := 0;
      var needTerminator;
      OpenAtEnd(b);
      o, k, needTerminator := WritePatches(ps, seqID);
      if o.Aborted? {
        return;
      }
      if o.NoSpace? {
        RestoredSequences(b, View());
        return;
      }
      end := position;
      AddingIs(b, View(), ps, k, scratch);
      o := FinishSequence(ps, k, startInstID, needTerminator, b);
    }

    /** Makes the rest of a sequence, from instID on, a sequence of its own. The new sequence
        starts with the scratch register recorded for instID. */
    method SplitSequence(instID: nat) returns (newSeqID: nat)
      requires BlockValid(View()) && instID < |insts| && |seqs| + 1 < WORD16
      modifies this`seqs
      ensures BlockValid(View()) && newSeqID == |old(seqs)|
      ensures var q := old(seqs)[insts[instID].seqID];
              seqs == old(seqs) + [SeqInfo(instID, q.endInstID, q.mode, insts[instID].sr)]
    {
      ghost var b := View();
      var seqID := insts[instID].seqID;
      seqs := seqs + [SeqInfo(instID, seqs[seqID].endInstID, seqs[seqID].mode, insts[instID].sr)];
      SplitValid(b, View(), instID);
      WovenSplit(b, View(), instID);
      BodyWithoutSequences(b, View());
      Fits16(|seqs|);
      return U16(|seqs|) - 1;
    }

    /** Prepares the host state so that the next execution starts with the sequence. */
    method SelectSeq(seqID: nat)
      requires BlockValid(View()) && seqID < |seqs|
      modifies this`currentSeq, this`currentInst, this`currentScratch, this`selector
      ensures currentSeq == seqID && currentInst == seqs[seqID].startInstID < |insts| == |patches|
      ensures currentScratch == insts[currentInst].sr && currentScratch !in patches[currentInst].Busy()
      ensures AtCode(selector, base, code[..], patches[currentInst])
      ensures ExecutedAt(View(), seqID, selector)
    {
      ghost var b := View();
      SequenceInPlace(b, seqID);
      SequenceStart(b, seqID);
      var first := seqs[seqID];
      currentSeq, currentInst, currentScratch := seqID, first.startInstID, first.sr;
      selector := base + insts[first.startInstID].offset;
      assert View() == b;
    }

    /** The shadows of an instruction: those of its patch, and all that the registry has for it. */
    method GetShadowByInst(instID: nat) returns (r: seq<ShadowInfo>)
      requires BlockValid(View()) && instID < |insts|
      ensures |patches| == |insts| && ShadowsOf(r, patches[instID], instID)
      ensures r == OfInst(shadowRegistry, instID)
    {
      ghost var b := View();
      BodyIs(b);
      assert InstMarked(b, instID);
      SliceIsFilter(b, instID);
      var lo, n := insts[instID].shadowOffset, insts[instID].shadowSize;
      assert lo + n == b.ShadowStart(instID + 1);
      if lo == |shadowRegistry| {
        return [];
      }
      return shadowRegistry[lo..lo + n];
    }

    /** Looks through the whole registry. For one instruction, that finds the shadows of its patch. */
    method QueryShadowByInst(instID: nat, tag: nat) returns (r: seq<ShadowInfo>)
      ensures r == Matching(shadowRegistry, instID, tag)
      ensures BlockValid(View()) && instID < |insts| ==>
                exists own :: ShadowsOf(own, patches[instID], instID) && r == Matching(own, ANY, tag)
    {
      r := [];
      for i := 0 to |shadowRegistry|
        invariant r == Matching(shadowRegistry[..i], instID, tag)
      {
        assert shadowRegistry[..i + 1] == shadowRegistry[..i] + [shadowRegistry[i]];
        MatchingConcat(shadowRegistry[..i], [shadowRegistry[i]], instID, tag);
        MatchingOne(shadowRegistry[i], instID, tag);
        if (instID == ANY || shadowRegistry[i].instID == instID) && (tag == ANY || shadowRegistry[i].tag == tag) {
          r := r + [shadowRegistry[i]];
        }
      }
      assert shadowRegistry[..|shadowRegistry|] == shadowRegistry;
      if BlockValid(View()) && instID < |insts| {
        ghost var own := OwnShadows(View(), instID, tag);
      }
    }

    /** The instruction whose code holds a JIT address: the answer is i exactly when the address
        lies between the code of i and the code of the next instruction. */
    method GetPatchAddressOfJit(address: nat) returns (r: nat)
      requires BlockValid(View())
      ensures r == NOT_FOUND || r < |insts|
      ensures r < |insts| <==> |insts| > 0 && base + insts[0].offset <= address < base + position
      ensures forall i :: 0 <= i < |insts| ==> (r == i <==> InCodeOf(View(), i, address))
    {
      ghost var b := View();
      OffsetsGrow(b);
      if address >= base + position || |insts| == 0 || address < base + insts[0].offset {
        OutsideJit(b, address);
        return NOT_FOUND;
      }
      var target := U16(address - base);
      Fits16(address - base);
      var low := LowerBoundOffset(insts, target);
      InsideJit(b, address, low);
      return low - 1;
    }
  }

  /** The first instruction of a sequence has its code and its scratch register. */
  lemma SequenceStart(b: Block, s: nat)
    requires BlockValid(b) && s < |b.seqs|
    ensures var i := b.seqs[s].startInstID;
            && i < |b.insts| == |b.patches| && b.seqs[s].sr == b.insts[i].sr && b.insts[i].sr !in b.patches[i].Busy()
            && AtCode(b.base + b.insts[i].offset, b.base, b.page, b.patches[i])
  {
    BodyIs(b);
    assert SequenceOk(b, s);
    assert InstLaid(b, b.seqs[s].startInstID);
  }

  /** In a valid block, the markers registered for an instruction are those of its patch. */
  lemma {:induction false} MarkersOf(b: Block, i: nat, tag: nat)
    requires i < |b.insts| == |b.patches| && InstMarked(b, i) && WellFormed(b.patches[i]) && b.insts[i].offset < WORD16
    ensures var x := b.insts[i];
            var own := WithTag(b.tagRegistry[x.tagOffset..x.tagOffset + x.tagSize], tag);
            && (tag != TAG_CHANGE_SCRATCH ==> own == WithTag(TagsAt(b.patches[i].items, x.offset), tag))
            && (tag == TAG_PATCH_BEGIN ==> own == [TagInfo(TAG_PATCH_BEGIN, x.offset)])
  {
    var x, p := b.insts[i], b.patches[i];
    var tags := b.tagRegistry[x.tagOffset..x.tagOffset + x.tagSize];
    if tags != TagsAt(p.items, x.offset) {
      var lead := [TagInfo(TAG_CHANGE_SCRATCH, x.offset - CHANGE_SIZE)];
      WithTagConcat(lead, TagsAt(p.items, x.offset), tag);
      assert tag != TAG_CHANGE_SCRATCH ==> WithTag(lead, tag) == WithTag(lead[1..], tag) == [];
    }
    if tag == TAG_PATCH_BEGIN {
      WithTagCount(p.items, x.offset, TAG_PATCH_BEGIN);
      FirstMarker(p.items, x.offset);
    }
  }

  /** What looking for an instruction and a tag finds in one entry; with the next lemma, in any list. */
  lemma MatchingOne(x: ShadowInfo, instID: nat, tag: nat)
    ensures Matching([x], instID, tag) ==
            if (instID == ANY || x.instID == instID) && (tag == ANY || x.tag == tag) then [x] else []
  {
    assert [x][1..] == [];
  }

  lemma {:induction false} MatchingConcat(a: seq<ShadowInfo>, b: seq<ShadowInfo>, instID: nat, tag: nat)
    ensures Matching(a + b, instID, tag) == Matching(a, instID, tag) + Matching(b, instID, tag)
  {
    if a == [] {
      assert a + b == b;
    } else {
      assert (a + b)[1..] == a[1..] + b;
      MatchingConcat(a[1..], b, instID, tag);
    }
  }

  /** Looking for an instruction and a tag is looking for the tag among those of the instruction. */
  lemma {:induction false} MatchingTwice(a: seq<ShadowInfo>, instID: nat, tag: nat)
    requires instID != ANY
    ensures Matching(a, instID, tag) == Matching(OfInst(a, instID), ANY, tag)
  {
    if a != [] {
      MatchingTwice(a[1..], instID, tag);
      if a[0].instID == instID {
        assert OfInst(a, instID)[1..] == OfInst(a[1..], instID);
      }
    }
  }

  lemma OwnShadows(b: Block, instID: nat, tag: nat) returns (own: seq<ShadowInfo>)
    requires BlockValid(b) && instID < |b.insts|
    ensures ShadowsOf(own, b.patches[instID], instID) && Matching(b.shadowRegistry, instID, tag) == Matching(own, ANY, tag)
  {
    BodyIs(b);
    assert InstMarked(b, instID);
    SliceIsFilter(b, instID);
    own := OfInst(b.shadowRegistry, instID);
    var x := b.insts[instID];
    assert x.shadowOffset + x.shadowSize == b.ShadowStart(instID + 1);
    MatchingTwice(b.shadowRegistry, instID, tag);
  }

  /** `std::lower_bound` over the offsets: the first instruction that starts behind the target. */
  method LowerBoundOffset(insts: seq<InstInfo>, target: nat) returns (low: nat)
    requires forall i, j :: 0 <= i < j < |insts| ==> insts[i].offset < insts[j].offset
    ensures low <= |insts|
    ensures forall i :: 0 <= i < |insts| ==> (i < low <==> insts[i].offset <= target)
  {
    low := 0;
    var count := |insts|;
    while count > 0
      invariant 0 <= low && 0 <= count && low + count <= |insts|
      invariant forall i :: 0 <= i < low ==> insts[i].offset <= target
      invariant forall i :: low + count <= i < |insts| ==> target < insts[i].offset
    {
      var step := count / 2;
      if insts[low + step].offset <= target {
        low, count := low + step + 1, count - step - 1;
      } else {
        count := step;
      }
    }
  }

  /** The JIT address lies between the code of i and the code of the next instruction. */
  ghost predicate InCodeOf(b: Block, i: nat, address: nat)
    requires i < |b.insts|
  {
    b.base + b.insts[i].offset <= address < b.base + b.OffsetOf(i + 1)
  }

  /** The instrumented address of an instruction lies in its own code and in no other. */
  lemma JitRoundTrip(b: Block, i: nat, j: nat)
    requires BlockValid(b) && i < |b.insts| && j < |b.insts|
    ensures InCodeOf(b, j, b.base + b.insts[i].offset) <==> i == j
  {
    OffsetsGrow(b);
    assert j + 1 < |b.insts| ==> b.OffsetOf(j + 1) == b.insts[j + 1].offset;
  }

  lemma OutsideJit(b: Block, address: nat)
    requires BlockValid(b)
    requires b.base + b.position <= address || |b.insts| == 0 || address < b.base + b.insts[0].offset
    ensures forall i :: 0 <= i < |b.insts| ==> !InCodeOf(b, i, address)
  {
    OffsetsGrow(b);
  }

  lemma InsideJit(b: Block, address: nat, low: nat)
    requires BlockValid(b) && |b.insts| > 0 && b.base + b.insts[0].offset <= address < b.base + b.position
    requires low <= |b.insts|
    requires forall i :: 0 <= i < |b.insts| ==> (i < low <==> b.insts[i].offset <= address - b.base)
    ensures 0 < low
    ensures forall i :: 0 <= i < |b.insts| ==> (i == low - 1 <==> InCodeOf(b, i, address))
  {
    forall i | 0 <= i < |b.insts|
      ensures i == low - 1 <==> InCodeOf(b, i, address)
    {
      if i + 1 < |b.insts| {
        assert b.OffsetOf(i + 1) == b.insts[i + 1].offset;
      }
    }
  }

  lemma OffsetsGrow(b: Block)
    requires BlockValid(b)
    ensures forall i, j :: 0 <= i < j < |b.insts| ==> b.insts[i].offset < b.insts[j].offset
    ensures forall i, j :: 0 <= i < j <= |b.insts| ==> b.insts[i].offset < b.OffsetOf(j)
    ensures forall j :: 0 <= j <= |b.insts| ==> b.OffsetOf(j) <= b.position
  {
    BodyIs(b);
    forall i, j | 0 <= i < j <= |b.insts|
      ensures b.insts[i].offset < b.OffsetOf(j)
    {
      assert InstLaid(b, i);
    }
    forall i, j | 0 <= i < j < |b.insts|
      ensures b.insts[i].offset < b.insts[j].offset
    {
      assert b.OffsetOf(j) == b.insts[j].offset;
    }
    forall j | 0 <= j <= |b.insts|
      ensures b.OffsetOf(j) <= b.position
    {
      if j < |b.insts| {
        assert InstLaid(b, j);
      }
    }
  }

  lemma ShadowsLeft(ps: seq<Patch>, k: nat)
    requires k < |ps|
    ensures TotalShadows(ps[k..]) == CountShadows(ps[k].items) + TotalShadows(ps[k + 1..])
  {
    assert ps[k..][1..] == ps[k + 1..];
  }

  /** Code written behind other code. */
  lemma TwoParts(a: seq<int>, b: seq<int>, lo: nat, mid: nat, hi: nat)
    requires SameOutside(a, b, mid, hi) && lo <= mid
    ensures b[lo..hi] == a[lo..mid] + b[mid..hi]
  {
    assert b[lo..mid] == b[..mid][lo..mid];
    assert a[lo..mid] == a[..mid][lo..mid];
  }

  /** Behind the last patch, whose code ends at `end`, the page has the tail: the guest's program
      counter is set, unless all patches were written and the last one does it, and the page left. */
  ghost predicate TailedAt(b: Block, ps: seq<Patch>, k: nat, sr: nat, end: nat) {
    && 1 <= k <= |ps| && end <= b.position <= |b.page|
    && b.page[end..b.position] ==
       (if k == |ps| && ps[k - 1].insn.modifiesPC then []
        else Bytes(Terminator(ps[k - 1].insn.End(), sr))) + Bytes(JmpEpilogue())
  }

  lemma AddedBehind(b: Block, c: Block, d: Block, ps: seq<Patch>, k: nat, sr: nat)
    requires Sized(c) && Sized(d) && Woven(c) && OpenSequence(c, |b.insts|) && LedIn(c, d, sr)
    requires if k == 0 then c == b else PatchesAdded(b, c, ps, k, sr)
    requires d.patches == c.patches + [d.patches[|c.insts|]] && d.seqs == c.seqs && c.insts <= d.insts
    requires d.insts[|c.insts|].seqID == |c.seqs| && c.position <= d.position && |d.page| == |c.page|
    requires SameOutside(c.page, d.page, c.position, c.maxSize)
    ensures Woven(d)
  {
    if k > 0 {
      var last := |c.insts| - 1;
      assert c.patches[last] == ps[..k][k - 1];
    }
    WovenBehind(c, d, sr);
  }

  /** The last instruction of c is the only one b does not have. Its code stands behind what `sr`
      leads in. */
  ghost predicate LedIn(b: Block, c: Block, sr: nat) {
    && |c.insts| == |b.insts| + 1 == |c.patches|
    && var x, p := c.insts[|b.insts|], c.patches[|b.insts|];
       && x.offset == b.position + |Bytes(LeadFor(p, sr, x.sr))| && HasBytes(c, b.position, Bytes(LeadFor(p, sr, x.sr)))
       && (sr !in p.Busy() ==> x.sr == sr)
  }

  lemma SameOutsideTransitive(a: seq<int>, b: seq<int>, c: seq<int>, lo: nat, mid: nat, hi: nat)
    requires SameOutside(a, b, lo, mid) && SameOutside(b, c, mid, hi)
    ensures SameOutside(a, c, lo, hi)
  {
    assert a[..lo] == b[..mid][..lo] == c[..mid][..lo];
    assert b[hi..] == b[mid..][hi - mid..];
    assert a[hi..] == a[mid..][hi - mid..];
  }

  lemma SameOutsideEnd(a: seq<int>, b: seq<int>, c: seq<int>, lo: nat, mid: nat, hi: nat, end: nat)
    requires SameOutside(a, b, lo, end) && SameOutside(b, c, mid, hi) && lo <= mid && hi <= end
    ensures SameOutside(a, c, lo, end)
  {
    assert b[..lo] == b[..mid][..lo];
    assert c[..lo] == c[..mid][..lo];
    assert b[end..] == b[hi..][end - hi..];
    assert c[end..] == c[hi..][end - hi..];
  }

  lemma RestoredSequences(b: Block, c: Block)
    requires BlockValid(b) && BodyValid(c) && Woven(c) && Brimful(c) && Restored(b, c)
    ensures BlockValid(c)
  {
    forall s | 0 <= s < |c.seqs|
      ensures SequenceOk(c, s)
    {
      assert SequenceOk(b, s);
    }
  }
}
