/** The state of a code page with its registries, as a value (src/ExecBlock/ExecBlock.h). */
module Blocks {
  import opened Guest
  import opened PatchConditions
  import opened Folding

  /** Registries hold 16-bit numbers. */
  const WORD16: nat := 0x1_0000

  function U16(x: nat): nat { x % WORD16 }

  const EXEC_BLOCK_FULL: nat := 0xFFFF
  const NOT_FOUND: nat := 0xFFFF
  const ANY: nat := 0xFFFF

  /** Space kept behind every patch for the terminator and the jump to the epilogue (AArch64). */
  const MINIMAL_BLOCK_SIZE: nat := 0xc

  /** The code that changes the scratch register (AArch64). */
  const CHANGE_SIZE: nat := 24

  const UNTAGGED: nat := 0xFFFF
  const TAG_CHANGE_SCRATCH: nat := 0x1
  const TAG_PATCH_BEGIN: nat := 0x10
  const TAG_INST_END: nat := 0x31

  // ------------------------------------------------------------------------
  // Patches
  // ------------------------------------------------------------------------

  datatype ShadowUse = NoShadow | NewShadow(tag: nat)

  /** A RelocatableInst: a marker, or an instruction whose relocation may allocate a shadow. */
  datatype Item = Tag(tag: nat) | Code(bytes: seq<int>, shadow: ShadowUse)

  /** An instrumentation rule with its identifier. */
  datatype Entry = Entry(id: nat, rule: Rule)

  /** The code generated for one guest instruction. `rules` are the rules it was instrumented
      with, `used` and `temp` the registers of the instruction and of its temporaries. */
  datatype Patch = Patch(insn: Insn, items: seq<Item>, used: set<nat>, temp: set<nat>, rules: seq<Entry>) {

    function Busy(): set<nat> { used + temp }
  }

  function Bytes(items: seq<Item>): seq<int> {
    if items == [] then []
    else if items[0].Code? then items[0].bytes + Bytes(items[1..])
    else Bytes(items[1..])
  }

  function CountTags(items: seq<Item>): nat {
    if items == [] then 0
    else (if items[0].Tag? then 1 else 0) + CountTags(items[1..])
  }

  function CountTag(items: seq<Item>, t: nat): nat {
    if items == [] then 0
    else (if items[0] == Tag(t) then 1 else 0) + CountTag(items[1..], t)
  }

  function CountShadows(items: seq<Item>): nat {
    if items == [] then 0
    else (if items[0].Code? && items[0].shadow.NewShadow? then 1 else 0) + CountShadows(items[1..])
  }

  /** What `finalizeInstsPatch` leaves: one begin tag in front, one end tag, at least one
      instruction, and no more than three markers for each 4-byte instruction. */
  ghost predicate WellFormed(p: Patch) {
    && p.items != [] && p.items[0] == Tag(TAG_PATCH_BEGIN)
    && CountTag(p.items, TAG_PATCH_BEGIN) == 1
    && CountTag(p.items, TAG_INST_END) == 1
    && (forall i :: 0 <= i < |p.items| && p.items[i].Tag? ==> p.items[i].tag < WORD16)
    && 4 <= |Bytes(p.items)| && 4 * CountTags(p.items) <= 3 * |Bytes(p.items)|
  }

  // ------------------------------------------------------------------------
  // Code around patches
  // ------------------------------------------------------------------------

  /** Moves the scratch register: one marker and six instructions. */
  function ChangeScratch(oldSR: nat, newSR: nat): seq<Item> {
    [Tag(TAG_CHANGE_SCRATCH),
     Code([0, oldSR, newSR, 0], NoShadow), Code([1, oldSR, newSR, 0], NoShadow),
     Code([2, oldSR, newSR, 0], NoShadow), Code([3, oldSR, newSR, 0], NoShadow),
     Code([4, oldSR, newSR, 0], NoShadow), Code([5, oldSR, newSR, 0], NoShadow)]
  }

  /** What stands in front of a patch behind code that keeps oldSR: a change, if oldSR is busy. */
  function LeadFor(p: Patch, oldSR: nat, newSR: nat): seq<Item> {
    if oldSR in p.Busy() then ChangeScratch(oldSR, newSR) else []
  }

  /** The room a patch needs for the change in front of it. */
  function LeadSize(p: Patch, sr: nat): nat { if sr in p.Busy() then CHANGE_SIZE else 0 }

  /** Stores the next guest address: a load of the constant, through an untagged shadow when
      it is large, and a store. */
  function Terminator(next: nat, sr: nat): seq<Item> {
    [Code([6, sr, next, 0], if next > 0xFFFF then NewShadow(UNTAGGED) else NoShadow),
     Code([7, sr, 0, 0], NoShadow)]
  }

  function JmpEpilogue(): seq<Item> { [Code([8, 0, 0, 0], NoShadow)] }

  /** The bytes behind the last patch of a sequence. */
  function TailBytes(needTerminator: bool, next: nat, sr: nat): seq<int> {
    (if needTerminator then Bytes(Terminator(next, sr)) else []) + Bytes(JmpEpilogue())
  }

  // ------------------------------------------------------------------------
  // Registries
  // ------------------------------------------------------------------------

  datatype ShadowInfo = ShadowInfo(instID: nat, tag: nat, shadowID: nat)
  datatype TagInfo = TagInfo(tag: nat, offset: nat)
  datatype InstInfo = InstInfo(seqID: nat, offset: nat, offsetSkip: nat,
                               shadowOffset: nat, shadowSize: nat,
                               tagOffset: nat, tagSize: nat, sr: nat)
  datatype SeqInfo = SeqInfo(startInstID: nat, endInstID: nat, mode: Mode, sr: nat)

  datatype SeqWriteResult = SeqWriteResult(seqID: nat, bytesWritten: nat, patchWritten: nat)

  /** The markers registered when the items are written from offset `at` on. */
  function TagsAt(items: seq<Item>, at: nat): seq<TagInfo> {
    if items == [] then []
    else if items[0].Tag? then [TagInfo(U16(items[0].tag), U16(at))] + TagsAt(items[1..], at)
    else TagsAt(items[1..], at + |items[0].bytes|)
  }

  /** The tagged shadows registered for an instruction when `idx` is the next free shadow. */
  function ShadowsAt(items: seq<Item>, instID: nat, idx: nat): seq<ShadowInfo> {
    if items == [] then []
    else if items[0].Code? && items[0].shadow.NewShadow? then
      (if items[0].shadow.tag == UNTAGGED then [] else [ShadowInfo(instID, items[0].shadow.tag, idx)])
      + ShadowsAt(items[1..], instID, idx + 1)
    else ShadowsAt(items[1..], instID, idx)
  }

  function WithTag(tags: seq<TagInfo>, t: nat): seq<TagInfo> {
    if tags == [] then []
    else if tags[0].tag == t then [tags[0]] + WithTag(tags[1..], t)
    else WithTag(tags[1..], t)
  }

  /** The entries for an instruction and a tag, or for any. */
  function Matching(shadows: seq<ShadowInfo>, instID: nat, tag: nat): seq<ShadowInfo> {
    if shadows == [] then []
    else if (instID == ANY || shadows[0].instID == instID) && (tag == ANY || shadows[0].tag == tag)
    then [shadows[0]] + Matching(shadows[1..], instID, tag)
    else Matching(shadows[1..], instID, tag)
  }

  function OfInst(shadows: seq<ShadowInfo>, i: nat): seq<ShadowInfo> {
    if shadows == [] then []
    else if shadows[0].instID == i then [shadows[0]] + OfInst(shadows[1..], i)
    else OfInst(shadows[1..], i)
  }

  /** `patches[i]` is the record of instruction i: its metadata and the code written for it. */
  datatype Block = Block(base: nat, page: seq<int>, position: nat, maxSize: nat, shadowCapacity: nat,
                         shadowRegistry: seq<ShadowInfo>, tagRegistry: seq<TagInfo>, shadowIdx: nat,
                         patches: seq<Patch>, insts: seq<InstInfo>, seqs: seq<SeqInfo>,
                         isFull: bool)
  {
    /** Where the slices of instruction i start; at the end of the registry for the next one. */
    function TagStart(i: nat): nat
      requires i <= |insts|
    {
      if i < |insts| then insts[i].tagOffset else |tagRegistry|
    }

    function ShadowStart(i: nat): nat
      requires i <= |insts|
    {
      if i < |insts| then insts[i].shadowOffset else |shadowRegistry|
    }

    function OffsetOf(i: nat): nat
      requires i <= |insts|
    {
      if i < |insts| then insts[i].offset else position
    }
  }

  /** Counters stay below the 16-bit limit, and the write position below the epilogue. */
  ghost predicate Sized(b: Block) {
    && b.position <= b.maxSize <= |b.page| <= WORD16
    && |b.insts| == |b.patches|
    && 4 * |b.insts| <= b.position
    && 4 * |b.tagRegistry| <= 3 * b.position
    && |b.shadowRegistry| <= b.shadowIdx <= b.shadowCapacity < WORD16
  }

  /** The slices of the instructions tile both registries. */
  ghost predicate Tiled(b: Block) { TagsTiled(b) && ShadowsTiled(b) }

  ghost predicate TagsTiled(b: Block) {
    && b.TagStart(0) == 0
    && (forall i, j :: 0 <= i < |b.insts| && j == i + 1 ==> b.insts[i].tagOffset + b.insts[i].tagSize == b.TagStart(j))
    && (forall i :: 0 <= i <= |b.insts| ==> b.TagStart(i) <= |b.tagRegistry|)
  }

  ghost predicate ShadowsTiled(b: Block) {
    && (forall i, j :: 0 <= i < |b.insts| && j == i + 1 ==>
          b.insts[i].shadowOffset + b.insts[i].shadowSize == b.ShadowStart(j))
    && (forall i :: 0 <= i <= |b.insts| ==> b.ShadowStart(i) <= |b.shadowRegistry|)
    && (forall i, k :: 0 <= i <= |b.insts| && 0 <= k < |b.shadowRegistry| ==>
          (k < b.ShadowStart(i) <==> b.shadowRegistry[k].instID < i))
  }

  /** Each instruction has its code in the page, from its offset on and before the next one. */
  ghost predicate Laid(b: Block)
    requires Sized(b)
  {
    && (forall i :: 0 <= i < |b.insts| ==> InstLaid(b, i))
    && (forall i, j :: 0 <= i < j <= |b.insts| ==>
          && b.insts[i].offset + |Bytes(b.patches[i].items)| <= b.OffsetOf(j)
          && b.insts[i].offsetSkip <= b.OffsetOf(j))
  }

  ghost predicate InstLaid(b: Block, i: nat)
    requires Sized(b) && i < |b.insts|
  {
    var lo, bytes := b.insts[i].offset, Bytes(b.patches[i].items);
    && WellFormed(b.patches[i])
    && lo <= b.insts[i].offsetSkip
    && lo + |bytes| <= b.position && b.page[lo..lo + |bytes|] == bytes
  }

  /** The markers of a patch whose code starts at the offset, behind that of the change of the
      scratch register in front of it, if there is one. */
  ghost predicate TagsOf(tags: seq<TagInfo>, p: Patch, offset: nat) {
    || tags == TagsAt(p.items, offset)
    || (CHANGE_SIZE <= offset && tags == [TagInfo(TAG_CHANGE_SCRATCH, offset - CHANGE_SIZE)] + TagsAt(p.items, offset))
  }

  /** The tagged shadows of a patch, numbered from some shadow on. */
  ghost predicate ShadowsOf(shadows: seq<ShadowInfo>, p: Patch, instID: nat) {
    exists idx :: shadows == ShadowsAt(p.items, instID, idx)
  }

  /** What is registered for each instruction is what its patch has. */
  ghost predicate Marked(b: Block)
    requires |b.insts| == |b.patches|
  {
    forall i :: 0 <= i < |b.insts| ==> InstMarked(b, i)
  }

  ghost predicate InstMarked(b: Block, i: nat)
    requires i < |b.insts| == |b.patches|
  {
    var x := b.insts[i];
    && x.tagOffset + x.tagSize <= |b.tagRegistry| && x.shadowOffset + x.shadowSize <= |b.shadowRegistry|
    && TagsOf(b.tagRegistry[x.tagOffset..x.tagOffset + x.tagSize], b.patches[i], x.offset)
    && ShadowsOf(b.shadowRegistry[x.shadowOffset..x.shadowOffset + x.shadowSize], b.patches[i], i)
    && SkipsTo(b.patches[i], x.offset, x.offsetSkip)
  }

  /** The end marker of a patch whose code starts at the offset is at `skip`. */
  ghost predicate SkipsTo(p: Patch, offset: nat, skip: nat) {
    WithTag(TagsAt(p.items, offset), TAG_INST_END) == [TagInfo(TAG_INST_END, skip)]
  }

  /** No instruction uses the register its code keeps as scratch register. */
  ghost predicate ScratchFree(b: Block)
    requires |b.insts| == |b.patches|
  {
    forall i :: 0 <= i < |b.insts| ==> b.insts[i].sr !in b.patches[i].Busy()
  }

  /** The instructions of a written sequence name it; a split sequence is a suffix of one. */
  ghost predicate Sequenced(b: Block) {
    && (forall i :: 0 <= i < |b.insts| ==>
          && b.insts[i].seqID < |b.seqs|
          && b.seqs[b.insts[i].seqID].startInstID <= i <= b.seqs[b.insts[i].seqID].endInstID)
    && (forall s :: 0 <= s < |b.seqs| ==> SequenceOk(b, s))
  }

  ghost predicate SequenceOk(b: Block, s: nat)
    requires s < |b.seqs|
  {
    var q := b.seqs[s];
    && q.startInstID <= q.endInstID < |b.insts|
    && b.insts[q.startInstID].seqID < |b.seqs|
    && q.endInstID == b.seqs[b.insts[q.startInstID].seqID].endInstID
    && q.mode == b.seqs[b.insts[q.startInstID].seqID].mode
    && q.sr == b.insts[q.startInstID].sr
    && forall j :: q.startInstID <= j <= q.endInstID ==> b.insts[j].seqID == b.insts[q.startInstID].seqID
  }

  /** What holds of the registered instructions, whatever sequences they belong to; folded. */
  ghost predicate BodyValid(b: Block) {
    Sized(b) && forall u {:trigger Asked(APage, u)} :: Asked(APage, u) ==> Tiled(b) && Laid(b) && Marked(b) && ScratchFree(b)
  }

  lemma BodyIs(b: Block)
    ensures BodyValid(b) <==> Sized(b) && Tiled(b) && Laid(b) && Marked(b) && ScratchFree(b)
  {
    assert Asked(APage, 0);
  }

  // ------------------------------------------------------------------------
  // What the code of a sequence is
  // ------------------------------------------------------------------------

  /** Where the code of instruction i ends. */
  function EndOf(b: Block, i: nat): nat
    requires i < |b.insts| == |b.patches|
  {
    b.insts[i].offset + |Bytes(b.patches[i].items)|
  }

  /** The written part of the page has the bytes at the offset. */
  ghost predicate HasBytes(b: Block, at: nat, bytes: seq<int>) {
    at + |bytes| <= b.position <= |b.page| && b.page[at..at + |bytes|] == bytes
  }

  /** The code of instruction j starts where that of i ends, behind a change of the scratch register
      if that of i is busy in j; only then j has another one. */
  ghost predicate Follows(b: Block, i: nat, j: nat)
    requires i < |b.insts| && j < |b.insts| == |b.patches|
  {
    var lead := if b.insts[i].sr in b.patches[j].Busy() then Bytes(ChangeScratch(b.insts[i].sr, b.insts[j].sr)) else [];
    && b.insts[j].offset == EndOf(b, i) + |lead| && HasBytes(b, EndOf(b, i), lead)
    && (b.insts[i].sr !in b.patches[j].Busy() ==> b.insts[j].sr == b.insts[i].sr)
  }

  /** Behind instruction i the guest's program counter gets the address behind it, unless the
      instruction has set it, and the page is left. */
  ghost predicate Tailed(b: Block, i: nat)
    requires i < |b.insts| == |b.patches|
  {
    var x := b.patches[i].insn;
    || HasBytes(b, EndOf(b, i), Bytes(Terminator(x.End(), b.insts[i].sr)) + Bytes(JmpEpilogue()))
    || (x.modifiesPC && HasBytes(b, EndOf(b, i), Bytes(JmpEpilogue())))
  }

  /** The instructions written together follow each other, and every sequence has a tail. */
  ghost predicate Threaded(b: Block)
    requires |b.insts| == |b.patches|
  {
    && (forall i, j :: 0 <= i < j < |b.insts| && j == i + 1 && b.insts[i].seqID == b.insts[j].seqID ==> Follows(b, i, j))
    && (forall s :: 0 <= s < |b.seqs| ==> b.seqs[s].endInstID < |b.insts| && Tailed(b, b.seqs[s].endInstID))
  }

  /** A page is only closed when there is no room for a patch. */
  ghost predicate Brimful(b: Block) { b.isFull ==> b.maxSize - b.position <= MINIMAL_BLOCK_SIZE }

  /** The page can be executed; folded. */
  ghost predicate Woven(b: Block) {
    forall u {:trigger Asked(AThread, u)} :: Asked(AThread, u) ==> |b.insts| == |b.patches| && Threaded(b)
  }

  lemma WovenIs(b: Block)
    ensures Woven(b) <==> |b.insts| == |b.patches| && Threaded(b)
  {
    assert Asked(AThread, 0);
  }

  ghost predicate BlockValid(b: Block) { BodyValid(b) && Sequenced(b) && Woven(b) && Brimful(b) }
}
