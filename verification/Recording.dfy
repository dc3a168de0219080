/** Registering a written patch as an instruction of the page
    (src/ExecBlock/ExecBlock.cpp, the loop of writeSequence). */
module Recording {
  import opened Guest
  import opened Blocks
  import opened PageWrites
  import opened Threading
  import opened Folding

  lemma MarkedSame(b: Block, c: Block)
    requires |b.insts| == |b.patches| && Marked(b)
    requires c.insts == b.insts && c.patches == b.patches
    requires c.tagRegistry == b.tagRegistry && c.shadowRegistry == b.shadowRegistry
    ensures Marked(c)
  {
    forall i | 0 <= i < |c.insts|
      ensures InstMarked(c, i)
    {
      assert InstMarked(b, i);
    }
  }

  /** A registry entry whose slices run from the rollback points to the current ends. */
  function NewInst(seqID: nat, offset: nat, skip: nat, shadow: nat, shadowEnd: nat, tag: nat, tagEnd: nat, sr: nat): InstInfo
    requires shadow <= shadowEnd && tag <= tagEnd
  {
    InstInfo(seqID, offset, skip, U16(shadow), U16(shadowEnd - shadow), U16(tag), U16(tagEnd - tag), sr)
  }

  /** The block after patch p, whose markers and shadows follow those of `b`, was registered
      in `c`. */
  function Recorded(b: Block, c: Block, p: Patch, seqID: nat, offset: nat, skip: nat, sr: nat): Block
    requires |b.shadowRegistry| <= |c.shadowRegistry| && |b.tagRegistry| <= |c.tagRegistry|
  {
    c.(patches := c.patches + [p],
       insts := c.insts + [NewInst(seqID, offset, skip, |b.shadowRegistry|, |c.shadowRegistry|,
                                   |b.tagRegistry|, |c.tagRegistry|, sr)])
  }

  /** The block after a rollback: the page behind the write position is all that may differ. */
  ghost predicate Restored(b: Block, c: Block) {
    && c == b.(page := c.page, isFull := c.isFull)
    && SameOutside(b.page, c.page, b.position, b.maxSize)
  }

  lemma RestoredValid(b: Block, c: Block, hi: nat)
    requires BodyValid(b)
    requires c == b.(page := c.page, isFull := c.isFull)
    requires hi <= b.maxSize && SameOutside(b.page, c.page, b.position, hi)
    ensures Restored(b, c) && BodyValid(c)
  {
    BodyIs(b);
    assert b.page[b.maxSize..] == b.page[hi..][b.maxSize - hi..];
    assert c.page[b.maxSize..] == c.page[hi..][b.maxSize - hi..];
    forall i | 0 <= i < |c.insts|
      ensures InstLaid(c, i)
    {
      assert InstLaid(b, i);
      SamePrefixSlice(b.page, c.page, b.position, b.insts[i].offset, b.insts[i].offset + |Bytes(b.patches[i].items)|);
    }
    assert forall j :: 0 <= j <= |c.insts| ==> b.OffsetOf(j) == c.OffsetOf(j);
    assert Laid(c);
    assert forall j :: 0 <= j <= |c.insts| ==> b.TagStart(j) == c.TagStart(j) && b.ShadowStart(j) == c.ShadowStart(j);
    assert Tiled(c);
    MarkedSame(b, c);
    BodyIs(c);
  }

  // ------------------------------------------------------------------------
  // Markers and shadows of a patch
  // ------------------------------------------------------------------------

  lemma {:induction false} TagsCount(items: seq<Item>, at: nat)
    ensures |TagsAt(items, at)| == CountTags(items)
  {
    if items != [] {
      TagsCount(items[1..], if items[0].Tag? then at else at + |items[0].bytes|);
    }
  }

  lemma {:induction false} TagsBounds(items: seq<Item>, at: nat)
    requires at + |Bytes(items)| < WORD16
    ensures forall k :: 0 <= k < |TagsAt(items, at)| ==> at <= TagsAt(items, at)[k].offset <= at + |Bytes(items)|
  {
    if items != [] {
      TagsBounds(items[1..], if items[0].Tag? then at else at + |items[0].bytes|);
    }
  }

  lemma {:induction false} ShadowsCount(items: seq<Item>, id: nat, idx: nat)
    ensures |ShadowsAt(items, id, idx)| <= CountShadows(items)
    ensures forall k :: 0 <= k < |ShadowsAt(items, id, idx)| ==> ShadowsAt(items, id, idx)[k].instID == id
  {
    if items != [] {
      ShadowsCount(items[1..], id, if items[0].Code? && items[0].shadow.NewShadow? then idx + 1 else idx);
    }
  }

  lemma {:induction false} WithTagConcat(a: seq<TagInfo>, b: seq<TagInfo>, t: nat)
    ensures WithTag(a + b, t) == WithTag(a, t) + WithTag(b, t)
  {
    if a == [] {
      assert a + b == b;
    } else {
      assert (a + b)[1..] == a[1..] + b;
      WithTagConcat(a[1..], b, t);
    }
  }

  lemma {:induction false} WithTagCount(items: seq<Item>, at: nat, t: nat)
    requires t < WORD16
    requires forall i :: 0 <= i < |items| && items[i].Tag? ==> items[i].tag < WORD16
    ensures |WithTag(TagsAt(items, at), t)| == CountTag(items, t)
    ensures forall k :: 0 <= k < |WithTag(TagsAt(items, at), t)| ==>
              WithTag(TagsAt(items, at), t)[k] in TagsAt(items, at) && WithTag(TagsAt(items, at), t)[k].tag == t
  {
    if items != [] {
      var next := if items[0].Tag? then at else at + |items[0].bytes|;
      WithTagCount(items[1..], next, t);
      if items[0].Tag? {
        assert TagsAt(items, at)[1..] == TagsAt(items[1..], at);
      }
    }
  }

  /** The code in front of a patch: nothing, or a change of the scratch register. */
  ghost predicate IsLeadIn(pre: seq<Item>) {
    pre == [] || exists a, b :: pre == ChangeScratch(a, b)
  }

  lemma {:induction false} LeadInFacts(pre: seq<Item>, at: nat, id: nat, idx: nat)
    requires IsLeadIn(pre)
    ensures |Bytes(pre)| == if pre == [] then 0 else CHANGE_SIZE
    ensures CountTags(pre) == if pre == [] then 0 else 1
    ensures CountShadows(pre) == 0 && ShadowsAt(pre, id, idx) == []
    ensures TagsAt(pre, at) == if pre == [] then [] else [TagInfo(TAG_CHANGE_SCRATCH, U16(at))]
    ensures WithTag(TagsAt(pre, at), TAG_PATCH_BEGIN) == [] && WithTag(TagsAt(pre, at), TAG_INST_END) == []
  {
    if pre != [] {
      var a, b :| pre == ChangeScratch(a, b);
      ChangeFacts(a, b, at, id, idx);
    }
  }

  lemma {:induction false} ChangeFacts(a: nat, b: nat, at: nat, id: nat, idx: nat)
    ensures |Bytes(ChangeScratch(a, b))| == 24 && CountTags(ChangeScratch(a, b)) == 1
    ensures CountShadows(ChangeScratch(a, b)) == 0 && ShadowsAt(ChangeScratch(a, b), id, idx) == []
    ensures TagsAt(ChangeScratch(a, b), at) == [TagInfo(TAG_CHANGE_SCRATCH, U16(at))]
  {
    var codes := ChangeScratch(a, b)[1..];
    assert forall i :: 0 <= i < |codes| ==> codes[i].Code? && |codes[i].bytes| == 4 && codes[i].shadow.NoShadow?;
    PlainCodes(codes, at, id, idx);
  }

  lemma {:induction false} PlainCodes(codes: seq<Item>, at: nat, id: nat, idx: nat)
    requires forall i :: 0 <= i < |codes| ==> codes[i].Code? && |codes[i].bytes| == 4 && codes[i].shadow.NoShadow?
    ensures |Bytes(codes)| == 4 * |codes| && CountTags(codes) == 0 && TagsAt(codes, at) == []
    ensures CountShadows(codes) == 0 && ShadowsAt(codes, id, idx) == []
  {
    if codes != [] {
      PlainCodes(codes[1..], at + 4, id, idx);
    }
  }

  // ------------------------------------------------------------------------
  // A patch written behind the registered instructions
  // ------------------------------------------------------------------------

  /** Patch p with its lead-in was written at the end of b, leaving room for the tail code. */
  ghost predicate PatchWritten(b: Block, c: Block, pre: seq<Item>, p: Patch) {
    && Sized(b) && IsLeadIn(pre) && WellFormed(p)
    && b.position + |Bytes(pre)| + |Bytes(p.items)| + MINIMAL_BLOCK_SIZE <= b.maxSize
    && b.shadowIdx + CountShadows(pre) + CountShadows(p.items) <= b.shadowCapacity
    && c == Written(Written(b, pre), p.items)
  }

  lemma {:induction false} WrittenSizes(b: Block, c: Block, pre: seq<Item>, p: Patch)
    requires PatchWritten(b, c, pre, p)
    ensures c.position == b.position + |Bytes(pre)| + |Bytes(p.items)|
    ensures |c.tagRegistry| == |b.tagRegistry| + CountTags(pre) + CountTags(p.items)
    ensures b.tagRegistry <= c.tagRegistry
    ensures c.tagRegistry[|b.tagRegistry|..] == TagsAt(pre, b.position) + TagsAt(p.items, b.position + |Bytes(pre)|)
    ensures CountTags(pre) <= 1 && 4 * CountTags(pre) <= 3 * |Bytes(pre)|
  {
    LeadInFacts(pre, b.position, U16(|b.patches|), b.shadowIdx);
    TagsCount(pre, b.position);
    TagsCount(p.items, b.position + |Bytes(pre)|);
    assert c.tagRegistry == b.tagRegistry + TagsAt(pre, b.position) + TagsAt(p.items, b.position + |Bytes(pre)|);
  }

  lemma WrittenShadows(b: Block, c: Block, pre: seq<Item>, p: Patch)
    requires PatchWritten(b, c, pre, p)
    ensures c.shadowIdx == b.shadowIdx + CountShadows(p.items)
    ensures |c.shadowRegistry| <= |b.shadowRegistry| + CountShadows(p.items)
    ensures b.shadowRegistry <= c.shadowRegistry
    ensures forall k :: |b.shadowRegistry| <= k < |c.shadowRegistry| ==> c.shadowRegistry[k].instID == |b.patches|
  {
    var id := U16(|b.patches|);
    LeadInFacts(pre, b.position, id, b.shadowIdx);
    ShadowsCount(p.items, id, b.shadowIdx);
    assert c.shadowRegistry == b.shadowRegistry + [] + ShadowsAt(p.items, id, b.shadowIdx);
  }

  lemma {:induction false} WrittenPage(b: Block, c: Block, pre: seq<Item>, p: Patch)
    requires PatchWritten(b, c, pre, p)
    ensures PageExtended(b.page, c.page, b.position, b.position + |Bytes(pre)|, Bytes(p.items))
    ensures c.page[b.maxSize..] == b.page[b.maxSize..]
    ensures c.page[b.position..b.position + |Bytes(pre)|] == Bytes(pre)
  {
    TwoOverwrites(b.page, b.position, Bytes(pre), Bytes(p.items), b.maxSize);
  }

  /** The page keeps its first `from` bytes and holds `bytes` at `at`. */
  ghost predicate PageExtended(page: seq<int>, page': seq<int>, from: nat, at: nat, bytes: seq<int>) {
    && |page'| == |page| && from <= at && at + |bytes| <= |page|
    && page'[..from] == page[..from] && page'[at..at + |bytes|] == bytes
  }

  lemma TwoOverwrites(page: seq<int>, from: nat, x: seq<int>, y: seq<int>, end: nat)
    requires from + |x| + |y| <= end <= |page|
    ensures var page' := Overwrite(Overwrite(page, from, x), from + |x|, y);
            && PageExtended(page, page', from, from + |x|, y)
            && page'[end..] == page[end..] && page'[from..from + |x|] == x
  {
    var page' := Overwrite(Overwrite(page, from, x), from + |x|, y);
    OverwriteTwice(page, from, x, y);
    assert page' == page[..from] + (x + y) + page[from + |x + y|..];
  }

  lemma RecordSized(b: Block, c: Block, pre: seq<Item>, p: Patch, d: Block, seqID: nat, offset: nat, skip: nat, sr: nat)
    requires PatchWritten(b, c, pre, p)
    requires |b.shadowRegistry| <= |c.shadowRegistry| && |b.tagRegistry| <= |c.tagRegistry|
    requires d == Recorded(b, c, p, seqID, offset, skip, sr)
    ensures Sized(d)
  {
    WrittenSizes(b, c, pre, p);
    WrittenShadows(b, c, pre, p);
    WrittenPage(b, c, pre, p);
  }

  lemma RecordTags(b: Block, d: Block)
    requires TagsTiled(b) && |d.insts| == |b.insts| + 1
    requires b.insts <= d.insts && b.tagRegistry <= d.tagRegistry
    requires d.insts[|b.insts|].tagOffset == |b.tagRegistry|
    requires d.insts[|b.insts|].tagSize == |d.tagRegistry| - |b.tagRegistry|
    ensures TagsTiled(d)
  {
    var n := |b.insts|;
    forall i | 0 <= i <= n
      ensures d.TagStart(i) == b.TagStart(i)
    {
      assert i < n ==> d.insts[i] == b.insts[i];
    }
  }

  lemma RecordShadows(b: Block, d: Block)
    requires ShadowsTiled(b) && |d.insts| == |b.insts| + 1
    requires b.insts <= d.insts && b.shadowRegistry <= d.shadowRegistry
    requires d.insts[|b.insts|].shadowOffset == |b.shadowRegistry|
    requires d.insts[|b.insts|].shadowSize == |d.shadowRegistry| - |b.shadowRegistry|
    requires forall k :: |b.shadowRegistry| <= k < |d.shadowRegistry| ==> d.shadowRegistry[k].instID == |b.insts|
    ensures ShadowsTiled(d)
  {
    var n := |b.insts|;
    forall i | 0 <= i <= n
      ensures d.ShadowStart(i) == b.ShadowStart(i)
    {
      assert i < n ==> d.insts[i] == b.insts[i];
    }
    forall i, k | 0 <= i <= n + 1 && 0 <= k < |d.shadowRegistry|
      ensures k < d.ShadowStart(i) <==> d.shadowRegistry[k].instID < i
    {
      if k < |b.shadowRegistry| {
        assert d.shadowRegistry[k] == b.shadowRegistry[k];
        assert k < b.ShadowStart(n) <==> b.shadowRegistry[k].instID < n;
      }
    }
  }

  lemma RecordLaid(b: Block, d: Block, p: Patch, offset: nat)
    requires Sized(b) && Laid(b) && Sized(d) && WellFormed(p)
    requires b.insts <= d.insts && |d.insts| == |b.insts| + 1 && d.patches == b.patches + [p]
    requires PageExtended(b.page, d.page, b.position, offset, Bytes(p.items))
    requires d.position == offset + |Bytes(p.items)|
    requires d.insts[|b.insts|].offset == offset <= d.insts[|b.insts|].offsetSkip <= d.position
    ensures Laid(d)
  {
    var n := |b.insts|;
    assert forall i :: 0 <= i < n ==> d.insts[i] == b.insts[i] && d.patches[i] == b.patches[i];
    forall i | 0 <= i < n
      ensures InstLaid(d, i)
    {
      assert InstLaid(b, i);
      SamePrefixSlice(b.page, d.page, b.position, b.insts[i].offset, b.insts[i].offset + |Bytes(b.patches[i].items)|);
    }
    assert InstLaid(d, n);
    assert forall j :: 0 <= j <= n ==> b.OffsetOf(j) <= d.OffsetOf(j);
    forall i, j | 0 <= i < j <= n + 1
      ensures d.insts[i].offset + |Bytes(d.patches[i].items)| <= d.OffsetOf(j)
      ensures d.insts[i].offsetSkip <= d.OffsetOf(j)
    {
      if i < n {
        assert b.OffsetOf(n) <= d.OffsetOf(j) || j < n;
      }
    }
  }

  lemma LastSlices(b: Block, c: Block, pre: seq<Item>, p: Patch, d: Block, seqID: nat, offset: nat, skip: nat, sr: nat)
    requires PatchWritten(b, c, pre, p)
    requires |b.shadowRegistry| <= |c.shadowRegistry| && |b.tagRegistry| <= |c.tagRegistry|
    requires d == Recorded(b, c, p, seqID, offset, skip, sr)
    ensures |d.insts| == |b.insts| + 1 && b.insts <= d.insts
    ensures b.tagRegistry <= d.tagRegistry && b.shadowRegistry <= d.shadowRegistry
    ensures var x := d.insts[|b.insts|];
            && x.tagOffset == |b.tagRegistry| && x.tagSize == |d.tagRegistry| - |b.tagRegistry|
            && x.shadowOffset == |b.shadowRegistry| && x.shadowSize == |d.shadowRegistry| - |b.shadowRegistry|
    ensures forall k :: |b.shadowRegistry| <= k < |d.shadowRegistry| ==> d.shadowRegistry[k].instID == |b.insts|
  {
    WrittenSizes(b, c, pre, p);
    WrittenShadows(b, c, pre, p);
    Fits16(|b.tagRegistry|);
    Fits16(|d.tagRegistry| - |b.tagRegistry|);
    Fits16(|b.shadowRegistry|);
    Fits16(|d.shadowRegistry| - |b.shadowRegistry|);
  }

  lemma Fits16(x: nat)
    requires x < WORD16
    ensures U16(x) == x
  {
  }

  lemma RecordKeepsTiles(b: Block, c: Block, pre: seq<Item>, p: Patch, d: Block, seqID: nat, offset: nat, skip: nat, sr: nat)
    requires Tiled(b) && PatchWritten(b, c, pre, p)
    requires |b.shadowRegistry| <= |c.shadowRegistry| && |b.tagRegistry| <= |c.tagRegistry|
    requires d == Recorded(b, c, p, seqID, offset, skip, sr)
    ensures Tiled(d)
  {
    LastSlices(b, c, pre, p, d, seqID, offset, skip, sr);
    RecordTags(b, d);
    RecordShadows(b, d);
  }

  lemma {:induction false} RecordKeepsLaid(b: Block, c: Block, pre: seq<Item>, p: Patch, d: Block, seqID: nat, offset: nat, skip: nat, sr: nat)
    requires Sized(b) && Laid(b) && PatchWritten(b, c, pre, p)
    requires |b.shadowRegistry| <= |c.shadowRegistry| && |b.tagRegistry| <= |c.tagRegistry|
    requires offset == b.position + |Bytes(pre)| && offset <= skip <= c.position
    requires d == Recorded(b, c, p, seqID, offset, skip, sr)
    ensures Sized(d) && Laid(d)
  {
    WrittenPage(b, c, pre, p);
    RecordSized(b, c, pre, p, d, seqID, offset, skip, sr);
    RecordLaid(b, d, p, offset);
  }

  lemma RecordMarks(b: Block, c: Block, pre: seq<Item>, p: Patch, d: Block, seqID: nat, offset: nat, skip: nat, sr: nat)
    requires |b.insts| == |b.patches| && Marked(b) && PatchWritten(b, c, pre, p)
    requires |b.shadowRegistry| <= |c.shadowRegistry| && |b.tagRegistry| <= |c.tagRegistry|
    requires offset == b.position + |Bytes(pre)| && SkipsTo(p, offset, skip)
    requires d == Recorded(b, c, p, seqID, offset, skip, sr)
    ensures |d.insts| == |d.patches| && Marked(d)
  {
    var n := |b.insts|;
    LastSlices(b, c, pre, p, d, seqID, offset, skip, sr);
    forall i | 0 <= i < n
      ensures InstMarked(d, i)
    {
      MarkKept(b, d, i);
    }
    LastMarked(b, c, pre, p, d, offset);
  }

  lemma MarkKept(b: Block, d: Block, i: nat)
    requires |b.insts| == |b.patches| && |d.insts| == |d.patches| && i < |b.insts| && InstMarked(b, i)
    requires b.insts <= d.insts && b.patches <= d.patches
    requires b.tagRegistry <= d.tagRegistry && b.shadowRegistry <= d.shadowRegistry
    ensures InstMarked(d, i)
  {
    var x := b.insts[i];
    SamePart(b.tagRegistry, d.tagRegistry, x.tagOffset, x.tagSize);
    SamePart(b.shadowRegistry, d.shadowRegistry, x.shadowOffset, x.shadowSize);
  }

  lemma SamePart<T>(a: seq<T>, b: seq<T>, lo: nat, n: nat)
    requires a <= b && lo + n <= |a|
    ensures a[lo..lo + n] == b[lo..lo + n]
  {
  }

  lemma LastMarked(b: Block, c: Block, pre: seq<Item>, p: Patch, d: Block, offset: nat)
    requires PatchWritten(b, c, pre, p) && |d.insts| == |b.insts| + 1 == |d.patches| && d.patches[|b.insts|] == p
    requires d.tagRegistry == c.tagRegistry && d.shadowRegistry == c.shadowRegistry
    requires |b.tagRegistry| <= |c.tagRegistry| && |b.shadowRegistry| <= |c.shadowRegistry|
    requires offset == b.position + |Bytes(pre)|
    requires var x := d.insts[|b.insts|];
             && x.tagOffset == |b.tagRegistry| && x.tagSize == |d.tagRegistry| - |b.tagRegistry|
             && x.shadowOffset == |b.shadowRegistry| && x.shadowSize == |d.shadowRegistry| - |b.shadowRegistry|
             && x.offset == offset && SkipsTo(p, offset, x.offsetSkip)
    ensures InstMarked(d, |b.insts|)
  {
    LastTags(b, c, pre, p);
    LastShadows(b, c, pre, p);
    assert d.tagRegistry[|b.tagRegistry|..|d.tagRegistry|] == c.tagRegistry[|b.tagRegistry|..];
    assert d.shadowRegistry[|b.shadowRegistry|..|d.shadowRegistry|] == c.shadowRegistry[|b.shadowRegistry|..];
  }

  lemma LastTags(b: Block, c: Block, pre: seq<Item>, p: Patch)
    requires PatchWritten(b, c, pre, p)
    ensures |b.tagRegistry| <= |c.tagRegistry| && TagsOf(c.tagRegistry[|b.tagRegistry|..], p, b.position + |Bytes(pre)|)
  {
    WrittenSizes(b, c, pre, p);
    LeadInFacts(pre, b.position, U16(|b.patches|), b.shadowIdx);
    Fits16(b.position);
    var own := TagsAt(p.items, b.position + |Bytes(pre)|);
    assert pre == [] ==> [] + own == own;
  }

  lemma LastShadows(b: Block, c: Block, pre: seq<Item>, p: Patch)
    requires PatchWritten(b, c, pre, p)
    ensures |b.shadowRegistry| <= |c.shadowRegistry| && ShadowsOf(c.shadowRegistry[|b.shadowRegistry|..], p, |b.insts|)
  {
    var id := U16(|b.patches|);
    LeadInFacts(pre, b.position, id, b.shadowIdx);
    Fits16(|b.patches|);
    var own := ShadowsAt(p.items, id, b.shadowIdx);
    assert c.shadowRegistry == b.shadowRegistry + [] + own;
    assert c.shadowRegistry[|b.shadowRegistry|..] == own;
  }

  /** Registering a written patch keeps every property of the registries and of the page. */
  lemma {:induction false} RecordValid(b: Block, c: Block, pre: seq<Item>, p: Patch, d: Block, seqID: nat, offset: nat, skip: nat, sr: nat)
    requires BodyValid(b) && PatchWritten(b, c, pre, p) && sr !in p.Busy()
    requires |b.shadowRegistry| <= |c.shadowRegistry| && |b.tagRegistry| <= |c.tagRegistry|
    requires offset == b.position + |Bytes(pre)| && offset <= skip <= c.position && SkipsTo(p, offset, skip)
    requires d == Recorded(b, c, p, seqID, offset, skip, sr)
    ensures BodyValid(d)
  {
    BodyIs(b);
    RecordKeepsTiles(b, c, pre, p, d, seqID, offset, skip, sr);
    RecordKeepsLaid(b, c, pre, p, d, seqID, offset, skip, sr);
    RecordMarks(b, c, pre, p, d, seqID, offset, skip, sr);
    BodyIs(d);
  }

  /** The markers found for the patch: one begin, one end, at the right offsets. */
  lemma {:induction false} PatchMarkers(b: Block, c: Block, pre: seq<Item>, p: Patch)
    requires PatchWritten(b, c, pre, p)
    ensures |b.tagRegistry| <= |c.tagRegistry|
    ensures var at := b.position + |Bytes(pre)|;
            var own := c.tagRegistry[|b.tagRegistry|..];
            && WithTag(own, TAG_PATCH_BEGIN) == [TagInfo(TAG_PATCH_BEGIN, at)]
            && |WithTag(own, TAG_INST_END)| == 1 && SkipsTo(p, at, WithTag(own, TAG_INST_END)[0].offset)
            && at <= WithTag(own, TAG_INST_END)[0].offset <= c.position
  {
    WrittenSizes(b, c, pre, p);
    MarkersBehind(pre, p, b.position);
  }

  lemma {:induction false} MarkersBehind(pre: seq<Item>, p: Patch, from: nat)
    requires IsLeadIn(pre) && WellFormed(p) && from + |Bytes(pre)| + |Bytes(p.items)| < WORD16
    ensures var at := from + |Bytes(pre)|;
            var own := TagsAt(pre, from) + TagsAt(p.items, at);
            && WithTag(own, TAG_PATCH_BEGIN) == [TagInfo(TAG_PATCH_BEGIN, at)]
            && |WithTag(own, TAG_INST_END)| == 1 && SkipsTo(p, at, WithTag(own, TAG_INST_END)[0].offset)
            && at <= WithTag(own, TAG_INST_END)[0].offset <= at + |Bytes(p.items)|
  {
    var at := from + |Bytes(pre)|;
    LeadInFacts(pre, from, 0, 0);
    WithTagConcat(TagsAt(pre, from), TagsAt(p.items, at), TAG_PATCH_BEGIN);
    WithTagConcat(TagsAt(pre, from), TagsAt(p.items, at), TAG_INST_END);
    ItemMarkers(p, at);
    assert WithTag(TagsAt(pre, from) + TagsAt(p.items, at), TAG_INST_END) == WithTag(TagsAt(p.items, at), TAG_INST_END);
  }

  lemma {:induction false} ItemMarkers(p: Patch, at: nat)
    requires WellFormed(p) && at + |Bytes(p.items)| < WORD16
    ensures WithTag(TagsAt(p.items, at), TAG_PATCH_BEGIN) == [TagInfo(TAG_PATCH_BEGIN, at)]
    ensures |WithTag(TagsAt(p.items, at), TAG_INST_END)| == 1
    ensures SkipsTo(p, at, WithTag(TagsAt(p.items, at), TAG_INST_END)[0].offset)
    ensures at <= WithTag(TagsAt(p.items, at), TAG_INST_END)[0].offset <= at + |Bytes(p.items)|
  {
    WithTagCount(p.items, at, TAG_PATCH_BEGIN);
    WithTagCount(p.items, at, TAG_INST_END);
    TagsBounds(p.items, at);
    FirstMarker(p.items, at);
  }

  lemma {:induction false} FirstMarker(items: seq<Item>, at: nat)
    requires at < WORD16 && items != [] && items[0] == Tag(TAG_PATCH_BEGIN)
    requires |WithTag(TagsAt(items, at), TAG_PATCH_BEGIN)| == 1
    ensures WithTag(TagsAt(items, at), TAG_PATCH_BEGIN) == [TagInfo(TAG_PATCH_BEGIN, at)]
  {
    var tags := TagsAt(items, at);
    assert tags[0] == TagInfo(TAG_PATCH_BEGIN, at);
  }

  /** What the caller of writePatch knows about a written patch. */
  lemma {:induction false} WrittenFacts(b: Block, c: Block, pre: seq<Item>, p: Patch)
    requires PatchWritten(b, c, pre, p)
    ensures |b.shadowRegistry| <= |c.shadowRegistry| && |b.tagRegistry| <= |c.tagRegistry| < WORD16
    ensures var at := b.position + |Bytes(pre)|;
            var own := c.tagRegistry[|b.tagRegistry|..];
            && WithTag(own, TAG_PATCH_BEGIN) == [TagInfo(TAG_PATCH_BEGIN, at)]
            && |WithTag(own, TAG_INST_END)| == 1 && SkipsTo(p, at, WithTag(own, TAG_INST_END)[0].offset)
            && at <= WithTag(own, TAG_INST_END)[0].offset <= c.position
    ensures c.position == b.position + |Bytes(pre)| + |Bytes(p.items)|
    ensures c.shadowIdx == b.shadowIdx + CountShadows(p.items)
    ensures SameOutside(b.page, c.page, b.position, b.maxSize) && HasBytes(c, b.position, Bytes(pre))
  {
    WrittenSizes(b, c, pre, p);
    WrittenShadows(b, c, pre, p);
    WrittenPage(b, c, pre, p);
    PatchMarkers(b, c, pre, p);
  }

  // ------------------------------------------------------------------------
  // Sequences
  // ------------------------------------------------------------------------

  /** The instructions from `start` on belong to a sequence that is not registered yet. */
  ghost predicate OpenSequence(b: Block, start: nat) {
    && start <= |b.insts|
    && (forall i :: 0 <= i < start ==>
          && b.insts[i].seqID < |b.seqs|
          && b.seqs[b.insts[i].seqID].startInstID <= i <= b.seqs[b.insts[i].seqID].endInstID)
    && (forall i :: start <= i < |b.insts| ==> b.insts[i].seqID == |b.seqs|)
    && (forall s :: 0 <= s < |b.seqs| ==> SequenceOk(b, s) && b.seqs[s].endInstID < start)
  }

  lemma OpenAtEnd(b: Block)
    requires Sequenced(b)
    ensures OpenSequence(b, |b.insts|)
  {
    forall s | 0 <= s < |b.seqs|
      ensures SequenceOk(b, s) && b.seqs[s].endInstID < |b.insts|
    {
      assert SequenceOk(b, s);
    }
  }

  lemma OpenOneMore(b: Block, c: Block, start: nat)
    requires OpenSequence(b, start)
    requires c.seqs == b.seqs && |c.insts| == |b.insts| + 1 && b.insts <= c.insts
    requires c.insts[|b.insts|].seqID == |b.seqs|
    ensures OpenSequence(c, start)
  {
    forall s | 0 <= s < |c.seqs|
      ensures SequenceOk(c, s) && c.seqs[s].endInstID < start
    {
      SequenceLonger(b, c, s);
    }
    forall i | 0 <= i < |c.insts|
      ensures c.insts[i] == if i < |b.insts| then b.insts[i] else c.insts[|b.insts|]
    {
    }
  }

  lemma SequenceLonger(b: Block, c: Block, s: nat)
    requires s < |b.seqs| && SequenceOk(b, s) && c.seqs == b.seqs && b.insts <= c.insts
    ensures SequenceOk(c, s)
  {
    assert forall i :: 0 <= i < |b.insts| ==> c.insts[i] == b.insts[i];
  }

  /** Registering the open sequence. */
  lemma CloseSequence(b: Block, c: Block, start: nat, mode: Mode)
    requires OpenSequence(b, start) && start < |b.insts|
    requires c == b.(seqs := b.seqs + [SeqInfo(start, |b.insts| - 1, mode, b.insts[start].sr)])
    ensures Sequenced(c)
  {
    var n := |b.seqs|;
    forall s | 0 <= s < |c.seqs|
      ensures SequenceOk(c, s)
    {
      if s < n {
        assert SequenceOk(b, s);
        assert c.seqs[s] == b.seqs[s];
      } else {
        assert b.insts[start].seqID == n;
      }
    }
  }

  /** A split adds a suffix of an existing sequence and touches nothing else. */
  lemma SplitValid(b: Block, c: Block, instID: nat)
    requires Sequenced(b) && instID < |b.insts|
    requires var q := b.seqs[b.insts[instID].seqID];
             c == b.(seqs := b.seqs + [SeqInfo(instID, q.endInstID, q.mode, b.insts[instID].sr)])
    ensures Sequenced(c)
  {
    forall s | 0 <= s < |c.seqs|
      ensures SequenceOk(c, s)
    {
      if s < |b.seqs| {
        assert SequenceOk(b, s);
        assert c.seqs[s] == b.seqs[s];
      } else {
        SplitCovers(b, instID);
      }
    }
  }

  /** All instructions from instID to the end of its sequence were written with it. */
  lemma SplitCovers(b: Block, instID: nat)
    requires Sequenced(b) && instID < |b.insts|
    ensures var q := b.seqs[b.insts[instID].seqID];
            && instID <= q.endInstID < |b.insts|
            && forall j :: instID <= j <= q.endInstID ==> b.insts[j].seqID == b.insts[instID].seqID
  {
    var o := b.insts[instID].seqID;
    assert SequenceOk(b, o);
    var q := b.seqs[o];
    assert b.insts[instID].seqID == b.insts[q.startInstID].seqID;
  }

  /** The tail code of a sequence is not registered and leaves everything in place. */
  lemma {:induction false} TailValid(b: Block, items: seq<Item>)
    requires BodyValid(b) && b.position + |Bytes(items)| <= b.maxSize
    requires b.shadowIdx + CountShadows(items) <= b.shadowCapacity
    requires TagsAt(items, b.position) == [] && ShadowsAt(items, U16(|b.patches|), b.shadowIdx) == []
    ensures BodyValid(Written(b, items))
  {
    BodyIs(b);
    var c := Written(b, items);
    OverwriteOutside(b.page, b.position, Bytes(items));
    assert c == b.(page := c.page, position := c.position, shadowIdx := c.shadowIdx);
    forall i | 0 <= i < |c.insts|
      ensures InstLaid(c, i)
    {
      assert InstLaid(b, i);
      SamePrefixSlice(b.page, c.page, b.position, b.insts[i].offset, b.insts[i].offset + |Bytes(b.patches[i].items)|);
    }
    assert forall j :: 0 <= j <= |c.insts| ==> b.OffsetOf(j) <= c.OffsetOf(j);
    assert Laid(c);
    assert forall j :: 0 <= j <= |c.insts| ==> b.TagStart(j) == c.TagStart(j) && b.ShadowStart(j) == c.ShadowStart(j);
    assert Tiled(c);
    MarkedSame(b, c);
    BodyIs(c);
  }

  lemma {:induction false} TailFacts(next: nat, sr: nat, at: nat, id: nat, idx: nat)
    ensures |Bytes(Terminator(next, sr))| + |Bytes(JmpEpilogue())| == MINIMAL_BLOCK_SIZE
    ensures |Bytes(JmpEpilogue())| == 4 && CountShadows(JmpEpilogue()) == 0
    ensures CountShadows(Terminator(next, sr)) <= 1
    ensures TagsAt(Terminator(next, sr), at) == [] && ShadowsAt(Terminator(next, sr), id, idx) == []
    ensures TagsAt(JmpEpilogue(), at) == [] && ShadowsAt(JmpEpilogue(), id, idx) == []
  {
    PlainCodes(JmpEpilogue(), at, id, idx);
    var rest := Terminator(next, sr)[1..];
    PlainCodes(rest, at + 4, id, idx);
    PlainCodes(rest, at + 4, id, idx + 1);
  }

  /** The code of the last instruction, patch k - 1, ends at `end` and uses the register sr. */
  ghost predicate LastEnd(insts: seq<InstInfo>, ps: seq<Patch>, k: nat, sr: nat, end: nat) {
    && 1 <= k <= |ps| && insts != []
    && insts[|insts| - 1].sr == sr
    && insts[|insts| - 1].offset + |Bytes(ps[k - 1].items)| == end
  }

  /** The patches ps[..k] were written and registered behind the block b; `sr` is the scratch
      register of the last one. */
  ghost predicate PatchesAdded(b: Block, c: Block, ps: seq<Patch>, k: nat, sr: nat) {
    && BodyValid(c) && OpenSequence(c, |b.insts|)
    && 1 <= k <= |ps| && c.patches == b.patches + ps[..k] && c.seqs == b.seqs
    && |c.insts| == |b.insts| + k && b.insts <= c.insts
    && b.position < c.position && LastEnd(c.insts, ps, k, sr, c.position)
    && MINIMAL_BLOCK_SIZE <= c.maxSize - c.position
    && c.maxSize == b.maxSize && SameOutside(b.page, c.page, b.position, b.maxSize)
  }

  /** b itself, or b with the first k patches; folded. */
  ghost predicate Adding(b: Block, c: Block, ps: seq<Patch>, k: nat, sr: nat) {
    forall u {:trigger Asked(AThread, u)} :: Asked(AThread, u) ==> if k == 0 then c == b else PatchesAdded(b, c, ps, k, sr)
  }

  lemma AddingIs(b: Block, c: Block, ps: seq<Patch>, k: nat, sr: nat)
    ensures Adding(b, c, ps, k, sr) <==> if k == 0 then c == b else PatchesAdded(b, c, ps, k, sr)
  {
    assert Asked(AThread, 0);
  }

  lemma AddedRestored(b: Block, c: Block, d: Block, ps: seq<Patch>, k: nat, sr: nat)
    requires PatchesAdded(b, c, ps, k, sr) && Restored(c, d) && BodyValid(d)
    ensures PatchesAdded(b, d, ps, k, sr)
  {
    OpenKept(c, d, |b.insts|);
    SameOutsideWider(b.page, c.page, d.page, b.position, c.position, b.maxSize);
  }

  lemma OpenKept(c: Block, d: Block, start: nat)
    requires OpenSequence(c, start) && d.insts == c.insts && d.seqs == c.seqs
    ensures OpenSequence(d, start)
  {
    forall s | 0 <= s < |d.seqs|
      ensures SequenceOk(d, s) && d.seqs[s].endInstID < start
    {
      assert SequenceOk(c, s);
    }
  }

  lemma SameOutsideWider(x: seq<int>, y: seq<int>, z: seq<int>, lo: nat, mid: nat, hi: nat)
    requires SameOutside(x, y, lo, hi) && SameOutside(y, z, mid, hi) && lo <= mid
    ensures SameOutside(x, z, lo, hi)
  {
    assert y[..lo] == y[..mid][..lo];
    assert z[..lo] == z[..mid][..lo];
  }

  /** One more patch was written behind c, which is b itself or b with k patches. */
  lemma AddedOne(b: Block, c: Block, d: Block, ps: seq<Patch>, k: nat, sr: nat)
    requires BodyValid(d) && k < |ps| && OpenSequence(c, |b.insts|)
    requires if k == 0 then c == b else PatchesAdded(b, c, ps, k, sr)
    requires d.patches == c.patches + [ps[k]] && d.seqs == c.seqs && d.maxSize == c.maxSize
    requires |d.insts| == |c.insts| + 1 && c.insts <= d.insts && d.insts[|c.insts|].seqID == |c.seqs|
    requires c.position < d.position == d.insts[|c.insts|].offset + |Bytes(ps[k].items)|
    requires MINIMAL_BLOCK_SIZE <= d.maxSize - d.position
    requires SameOutside(c.page, d.page, c.position, c.maxSize)
    ensures PatchesAdded(b, d, ps, k + 1, d.insts[|c.insts|].sr)
  {
    OpenOneMore(c, d, |b.insts|);
    assert ps[..k + 1] == ps[..k] + [ps[k]];
    if k > 0 {
      SameOutsideWider(b.page, c.page, d.page, b.position, c.position, b.maxSize);
    }
  }

  /** c is b with one more sequence, made of the patches ps[..k]. */
  ghost predicate SequenceAdded(b: Block, c: Block, ps: seq<Patch>, k: nat) {
    && 1 <= k <= |ps|
    && c.patches == b.patches + ps[..k]
    && |c.insts| == |b.insts| + k && b.insts <= c.insts
    && (forall j :: |b.insts| <= j < |c.insts| ==> c.insts[j].seqID == |b.seqs|)
    && c.seqs == b.seqs + [SeqInfo(|b.insts|, |b.insts| + k - 1, ps[0].insn.key.mode, c.insts[|b.insts|].sr)]
    && c.base == b.base && c.maxSize == b.maxSize && c.shadowCapacity == b.shadowCapacity
  }

  lemma AddedSequence(b: Block, c: Block, d: Block, e: Block, ps: seq<Patch>, k: nat, sr: nat)
    requires PatchesAdded(b, c, ps, k, sr) && BodyValid(d)
    requires d == c.(page := d.page, position := d.position, shadowIdx := d.shadowIdx)
    requires e == d.(seqs := b.seqs + [SeqInfo(|b.insts|, |b.insts| + k - 1, ps[0].insn.key.mode, d.insts[|b.insts|].sr)])
    requires c.base == b.base && c.shadowCapacity == b.shadowCapacity
    requires Woven(e) && Brimful(e)
    ensures BlockValid(e) && SequenceAdded(b, e, ps, k)
  {
    OpenKept(c, d, |b.insts|);
    CloseSequence(d, e, |b.insts|, ps[0].insn.key.mode);
    BodyWithoutSequences(d, e);
  }

  /** The tail code makes the added patches a sequence that can be executed. */
  lemma AddedWoven(b: Block, c: Block, d: Block, e: Block, ps: seq<Patch>, k: nat, sr: nat, needTerminator: bool)
    requires PatchesAdded(b, c, ps, k, sr) && Woven(c) && BodyValid(d)
    requires d == c.(page := d.page, position := d.position, shadowIdx := d.shadowIdx)
    requires SameOutside(c.page, d.page, c.position, d.position)
    requires d.page[c.position..d.position] == TailBytes(needTerminator, ps[k - 1].insn.End(), sr)
    requires !needTerminator ==> ps[k - 1].insn.modifiesPC
    requires e == d.(seqs := b.seqs + [SeqInfo(|b.insts|, |b.insts| + k - 1, ps[0].insn.key.mode, d.insts[|b.insts|].sr)])
    ensures Woven(e)
  {
    WovenStays(c, d);
    var last := |b.insts| + k - 1;
    assert c.patches[last] == ps[..k][k - 1];
    assert EndOf(d, last) == c.position;
    assert HasBytes(d, c.position, TailBytes(needTerminator, ps[k - 1].insn.End(), sr));
    assert [] + Bytes(JmpEpilogue()) == Bytes(JmpEpilogue());
    WovenSequence(d, e, SeqInfo(|b.insts|, last, ps[0].insn.key.mode, d.insts[|b.insts|].sr));
  }

  /** The sequence registry plays no part in the properties of the body. */
  lemma BodyWithoutSequences(d: Block, e: Block)
    requires BodyValid(d) && e == d.(seqs := e.seqs, isFull := e.isFull)
    ensures BodyValid(e)
  {
    BodyIs(d);
    forall i | 0 <= i < |e.insts|
      ensures InstLaid(e, i)
    {
      assert InstLaid(d, i);
    }
    assert forall j :: 0 <= j <= |e.insts| ==> d.OffsetOf(j) == e.OffsetOf(j);
    assert forall j :: 0 <= j <= |e.insts| ==> d.TagStart(j) == e.TagStart(j) && d.ShadowStart(j) == e.ShadowStart(j);
    MarkedSame(d, e);
    BodyIs(e);
  }

  // ------------------------------------------------------------------------
  // Reading the registries
  // ------------------------------------------------------------------------

  lemma {:induction false} OfInstConcat(a: seq<ShadowInfo>, b: seq<ShadowInfo>, i: nat)
    ensures OfInst(a + b, i) == OfInst(a, i) + OfInst(b, i)
  {
    if a == [] {
      assert a + b == b;
    } else {
      assert (a + b)[1..] == a[1..] + b;
      OfInstConcat(a[1..], b, i);
    }
  }

  lemma {:induction false} OfInstNone(a: seq<ShadowInfo>, i: nat)
    requires forall k :: 0 <= k < |a| ==> a[k].instID != i
    ensures OfInst(a, i) == []
  {
    if a != [] {
      OfInstNone(a[1..], i);
    }
  }

  lemma {:induction false} OfInstAll(a: seq<ShadowInfo>, i: nat)
    requires forall k :: 0 <= k < |a| ==> a[k].instID == i
    ensures OfInst(a, i) == a
  {
    if a != [] {
      OfInstAll(a[1..], i);
    }
  }

  /** The slice of an instruction is what filtering the whole registry finds for it. */
  lemma SliceIsFilter(b: Block, i: nat)
    requires ShadowsTiled(b) && i < |b.insts|
    ensures b.ShadowStart(i) <= b.ShadowStart(i + 1) <= |b.shadowRegistry|
    ensures b.shadowRegistry[b.ShadowStart(i)..b.ShadowStart(i + 1)] == OfInst(b.shadowRegistry, i)
  {
    var lo, hi := b.ShadowStart(i), b.ShadowStart(i + 1);
    var r := b.shadowRegistry;
    assert b.insts[i].shadowOffset + b.insts[i].shadowSize == b.ShadowStart(i + 1);
    assert r == r[..lo] + (r[lo..hi] + r[hi..]);
    OfInstConcat(r[..lo], r[lo..hi] + r[hi..], i);
    OfInstConcat(r[lo..hi], r[hi..], i);
    forall k | 0 <= k < |r|
      ensures k < lo <==> r[k].instID < i
      ensures k < hi <==> r[k].instID < i + 1
    {
    }
    OfInstNone(r[..lo], i);
    OfInstAll(r[lo..hi], i);
    OfInstNone(r[hi..], i);
  }
}
