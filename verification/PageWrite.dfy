/** What writing code does to the state of a page. */
module PageWrites {
  import opened Guest
  import opened Blocks

  /** Number of registers a scratch register can be chosen from (AArch64). */
  const AVAILABLE_GPR: nat := 28

  predicate IsRegister(r: nat) { r < AVAILABLE_GPR }

  function AllRegisters(): set<nat> { set r: nat | r < AVAILABLE_GPR && IsRegister(r) }

  function TotalShadows(ps: seq<Patch>): nat {
    if ps == [] then 0 else CountShadows(ps[0].items) + TotalShadows(ps[1..])
  }

  // ------------------------------------------------------------------------
  // Lists of items
  // ------------------------------------------------------------------------

  lemma {:induction false} BytesConcat(a: seq<Item>, b: seq<Item>)
    ensures Bytes(a + b) == Bytes(a) + Bytes(b)
    ensures CountShadows(a + b) == CountShadows(a) + CountShadows(b)
    ensures CountTags(a + b) == CountTags(a) + CountTags(b)
  {
    if a == [] {
      assert a + b == b;
    } else {
      assert (a + b)[1..] == a[1..] + b;
      BytesConcat(a[1..], b);
    }
  }

  lemma {:induction false} TagsConcat(a: seq<Item>, b: seq<Item>, at: nat)
    ensures TagsAt(a + b, at) == TagsAt(a, at) + TagsAt(b, at + |Bytes(a)|)
  {
    if a == [] {
      assert a + b == b;
    } else {
      assert (a + b)[1..] == a[1..] + b;
      TagsConcat(a[1..], b, if a[0].Tag? then at else at + |a[0].bytes|);
    }
  }

  lemma {:induction false} ShadowsConcat(a: seq<Item>, b: seq<Item>, id: nat, idx: nat)
    ensures ShadowsAt(a + b, id, idx) == ShadowsAt(a, id, idx) + ShadowsAt(b, id, idx + CountShadows(a))
  {
    if a == [] {
      assert a + b == b;
    } else {
      assert (a + b)[1..] == a[1..] + b;
      ShadowsConcat(a[1..], b, id, if a[0].Code? && a[0].shadow.NewShadow? then idx + 1 else idx);
    }
  }

  /** A prefix of the items writes no more bytes and takes no more shadows. */
  lemma {:induction false} PrefixBounds(items: seq<Item>, i: nat)
    requires i <= |items|
    ensures |Bytes(items[..i])| <= |Bytes(items)|
    ensures CountShadows(items[..i]) <= CountShadows(items)
  {
    assert items == items[..i] + items[i..];
    BytesConcat(items[..i], items[i..]);
  }

  lemma SamePrefixSlice(a: seq<int>, b: seq<int>, n: nat, lo: nat, hi: nat)
    requires lo <= hi <= n <= |a| == |b| && a[..n] == b[..n]
    ensures a[lo..hi] == b[lo..hi]
  {
    assert a[lo..hi] == a[..n][lo..hi];
    assert b[lo..hi] == b[..n][lo..hi];
  }

  /** Only the bytes [lo, hi) may differ. */
  ghost predicate SameOutside(a: seq<int>, b: seq<int>, lo: nat, hi: nat) {
    lo <= hi <= |a| == |b| && a[..lo] == b[..lo] && a[hi..] == b[hi..]
  }

  /** The page after `bytes` were copied at an offset. */
  function Overwrite(page: seq<int>, at: nat, bytes: seq<int>): seq<int>
    requires at + |bytes| <= |page|
  {
    page[..at] + bytes + page[at + |bytes|..]
  }

  lemma OverwriteSnoc(page: seq<int>, at: nat, bytes: seq<int>, i: nat)
    requires i < |bytes| && at + |bytes| <= |page|
    ensures Overwrite(page, at, bytes[..i])[at + i := bytes[i]] == Overwrite(page, at, bytes[..i + 1])
  {
  }

  lemma OverwriteTwice(page: seq<int>, at: nat, a: seq<int>, b: seq<int>)
    requires at + |a| + |b| <= |page|
    ensures Overwrite(Overwrite(page, at, a), at + |a|, b) == Overwrite(page, at, a + b)
  {
  }

  lemma OverwriteOutside(page: seq<int>, at: nat, bytes: seq<int>)
    requires at + |bytes| <= |page|
    ensures SameOutside(page, Overwrite(page, at, bytes), at, at + |bytes|)
    ensures Overwrite(page, at, bytes)[at..at + |bytes|] == bytes
  {
  }

  function Appended(b: Block, bytes: seq<int>, tags: seq<TagInfo>, shadows: seq<ShadowInfo>, taken: nat): Block
    requires b.position + |bytes| <= |b.page|
  {
    b.(page := Overwrite(b.page, b.position, bytes),
       position := b.position + |bytes|,
       tagRegistry := b.tagRegistry + tags,
       shadowIdx := b.shadowIdx + taken,
       shadowRegistry := b.shadowRegistry + shadows)
  }

  lemma AppendedTwice(b: Block, b1: seq<int>, t1: seq<TagInfo>, s1: seq<ShadowInfo>, n1: nat,
                      b2: seq<int>, t2: seq<TagInfo>, s2: seq<ShadowInfo>, n2: nat)
    requires b.position + |b1| + |b2| <= |b.page|
    ensures Appended(Appended(b, b1, t1, s1, n1), b2, t2, s2, n2) == Appended(b, b1 + b2, t1 + t2, s1 + s2, n1 + n2)
  {
    OverwriteTwice(b.page, b.position, b1, b2);
    Associative(b.tagRegistry, t1, t2);
    Associative(b.shadowRegistry, s1, s2);
  }

  lemma Associative<T>(a: seq<T>, b: seq<T>, c: seq<T>)
    ensures a + b + c == a + (b + c)
  {
  }

  /** The block after the items were written at its position. */
  function Written(b: Block, items: seq<Item>): Block
    requires b.position + |Bytes(items)| <= |b.page|
  {
    Appended(b, Bytes(items), TagsAt(items, b.position),
             ShadowsAt(items, U16(|b.patches|), b.shadowIdx), CountShadows(items))
  }

  // what one item adds

  function ItemBytes(x: Item): seq<int> { if x.Code? then x.bytes else [] }

  function ItemTags(x: Item, at: nat): seq<TagInfo> {
    if x.Tag? then [TagInfo(U16(x.tag), U16(at))] else []
  }

  function ItemCount(x: Item): nat { if x.Code? && x.shadow.NewShadow? then 1 else 0 }

  function ItemShadows(x: Item, id: nat, idx: nat): seq<ShadowInfo> {
    if x.Code? && x.shadow.NewShadow? && x.shadow.tag != UNTAGGED then [ShadowInfo(id, x.shadow.tag, idx)] else []
  }

  /** The block after one more item, of which only `bytes` were copied. */
  function AfterItem(b: Block, x: Item, bytes: seq<int>): Block
    requires b.position + |bytes| <= |b.page|
  {
    Appended(b, bytes, ItemTags(x, b.position), ItemShadows(x, U16(|b.patches|), b.shadowIdx), ItemCount(x))
  }

  lemma WrittenSnoc(b: Block, items: seq<Item>, i: nat)
    requires i < |items| && b.position + |Bytes(items[..i])| + |ItemBytes(items[i])| <= |b.page|
    ensures Bytes(items[..i + 1]) == Bytes(items[..i]) + ItemBytes(items[i])
    ensures Written(b, items[..i + 1]) == AfterItem(Written(b, items[..i]), items[i], ItemBytes(items[i]))
  {
    var id := U16(|b.patches|);
    BytesSnoc(items, i);
    TagsSnoc(items, i, b.position);
    ShadowsSnoc(items, i, id, b.shadowIdx);
    var c := Written(b, items[..i]);
    AppendedTwice(b, Bytes(items[..i]), TagsAt(items[..i], b.position), ShadowsAt(items[..i], id, b.shadowIdx),
                  CountShadows(items[..i]),
                  ItemBytes(items[i]), ItemTags(items[i], c.position), ItemShadows(items[i], id, c.shadowIdx),
                  ItemCount(items[i]));
  }

  lemma BytesSnoc(items: seq<Item>, i: nat)
    requires i < |items|
    ensures Bytes(items[..i + 1]) == Bytes(items[..i]) + ItemBytes(items[i])
    ensures CountShadows(items[..i + 1]) == CountShadows(items[..i]) + ItemCount(items[i])
  {
    assert items[..i + 1] == items[..i] + [items[i]];
    BytesConcat(items[..i], [items[i]]);
    assert [items[i]][1..] == [];
  }

  lemma {:induction false} TagsSnoc(items: seq<Item>, i: nat, at: nat)
    requires i < |items|
    ensures TagsAt(items[..i + 1], at) == TagsAt(items[..i], at) + ItemTags(items[i], at + |Bytes(items[..i])|)
  {
    assert items[..i + 1] == items[..i] + [items[i]];
    TagsConcat(items[..i], [items[i]], at);
    assert [items[i]][1..] == [];
  }

  lemma {:induction false} ShadowsSnoc(items: seq<Item>, i: nat, id: nat, idx: nat)
    requires i < |items|
    ensures ShadowsAt(items[..i + 1], id, idx) ==
            ShadowsAt(items[..i], id, idx) + ItemShadows(items[i], id, idx + CountShadows(items[..i]))
  {
    assert items[..i + 1] == items[..i] + [items[i]];
    ShadowsConcat(items[..i], [items[i]], id, idx);
    assert [items[i]][1..] == [];
  }

  /** What a write never touches, however far it got. */
  ghost predicate Grows(b: Block, c: Block) {
    && b.position <= c.position && b.shadowIdx <= c.shadowIdx
    && SameOutside(b.page, c.page, b.position, c.position)
    && b.tagRegistry <= c.tagRegistry && b.shadowRegistry <= c.shadowRegistry
  }

  lemma GrowsSelf(b: Block, c: Block)
    requires b.position <= |b.page| && c == b.(isFull := c.isFull)
    ensures Grows(b, c)
  {
  }

  lemma GrowsTransitive(b: Block, c: Block, d: Block)
    requires Grows(b, c) && Grows(c, d)
    ensures Grows(b, d)
  {
    assert forall i :: 0 <= i < b.position ==> b.page[i] == b.page[..b.position][i] == c.page[i];
    assert forall i :: 0 <= i < b.position ==> c.page[..c.position][i] == d.page[i];
    assert b.page[d.position..] == b.page[c.position..][d.position - c.position..];
    assert c.page[d.position..] == c.page[c.position..][d.position - c.position..];
  }

  lemma {:induction false} WrittenGrows(b: Block, items: seq<Item>)
    requires b.position + |Bytes(items)| <= |b.page|
    ensures Grows(b, Written(b, items))
  {
    AppendedGrows(b, Bytes(items), TagsAt(items, b.position),
                  ShadowsAt(items, U16(|b.patches|), b.shadowIdx), CountShadows(items));
  }

  lemma {:induction false} FailedGrows(b: Block, items: seq<Item>, x: Item)
    requires b.position + |Bytes(items)| <= |b.page|
    ensures Grows(b, AfterItem(Written(b, items), x, []))
  {
    var c := Written(b, items);
    WrittenGrows(b, items);
    AppendedGrows(c, [], ItemTags(x, c.position), ItemShadows(x, U16(|c.patches|), c.shadowIdx), ItemCount(x));
    GrowsTransitive(b, c, AfterItem(c, x, []));
  }

  lemma AppendedNothing(b: Block)
    requires b.position <= |b.page|
    ensures Appended(b, [], [], [], 0) == b
  {
    assert Overwrite(b.page, b.position, []) == b.page;
  }

  lemma AppendedGrows(b: Block, bytes: seq<int>, tags: seq<TagInfo>, shadows: seq<ShadowInfo>, taken: nat)
    requires b.position + |bytes| <= |b.page|
    ensures Grows(b, Appended(b, bytes, tags, shadows, taken))
  {
    OverwriteOutside(b.page, b.position, bytes);
  }
}
