/** The code pages of all regions, the eviction list and the flush
    (src/ExecBlock/ExecBlockManager.h: codeBlockMap, regionsReduceList, toFlush). */
module PageMaps {
  import opened Ranges
  import opened Guest
  import opened Blocks
  import opened Programs
  import opened Caches
  import opened Placements
  import opened RegionLists
  import opened BlockWrites
  import opened PageWrites
  import RV = RegionVectors

  // ------------------------------------------------------------------------
  // All blocks
  // ------------------------------------------------------------------------

  ghost function Flat(regions: seq<Region>): seq<Block> {
    if regions == [] then [] else regions[0].blocks + Flat(regions[1..])
  }

  lemma {:induction false} FlatJoin(x: seq<Region>, y: seq<Region>)
    ensures Flat(x + y) == Flat(x) + Flat(y)
  {
    if x == [] {
      assert x + y == y;
    } else {
      assert (x + y)[1..] == x[1..] + y;
      FlatJoin(x[1..], y);
    }
  }

  lemma {:induction false} FlatAt(regions: seq<Region>, r: nat)
    requires r < |regions|
    ensures Flat(regions) == Flat(regions[..r]) + (regions[r].blocks + Flat(regions[r + 1..]))
  {
    assert regions == regions[..r] + regions[r..];
    FlatJoin(regions[..r], regions[r..]);
  }

  lemma FlatSet(regions: seq<Region>, r: nat, q: Region)
    requires r < |regions|
    ensures Flat(regions[r := q]) == Flat(regions[..r]) + (q.blocks + Flat(regions[r + 1..]))
  {
    var out := regions[r := q];
    FlatAt(out, r);
    assert out[..r] == regions[..r] && out[r + 1..] == regions[r + 1..];
  }

  /** findRegion moves no block: a merge joins neighbours. */
  lemma {:induction false} FlatPlace(regions: seq<Region>, p: Placement, id: nat)
    requires Applicable(Covers(regions), p)
    ensures Flat(PlaceRegions(regions, p, id)) == Flat(regions)
  {
    match p
    case Keep(_) =>
    case Widen(i, r) =>
      FlatSet(regions, i, regions[i].(covered := r));
      FlatAt(regions, i);
    case Insert(i, r) =>
      FlatInsert(regions, i, NewRegion(id, r));
    case Fuse(i, r) =>
      FlatFuse(regions, i, Merged(regions[i], regions[i + 1]).(covered := r));
  }

  lemma FlatOne(q: Region)
    ensures Flat([q]) == q.blocks
  {
    assert Flat([q]) == q.blocks + Flat([]);
  }

  lemma {:induction false} FlatSpliced(x: seq<Region>, q: Region, y: seq<Region>)
    ensures Flat(x + [q] + y) == Flat(x) + (q.blocks + Flat(y))
  {
    FlatJoin(x + [q], y);
    FlatJoin(x, [q]);
    FlatOne(q);
  }

  lemma {:induction false} FlatInsert(regions: seq<Region>, i: nat, q: Region)
    requires i <= |regions| && q.blocks == []
    ensures Flat(regions[..i] + [q] + regions[i..]) == Flat(regions)
  {
    assert regions[..i] + regions[i..] == regions;
    FlatSpliced(regions[..i], q, regions[i..]);
    FlatJoin(regions[..i], regions[i..]);
    Nothing(Flat(regions[i..]));
  }

  lemma Nothing(x: seq<Block>)
    ensures [] + x == x
  {
  }

  lemma {:induction false} FlatFuse(regions: seq<Region>, i: nat, q: Region)
    requires i + 1 < |regions| && q.blocks == regions[i].blocks + regions[i + 1].blocks
    ensures Flat(regions[..i] + [q] + regions[i + 2..]) == Flat(regions)
  {
    FlatSpliced(regions[..i], q, regions[i + 2..]);
    FlatAt(regions, i);
    FlatTwo(regions[i + 1..]);
    assert regions[i + 1..][1..] == regions[i + 2..];
    Associative(regions[i].blocks, regions[i + 1].blocks, Flat(regions[i + 2..]));
  }

  lemma {:induction false} FlatTwo(regions: seq<Region>)
    requires regions != []
    ensures Flat(regions) == regions[0].blocks + Flat(regions[1..])
  {
  }

  // ------------------------------------------------------------------------
  // Pages
  // ------------------------------------------------------------------------

  /** The page addresses of some blocks, with multiplicity. */
  ghost function Pages(blocks: seq<Block>): (m: multiset<nat>)
    ensures |m| == |blocks|
  {
    if blocks == [] then multiset{} else multiset{blocks[0].base} + Pages(blocks[1..])
  }

  lemma {:induction false} PagesJoin(x: seq<Block>, y: seq<Block>)
    ensures Pages(x + y) == Pages(x) + Pages(y)
  {
    if x == [] {
      assert x + y == y;
    } else {
      assert (x + y)[1..] == x[1..] + y;
      PagesJoin(x[1..], y);
    }
  }

  lemma {:induction false} PagesSnoc(x: seq<Block>, c: Block)
    ensures Pages(x + [c]) == Pages(x) + multiset{c.base}
  {
    PagesJoin(x, [c]);
    assert Pages([c]) == multiset{c.base} + Pages([]);
  }

  lemma {:induction false} PagesSame(x: seq<Block>, y: seq<Block>)
    requires |x| == |y| && forall b :: 0 <= b < |x| ==> x[b].base == y[b].base
    ensures Pages(x) == Pages(y)
  {
    if x != [] {
      PagesSame(x[1..], y[1..]);
    }
  }

  lemma {:induction false} PagesHas(blocks: seq<Block>, b: nat)
    requires b < |blocks|
    ensures blocks[b].base in Pages(blocks)
  {
    if b > 0 {
      PagesHas(blocks[1..], b - 1);
    }
  }

  /** The pages after one region's blocks change. */
  lemma PagesAt(regions: seq<Region>, r: nat, q: Region, more: multiset<nat>)
    requires r < |regions| && Pages(q.blocks) == Pages(regions[r].blocks) + more
    ensures Pages(Flat(regions[r := q])) == Pages(Flat(regions)) + more
  {
    var x, y := Flat(regions[..r]), Flat(regions[r + 1..]);
    FlatAt(regions, r);
    FlatSet(regions, r, q);
    PagesJoin(x, regions[r].blocks + y);
    PagesJoin(regions[r].blocks, y);
    PagesJoin(x, q.blocks + y);
    PagesJoin(q.blocks, y);
  }

  lemma InventoryAtRegion(regions: seq<Region>, r: nat, q: Region, more: multiset<Patch>)
    requires r < |regions| && Inventory(q.blocks) == Inventory(regions[r].blocks) + more
    ensures Inventory(Flat(regions[r := q])) == Inventory(Flat(regions)) + more
  {
    var x, y := Flat(regions[..r]), Flat(regions[r + 1..]);
    FlatAt(regions, r);
    FlatSet(regions, r, q);
    InventoryJoin(x, regions[r].blocks + y);
    InventoryJoin(regions[r].blocks, y);
    InventoryJoin(x, q.blocks + y);
    InventoryJoin(q.blocks, y);
  }

  function LivePages(regions: seq<Region>): set<nat> {
    set r, b | 0 <= r < |regions| && 0 <= b < |regions[r].blocks| :: regions[r].blocks[b].base
  }

  lemma {:induction false} PagesMember(blocks: seq<Block>, x: nat)
    ensures x in Pages(blocks) ==> exists b :: 0 <= b < |blocks| && blocks[b].base == x
  {
    if blocks != [] {
      PagesMember(blocks[1..], x);
      if b :| 0 <= b < |blocks[1..]| && blocks[1..][b].base == x {
        assert blocks[b + 1].base == x;
      }
    }
  }

  lemma {:induction false} LiveAreFlat(regions: seq<Region>, x: nat)
    requires x !in LivePages(regions)
    ensures x !in Pages(Flat(regions))
  {
    if regions != [] {
      PagesMember(regions[0].blocks, x);
      PagesJoin(regions[0].blocks, Flat(regions[1..]));
      assert x !in LivePages(regions[1..]) by {
        forall r, b | 0 <= r < |regions[1..]| && 0 <= b < |regions[1..][r].blocks|
          ensures regions[1..][r].blocks[b].base != x
        {
          assert regions[1..][r] == regions[r + 1];
        }
      }
      LiveAreFlat(regions[1..], x);
    }
  }

  /** Blocks y are blocks x and new ones, on the pages `pages` has more than `live`. */
  ghost predicate NewPages(x: seq<Block>, y: seq<Block>, live: set<nat>, pages: set<nat>) {
    live <= pages && Pages(y) == Pages(x) + multiset(pages - live)
  }

  lemma NewPagesJoin(x: seq<Block>, y: seq<Block>, z: seq<Block>, live: set<nat>, mid: set<nat>, pages: set<nat>)
    requires NewPages(x, y, live, mid) && NewPages(y, z, mid, pages)
    ensures NewPages(x, z, live, pages)
  {
    assert pages - live == (mid - live) + (pages - mid);
    assert multiset((mid - live) + (pages - mid)) == multiset(mid - live) + multiset(pages - mid);
  }

  lemma SamePages(x: seq<Block>, y: seq<Block>, z: seq<Block>, live: set<nat>, pages: set<nat>)
    requires NewPages(x, y, live, pages) && Extends(y, z) && |z| == |y|
    ensures NewPages(x, z, live, pages)
  {
    PagesSame(y, z);
  }

  lemma MorePages(x: seq<Block>, y: seq<Block>, live: set<nat>, pages: set<nat>, c: Block)
    requires NewPages(x, y, live, pages) && c.base !in pages
    ensures NewPages(x, y + [c], live, pages + {c.base})
  {
    PagesSnoc(y, c);
    assert pages + {c.base} - live == pages - live + {c.base};
    assert multiset(pages - live + {c.base}) == multiset(pages - live) + multiset{c.base};
  }

  // ------------------------------------------------------------------------
  // Flushing
  // ------------------------------------------------------------------------

  /** The regions that are flagged, or those that are not, in order. */
  ghost function Flagged(regions: seq<Region>, flag: bool): seq<Region> {
    if regions == [] then []
    else if regions[0].toFlush == flag then [regions[0]] + Flagged(regions[1..], flag)
    else Flagged(regions[1..], flag)
  }

  lemma {:induction false} FlaggedSnoc(regions: seq<Region>, r: Region, flag: bool)
    ensures Flagged(regions + [r], flag) == Flagged(regions, flag) + (if r.toFlush == flag then [r] else [])
  {
    if regions == [] {
      assert regions + [r] == [r];
    } else {
      assert (regions + [r])[1..] == regions[1..] + [r];
      FlaggedSnoc(regions[1..], r, flag);
    }
  }

  lemma {:induction false} FlaggedMembers(regions: seq<Region>, flag: bool)
    ensures forall r :: r in Flagged(regions, flag) <==> r in regions && r.toFlush == flag
  {
    if regions != [] {
      FlaggedMembers(regions[1..], flag);
      assert regions == [regions[0]] + regions[1..];
    }
  }

  lemma {:induction false} FlaggedStep(regions: seq<Region>, flag: bool)
    requires regions != []
    ensures Flat(Flagged(regions, flag)) ==
            (if regions[0].toFlush == flag then regions[0].blocks else []) + Flat(Flagged(regions[1..], flag))
  {
    var rest := Flagged(regions[1..], flag);
    if regions[0].toFlush == flag {
      assert ([regions[0]] + rest)[1..] == rest;
    }
  }

  lemma {:induction false} FlaggedPages(regions: seq<Region>)
    ensures Pages(Flat(Flagged(regions, true))) + Pages(Flat(Flagged(regions, false))) == Pages(Flat(regions))
  {
    if regions != [] {
      var f, rest := regions[0].toFlush, regions[1..];
      FlaggedPages(rest);
      FlaggedStep(regions, f);
      FlaggedStep(regions, !f);
      PagesJoin(regions[0].blocks, Flat(rest));
      PagesJoin(regions[0].blocks, Flat(Flagged(rest, f)));
      assert [] + Flat(Flagged(rest, !f)) == Flat(Flagged(rest, !f));
    }
  }

  /** Erasing regions keeps the others in order, apart and right. */
  lemma {:induction false} FlaggedOk(prog: Program, regions: seq<Region>, flag: bool)
    requires ProgramOk(prog) && CacheOk(prog, regions)
    ensures CacheOk(prog, Flagged(regions, flag))
  {
    if regions != [] {
      TailOk(prog, regions);
      FlaggedOk(prog, regions[1..], flag);
      FlaggedMembers(regions[1..], flag);
      FrontOk(prog, regions, Flagged(regions[1..], flag));
    }
  }

  lemma TailOk(prog: Program, regions: seq<Region>)
    requires ProgramOk(prog) && CacheOk(prog, regions) && regions != []
    ensures CacheOk(prog, regions[1..])
  {
    var cov := Covers(regions);
    assert Covers(regions[1..]) == cov[1..];
    AllGoodSlice(prog, regions, 1, |regions|);
    assert regions[1..|regions|] == regions[1..];
  }

  lemma FrontOk(prog: Program, regions: seq<Region>, some: seq<Region>)
    requires ProgramOk(prog) && CacheOk(prog, regions) && CacheOk(prog, some) && regions != []
    requires forall q :: q in some ==> q in regions[1..]
    ensures CacheOk(prog, [regions[0]] + some)
  {
    FrontSorted(regions, some);
    assert GoodAt(prog, regions, 0);
    SplicedGood(prog, [], regions[0], some);
    assert [] + [regions[0]] + some == [regions[0]] + some;
  }

  lemma FrontSorted(regions: seq<Region>, some: seq<Region>)
    requires Sorted(Covers(regions)) && Sorted(Covers(some)) && regions != []
    requires forall q :: q in some ==> q in regions[1..]
    ensures Sorted(Covers([regions[0]] + some))
  {
    var cov, all := Covers([regions[0]] + some), Covers(regions);
    forall j | 0 < j < |cov|
      ensures all[0].end <= cov[j].start && cov[j] == Covers(some)[j - 1]
    {
      assert some[j - 1] in regions[1..];
      var i :| 0 <= i < |regions[1..]| && regions[1..][i] == some[j - 1];
      assert all[0].end <= all[i + 1].start;
    }
    assert cov[0] == all[0];
  }

  // ------------------------------------------------------------------------
  // The eviction list
  // ------------------------------------------------------------------------

  ghost function Ids(regions: seq<Region>): (ids: seq<nat>)
    ensures |ids| == |regions| && forall i :: 0 <= i < |ids| ==> ids[i] == regions[i].id
  {
    seq(|regions|, i requires 0 <= i < |regions| => regions[i].id)
  }

  lemma IdsJoin(x: seq<Region>, y: seq<Region>)
    ensures Ids(x + y) == Ids(x) + Ids(y)
  {
  }

  /** The list names every region once; new regions get new names. */
  ghost predicate ListOk(regions: seq<Region>, list: seq<nat>, nextId: nat) {
    && multiset(list) == multiset(Ids(regions))
    && RV.Distinct(list)
    && forall x :: x in list ==> x < nextId
  }

  /** What Kept leaves of each element. */
  lemma {:induction false} KeptCount(s: seq<nat>, flagged: set<nat>, x: nat)
    ensures multiset(RV.Kept(s, flagged))[x] == if x in flagged then 0 else multiset(s)[x]
  {
    if s != [] {
      KeptCount(s[1..], flagged, x);
      assert s == [s[0]] + s[1..];
      assert multiset(s)[x] == multiset([s[0]])[x] + multiset(s[1..])[x];
      if s[0] !in flagged {
        var head: seq<nat>, k: seq<nat> := [s[0]], RV.Kept(s[1..], flagged);
        assert multiset(head + k) == multiset(head) + multiset(k);
      }
    }
  }

  lemma {:induction false} KeptSame(s: seq<nat>, t: seq<nat>, flagged: set<nat>)
    requires multiset(s) == multiset(t)
    ensures multiset(RV.Kept(s, flagged)) == multiset(RV.Kept(t, flagged))
  {
    forall x: nat
      ensures multiset(RV.Kept(s, flagged))[x] == multiset(RV.Kept(t, flagged))[x]
    {
      KeptCount(s, flagged, x);
      KeptCount(t, flagged, x);
    }
  }

  lemma DistinctCount(s: seq<nat>, x: nat)
    requires RV.Distinct(s)
    ensures multiset(s)[x] <= 1
  {
    if i :| 0 <= i < |s| && s[i] == x {
      var a, b := s[..i], s[i + 1..];
      assert s == a + [x] + b;
      assert x !in a && x !in b;
    } else {
      assert x !in s;
    }
  }

  ghost function ListAfter(before: seq<Region>, list: seq<nat>, id: nat, p: Placement): seq<nat>
    requires Applicable(Covers(before), p)
  {
    if p.Insert? then list + [id]
    else if p.Fuse? then RV.Kept(list, {before[p.at + 1].id})
    else list
  }

  lemma ListMember(regions: seq<Region>, list: seq<nat>, nextId: nat, i: nat)
    requires ListOk(regions, list, nextId) && i < |regions|
    ensures regions[i].id in list && regions[i].id < nextId
  {
    assert Ids(regions)[i] == regions[i].id;
    assert regions[i].id in multiset(Ids(regions));
  }

  lemma IdsSet(regions: seq<Region>, r: nat, q: Region)
    requires r < |regions| && q.id == regions[r].id
    ensures Ids(regions[r := q]) == Ids(regions)
  {
  }

  /** A new region goes to the end of the list, a merged one leaves it; the others keep their
      order. */
  lemma ListPlaced(regions: seq<Region>, list: seq<nat>, id: nat, p: Placement)
    requires ListOk(regions, list, id) && Applicable(Covers(regions), p)
    ensures ListOk(PlaceRegions(regions, p, id), ListAfter(regions, list, id, p), if p.Insert? then id + 1 else id)
  {
    if p.Widen? {
      IdsSet(regions, p.at, regions[p.at].(covered := p.range));
    } else if p.Insert? {
      ListInserted(regions, list, id, p.at, NewRegion(id, p.range));
    } else if p.Fuse? {
      ListFused(regions, list, id, p.at, Merged(regions[p.at], regions[p.at + 1]).(covered := p.range));
    }
  }

  lemma ListInserted(regions: seq<Region>, list: seq<nat>, id: nat, i: nat, q: Region)
    requires ListOk(regions, list, id) && i <= |regions| && q.id == id
    ensures ListOk(regions[..i] + [q] + regions[i..], list + [id], id + 1)
  {
    var x, y := regions[..i], regions[i..];
    IdsJoin(x + [q], y);
    IdsJoin(x, [q]);
    IdsJoin(x, y);
    assert Ids([q]) == [id];
    assert x + y == regions;
    SnocDistinct(list, id);
    Moved(Ids(x), id, Ids(y));
  }

  lemma Moved(x: seq<nat>, e: nat, y: seq<nat>)
    ensures multiset(x + [e] + y) == multiset(x + y + [e])
  {
  }

  lemma SnocDistinct(list: seq<nat>, id: nat)
    requires RV.Distinct(list) && forall x :: x in list ==> x < id
    ensures RV.Distinct(list + [id]) && forall x :: x in list + [id] ==> x < id + 1
  {
    forall i, j | 0 <= i < j < |list + [id]|
      ensures (list + [id])[i] != (list + [id])[j]
    {
      assert list[i] in list;
    }
  }

  lemma {:induction false} ListFused(regions: seq<Region>, list: seq<nat>, id: nat, i: nat, q: Region)
    requires ListOk(regions, list, id) && i + 1 < |regions| && q.id == regions[i].id
    ensures ListOk(regions[..i] + [q] + regions[i + 2..], RV.Kept(list, {regions[i + 1].id}), id)
  {
    var gone := regions[i + 1].id;
    var x, y := regions[..i] + [q], regions[i + 2..];
    var old' := regions[i := q];
    IdsSet(regions, i, q);
    assert old' == x + [regions[i + 1]] + y;
    IdsJoin(x + [regions[i + 1]], y);
    IdsJoin(x, [regions[i + 1]]);
    IdsJoin(x, y);
    assert Ids([regions[i + 1]]) == [gone];
    RV.KeptDistinct(list, {gone});
    WithoutOne(list, Ids(x), gone, Ids(y));
  }

  lemma {:induction false} WithoutOne(list: seq<nat>, x: seq<nat>, gone: nat, y: seq<nat>)
    requires RV.Distinct(list) && multiset(list) == multiset(x + [gone] + y)
    ensures multiset(RV.Kept(list, {gone})) == multiset(x + y)
  {
    assert multiset(x + [gone] + y) == multiset(x + y) + multiset([gone]);
    forall e: nat
      ensures multiset(RV.Kept(list, {gone}))[e] == multiset(x + y)[e]
    {
      KeptCount(list, {gone}, e);
      DistinctCount(list, e);
      assert multiset(list)[e] == multiset(x + y)[e] + multiset([gone])[e];
    }
  }

  /** The names of the flagged regions. */
  ghost function FlaggedIds(regions: seq<Region>): set<nat> {
    set r | 0 <= r < |regions| && regions[r].toFlush :: regions[r].id
  }

  /** Regions with the same name have the same flag. */
  ghost predicate FlagsByName(regions: seq<Region>, gone: set<nat>) {
    forall r :: 0 <= r < |regions| ==> (regions[r].toFlush <==> regions[r].id in gone)
  }

  lemma NamedFlags(regions: seq<Region>, list: seq<nat>, nextId: nat)
    requires ListOk(regions, list, nextId)
    ensures FlagsByName(regions, FlaggedIds(regions))
  {
    forall r, q | 0 <= r < |regions| && 0 <= q < |regions| && regions[r].id == regions[q].id
      ensures r == q
    {
      if r < q {
        SameName(regions, list, nextId, r, q);
      } else if q < r {
        SameName(regions, list, nextId, q, r);
      }
    }
  }

  lemma SameName(regions: seq<Region>, list: seq<nat>, nextId: nat, r: nat, q: nat)
    requires ListOk(regions, list, nextId) && r < q < |regions|
    ensures regions[r].id != regions[q].id
  {
    var ids := Ids(regions);
    DistinctCount(list, ids[r]);
    assert ids == ids[..q] + ids[q..];
    assert ids[r] in ids[..q];
    assert ids[q..][0] == ids[q] && ids[q] in ids[q..];
    assert multiset(ids)[ids[r]] == multiset(ids[..q])[ids[r]] + multiset(ids[q..])[ids[r]];
  }

  lemma {:induction false} FlaggedNames(regions: seq<Region>, gone: set<nat>)
    requires FlagsByName(regions, gone)
    ensures Ids(Flagged(regions, false)) == RV.Kept(Ids(regions), gone)
  {
    if regions != [] {
      var r, rest := regions[0], Flagged(regions[1..], false);
      assert FlagsByName(regions[1..], gone);
      FlaggedNames(regions[1..], gone);
      IdsFront(r, regions[1..]);
      assert regions == [r] + regions[1..];
      KeptFront(r.id, Ids(regions[1..]), gone);
      if !r.toFlush {
        IdsFront(r, rest);
      }
    }
  }

  lemma IdsFront(r: Region, rest: seq<Region>)
    ensures Ids([r] + rest) == [r.id] + Ids(rest)
  {
  }

  lemma KeptFront(x: nat, rest: seq<nat>, gone: set<nat>)
    ensures RV.Kept([x] + rest, gone) == if x in gone then RV.Kept(rest, gone) else [x] + RV.Kept(rest, gone)
  {
    assert ([x] + rest)[1..] == rest;
  }

  /** flushCommit takes exactly the erased regions out of the list. */
  lemma {:induction false} ListFlushed(regions: seq<Region>, list: seq<nat>, nextId: nat)
    requires ListOk(regions, list, nextId)
    ensures ListOk(Flagged(regions, false), RV.Kept(list, FlaggedIds(regions)), nextId)
  {
    var gone := FlaggedIds(regions);
    NamedFlags(regions, list, nextId);
    FlaggedNames(regions, gone);
    KeptSame(list, Ids(regions), gone);
    RV.KeptDistinct(list, gone);
  }

  /** A flagged region is never forgotten. */
  ghost predicate FlagsOk(regions: seq<Region>, needFlush: bool) {
    forall r :: 0 <= r < |regions| && regions[r].toFlush ==> needFlush
  }

  lemma FlagsPlaced(regions: seq<Region>, p: Placement, id: nat, needFlush: bool)
    requires FlagsOk(regions, needFlush) && Applicable(Covers(regions), p)
    ensures FlagsOk(PlaceRegions(regions, p, id), needFlush)
  {
    var out := PlaceRegions(regions, p, id);
    forall r | 0 <= r < |out| && out[r].toFlush
      ensures needFlush
    {
      if p.Fuse? {
        assert r < p.at ==> out[r] == regions[r];
        assert r > p.at ==> out[r] == regions[r + 1];
      } else if p.Insert? {
        assert r < p.at ==> out[r] == regions[r];
        assert r > p.at ==> out[r] == regions[r - 1];
      }
    }
  }

  // ------------------------------------------------------------------------
  // All of it
  // ------------------------------------------------------------------------

  /** The books agree with the regions. The page map may hold more than the live pages: a
      flush of everything at once does not clean it. */
  ghost predicate Booked(regions: seq<Region>, list: seq<nat>, nextId: nat, needFlush: bool, pages: set<nat>) {
    && ListOk(regions, list, nextId) && FlagsOk(regions, needFlush)
    && Pages(Flat(regions)) <= multiset(pages)
  }

  ghost predicate Exact(regions: seq<Region>, pages: set<nat>) { Pages(Flat(regions)) == multiset(pages) }

  lemma BookedPlaced(regions: seq<Region>, list: seq<nat>, id: nat, needFlush: bool, pages: set<nat>, p: Placement)
    requires Booked(regions, list, id, needFlush, pages) && Applicable(Covers(regions), p)
    ensures Booked(PlaceRegions(regions, p, id), ListAfter(regions, list, id, p), if p.Insert? then id + 1 else id, needFlush, pages)
    ensures Exact(regions, pages) ==> Exact(PlaceRegions(regions, p, id), pages)
  {
    ListPlaced(regions, list, id, p);
    FlagsPlaced(regions, p, id, needFlush);
    FlatPlace(regions, p, id);
  }

  /** Changing the contents of one region's blocks is no concern of the books. */
  lemma BookedSame(regions: seq<Region>, list: seq<nat>, id: nat, needFlush: bool, pages: set<nat>, r: nat, q: Region)
    requires Booked(regions, list, id, needFlush, pages) && r < |regions|
    requires q.id == regions[r].id && q.toFlush == regions[r].toFlush
    requires |q.blocks| == |regions[r].blocks| && Extends(regions[r].blocks, q.blocks)
    ensures Booked(regions[r := q], list, id, needFlush, pages)
    ensures Pages(Flat(regions[r := q])) == Pages(Flat(regions))
  {
    IdsSet(regions, r, q);
    PagesSame(regions[r].blocks, q.blocks);
    PagesAt(regions, r, q, multiset{});
  }

  /** flushCommit: erased pages leave the map with their regions. */
  lemma {:induction false} BookedFlushed(regions: seq<Region>, list: seq<nat>, id: nat, needFlush: bool, pages: set<nat>, pages': set<nat>)
    requires Booked(regions, list, id, needFlush, pages)
    requires forall x :: x in pages' <==> x in pages && x !in Pages(Flat(Flagged(regions, true)))
    ensures Booked(Flagged(regions, false), RV.Kept(list, FlaggedIds(regions)), id, false, pages')
    ensures Exact(regions, pages) ==> Exact(Flagged(regions, false), pages')
  {
    ListFlushed(regions, list, id);
    FlaggedMembers(regions, false);
    FlaggedPages(regions);
    Erased(Pages(Flat(regions)), Pages(Flat(Flagged(regions, true))), Pages(Flat(Flagged(regions, false))), pages, pages');
  }

  lemma Erased(all: multiset<nat>, gone: multiset<nat>, left: multiset<nat>, pages: set<nat>, pages': set<nat>)
    requires gone + left == all && all <= multiset(pages)
    requires forall x :: x in pages' <==> x in pages && x !in gone
    ensures left <= multiset(pages') && (all == multiset(pages) ==> left == multiset(pages'))
  {
    forall x
      ensures left[x] <= multiset(pages')[x]
      ensures all == multiset(pages) ==> left[x] == multiset(pages')[x]
    {
      assert gone[x] + left[x] == all[x] <= multiset(pages)[x];
    }
  }
}
