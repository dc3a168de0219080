/** The manager's regions and eviction list, and the vector of list nodes behind them: the vector
    follows every operation (src/ExecBlock/ExecBlockManager.cpp). */
module Evictions {
  import opened Caches
  import opened Placements
  import opened RegionLists
  import opened PageMaps
  import opened Lookups
  import opened RegionVectors

  /** The vector holds the regions in their order, and its nodes are linked in the order of the list. */
  ghost predicate Mirrors(v: RegionVector, regions: seq<Region>, list: seq<nat>)
    reads v, v.slots, v.model.ring
  {
    v.Valid() && v.model.regions == Ids(regions) && v.model.Ages() == list
  }

  /** findRegion on the vector: a merge erases an element, a new region is emplaced and linked last,
      after all elements were moved to new memory if there is no room for one more. */
  method FollowPlacement(v: RegionVector, ghost regions: seq<Region>, ghost list: seq<nat>, id: nat, p: Placement, full: bool)
    requires Mirrors(v, regions, list) && ListOk(regions, list, id) && Applicable(Covers(regions), p)
    modifies v, v.slots, v.list.head
    ensures Mirrors(v, PlaceRegions(regions, p, id), ListAfter(regions, list, id, p))
  {
    PlacedIds(regions, list, id, p);
    match p
    case Keep(_) =>
    case Widen(_, _) =>
    case Fuse(i, _) => v.Erase(i + 1);
    case Insert(i, _) =>
      if full {
        v.Reallocate();
      }
      v.Emplace(i, id);
  }

  /** clearCache(true) on the vector: all elements are destroyed. */
  method FollowClear(v: RegionVector, ghost regions: seq<Region>, ghost list: seq<nat>)
    requires Mirrors(v, regions, list)
    modifies v, v.slots, v.list.head
    ensures Mirrors(v, [], [])
  {
    v.Clear();
  }

  /** flushCommit on the vector: the flagged elements are removed. */
  method FollowFlush(v: RegionVector, ghost regions: seq<Region>, ghost list: seq<nat>, ghost nextId: nat, gone: set<nat>)
    requires Mirrors(v, regions, list) && ListOk(regions, list, nextId) && gone == FlaggedIds(regions)
    modifies v, v.slots, v.list.head
    ensures Mirrors(v, Flagged(regions, false), Kept(list, gone))
  {
    NamedFlags(regions, list, nextId);
    FlaggedNames(regions, gone);
    v.RemoveIf(gone);
  }

  /** The loop of reduceCacheTo visits the regions in the order of the list. */
  method FollowEviction(v: RegionVector, ghost regions: seq<Region>, ghost list: seq<nat>) returns (ages: seq<nat>)
    requires Mirrors(v, regions, list)
    ensures ages == list
  {
    ages := v.Oldest();
  }

  lemma PlacedIds(regions: seq<Region>, list: seq<nat>, id: nat, p: Placement)
    requires ListOk(regions, list, id) && Applicable(Covers(regions), p)
    ensures var ids := Ids(regions);
            match p
            case Keep(_) => Ids(PlaceRegions(regions, p, id)) == ids
            case Widen(_, _) => Ids(PlaceRegions(regions, p, id)) == ids
            case Fuse(i, _) => Ids(PlaceRegions(regions, p, id)) == ids[..i + 1] + ids[i + 2..]
            case Insert(i, _) => id !in ids && Ids(PlaceRegions(regions, p, id)) == ids[..i] + [id] + ids[i..]
  {
    if p.Insert? {
      forall i | 0 <= i < |regions|
        ensures Ids(regions)[i] != id
      {
        ListMember(regions, list, id, i);
      }
    }
  }
}
