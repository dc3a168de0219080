/** The `regions` vector of src/ExecBlock/ExecBlockManager.h: its slots are nodes of the intrusive
    list `regionsReduceList`, so std::vector relocates the list's nodes when it moves elements. */
module RegionVectors {
  import opened Rings
  import opened Folding

  /** The slots along the list after the node of slot x was removed or destroyed. */
  ghost function Dropped(list: seq<nat>, x: nat): seq<nat> {
    if list == [] then []
    else if list[0] == x then Dropped(list[1..], x)
    else [list[0]] + Dropped(list[1..], x)
  }

  /** The slots along the list after `slot dst = std::move(slot src)`. */
  ghost function Shifted(list: seq<nat>, dst: nat, src: nat): seq<nat> {
    if list == [] then []
    else if list[0] == dst then Shifted(list[1..], dst, src)
    else [if list[0] == src then dst else list[0]] + Shifted(list[1..], dst, src)
  }

  /** The slots of a list are slots of the vector. */
  ghost predicate Within(list: seq<nat>, n: nat) {
    forall i :: 0 <= i < |list| ==> list[i] < n
  }

  /** The regions along the list. */
  ghost function Order(list: seq<nat>, regions: seq<nat>): seq<nat>
    requires Within(list, |regions|)
  {
    if list == [] then [] else [regions[list[0]]] + Order(list[1..], regions)
  }

  ghost function Kept(s: seq<nat>, flagged: set<nat>): seq<nat> {
    if s == [] then []
    else if s[0] in flagged then Kept(s[1..], flagged)
    else [s[0]] + Kept(s[1..], flagged)
  }

  // ------------------------------------------------------------------------

  lemma {:induction false} DroppedMembers(list: seq<nat>, x: nat)
    ensures forall y: nat :: y in Dropped(list, x) <==> y in list && y != x
  {
    if list != [] {
      DroppedMembers(list[1..], x);
      assert list == [list[0]] + list[1..];
    }
  }

  lemma {:induction false} MovedMembers(list: seq<nat>, dst: nat, src: nat)
    requires dst != src
    ensures forall y: nat :: y in Shifted(list, dst, src) <==>
              (y == dst && src in list) || (y in list && y != dst && y != src)
  {
    if list != [] {
      MovedMembers(list[1..], dst, src);
      assert list == [list[0]] + list[1..];
    }
  }

  lemma {:induction false} DroppedAbsent(list: seq<nat>, x: nat)
    requires x !in list
    ensures Dropped(list, x) == list
  {
    if list != [] {
      DroppedAbsent(list[1..], x);
    }
  }

  lemma WithinMembers(list: seq<nat>, n: nat)
    requires forall y: nat :: y in list ==> y < n
    ensures Within(list, n)
  {
    forall i | 0 <= i < |list|
      ensures list[i] < n
    {
      assert list[i] in list;
    }
  }

  /** A moved region keeps its place in the list; what the target slot held leaves it. */
  lemma {:induction false} MoveKeepsOrder(list: seq<nat>, regions: seq<nat>, dst: nat, src: nat)
    requires Within(list, |regions|) && dst < |regions| && src < |regions| && dst != src
    ensures Within(Shifted(list, dst, src), |regions|) && Within(Dropped(list, dst), |regions|)
    ensures Order(Shifted(list, dst, src), regions[dst := regions[src]]) == Order(Dropped(list, dst), regions)
  {
    if list != [] {
      MoveKeepsOrder(list[1..], regions, dst, src);
      if list[0] != dst {
        var h := if list[0] == src then dst else list[0];
        assert ([h] + Shifted(list[1..], dst, src))[1..] == Shifted(list[1..], dst, src);
        assert ([list[0]] + Dropped(list[1..], dst))[1..] == Dropped(list[1..], dst);
      }
    }
  }

  lemma {:induction false} OrderExtend(list: seq<nat>, regions: seq<nat>, more: seq<nat>)
    requires Within(list, |regions|)
    ensures Within(list, |regions + more|) && Order(list, regions + more) == Order(list, regions)
  {
    if list != [] {
      OrderExtend(list[1..], regions, more);
    }
  }

  lemma {:induction false} OrderAppend(list: seq<nat>, x: nat, regions: seq<nat>)
    requires Within(list, |regions|) && x < |regions|
    ensures Within(list + [x], |regions|)
    ensures Order(list + [x], regions) == Order(list, regions) + [regions[x]]
  {
    if list == [] {
      assert list + [x] == [x];
    } else {
      assert (list + [x])[1..] == list[1..] + [x];
      OrderAppend(list[1..], x, regions);
    }
  }

  lemma {:induction false} OrderUnused(list: seq<nat>, regions: seq<nat>, k: nat, r: nat)
    requires Within(list, |regions|) && k < |regions| && k !in list
    ensures Order(list, regions[k := r]) == Order(list, regions)
  {
    if list != [] {
      OrderUnused(list[1..], regions, k, r);
    }
  }

  lemma {:induction false} DroppedKept(list: seq<nat>, regions: seq<nat>, x: nat, flagged: set<nat>)
    requires Within(list, |regions|) && (x in list ==> regions[x] in flagged)
    ensures Within(Dropped(list, x), |regions|)
    ensures Kept(Order(Dropped(list, x), regions), flagged) == Kept(Order(list, regions), flagged)
  {
    if list != [] {
      DroppedKept(list[1..], regions, x, flagged);
      var rest := Dropped(list[1..], x);
      if list[0] != x {
        assert ([list[0]] + rest)[1..] == rest;
        assert ([regions[list[0]]] + Order(rest, regions))[1..] == Order(rest, regions);
      }
      assert Order(list, regions)[1..] == Order(list[1..], regions);
    }
  }

  lemma {:induction false} AllKept(s: seq<nat>, flagged: set<nat>)
    requires forall i :: 0 <= i < |s| ==> s[i] !in flagged
    ensures Kept(s, flagged) == s
  {
    if s != [] {
      AllKept(s[1..], flagged);
    }
  }

  lemma {:induction false} OrderAt(list: seq<nat>, regions: seq<nat>, i: nat)
    requires Within(list, |regions|) && i < |list|
    ensures |Order(list, regions)| == |list| && Order(list, regions)[i] == regions[list[i]]
  {
    if i > 0 {
      OrderAt(list[1..], regions, i - 1);
    } else if |list| > 1 {
      OrderAt(list[1..], regions, 0);
    }
  }

  lemma {:induction false} OrderLength(list: seq<nat>, regions: seq<nat>)
    requires Within(list, |regions|)
    ensures |Order(list, regions)| == |list|
  {
    if list != [] {
      OrderLength(list[1..], regions);
    }
  }

  ghost predicate Distinct(s: seq<nat>) {
    forall i, j :: 0 <= i < j < |s| ==> s[i] != s[j]
  }

  lemma InsertedDistinct(s: seq<nat>, k: nat, r: nat)
    requires Distinct(s) && k <= |s| && r !in s
    ensures Distinct(s[..k] + [r] + s[k..])
  {
  }

  lemma {:induction false} KeptDistinct(s: seq<nat>, flagged: set<nat>)
    requires Distinct(s)
    ensures Distinct(Kept(s, flagged)) && forall x :: x in Kept(s, flagged) ==> x in s
  {
    if s != [] {
      KeptDistinct(s[1..], flagged);
      assert forall x :: x in s[1..] ==> x in s;
      assert s[0] !in s[1..];
    }
  }

  /** Without two slots for one region, dropping the slot drops just its region. */
  lemma {:induction false} DroppedIsKept(list: seq<nat>, regions: seq<nat>, k: nat)
    requires Within(list, |regions|) && k < |regions| && Distinct(regions)
    ensures Within(Dropped(list, k), |regions|)
    ensures Order(Dropped(list, k), regions) == Kept(Order(list, regions), {regions[k]})
  {
    if list != [] {
      DroppedIsKept(list[1..], regions, k);
      assert Order(list, regions)[1..] == Order(list[1..], regions);
      if list[0] != k {
        assert ([list[0]] + Dropped(list[1..], k))[1..] == Dropped(list[1..], k);
      }
    }
  }

  lemma {:induction false} KeptSnoc(s: seq<nat>, x: nat, flagged: set<nat>)
    ensures Kept(s + [x], flagged) == Kept(s, flagged) + (if x in flagged then [] else [x])
  {
    if s == [] {
      assert s + [x] == [x];
    } else {
      assert (s + [x])[1..] == s[1..] + [x];
      KeptSnoc(s[1..], x, flagged);
    }
  }

  // ------------------------------------------------------------------------

  /** What removing position p does to the slots along the list. */
  lemma {:induction false} DroppedAt(list: seq<nat>, x: nat, p: nat)
    requires Distinct(list) && p < |list| && list[p] == x
    ensures Dropped(list, x) == Without(list, p)
  {
    if p == 0 {
      DroppedAbsent(list[1..], x);
      assert Without(list, 0) == list[1..];
    } else {
      DroppedAt(list[1..], x, p - 1);
      assert Without(list, p) == [list[0]] + Without(list[1..], p - 1);
    }
  }

  lemma {:induction false} ShiftedAbsent(list: seq<nat>, dst: nat, src: nat)
    requires dst !in list && src !in list
    ensures Shifted(list, dst, src) == list
  {
    if list != [] {
      ShiftedAbsent(list[1..], dst, src);
    }
  }

  /** A free slot takes the place of the one at position p. */
  lemma {:induction false} ShiftedFree(list: seq<nat>, dst: nat, src: nat, p: nat)
    requires Distinct(list) && p < |list| && list[p] == src && dst !in list
    ensures Shifted(list, dst, src) == list[p := dst]
  {
    if p == 0 {
      ShiftedAbsent(list[1..], dst, src);
      assert list[0 := dst] == [dst] + list[1..];
    } else {
      ShiftedFree(list[1..], dst, src, p - 1);
      assert list[p := dst] == [list[0]] + list[1..][p - 1 := dst];
    }
  }

  /** A slot leaves position q and takes the place of the one at position p. */
  lemma {:induction false} ShiftedTaken(list: seq<nat>, dst: nat, src: nat, p: nat, q: nat)
    requires Distinct(list) && p < |list| && list[p] == src && q < |list| && list[q] == dst && dst != src
    ensures Shifted(list, dst, src) == Without(list[p := dst], q)
  {
    if q == 0 {
      ShiftedFree(list[1..], dst, src, p - 1);
      assert list[p := dst][1..] == list[1..][p - 1 := dst];
    } else if p == 0 {
      ShiftedDropped(list[1..], dst, src);
      DroppedAt(list[1..], dst, q - 1);
      assert Without(list[0 := dst], q) == [dst] + Without(list[1..], q - 1);
    } else {
      ShiftedTaken(list[1..], dst, src, p - 1, q - 1);
      assert Without(list[p := dst], q) == [list[0]] + Without(list[1..][p - 1 := dst], q - 1);
    }
  }

  lemma {:induction false} ShiftedDropped(list: seq<nat>, dst: nat, src: nat)
    requires src !in list
    ensures Shifted(list, dst, src) == Dropped(list, dst)
  {
    if list != [] {
      ShiftedDropped(list[1..], dst, src);
    }
  }

  // ------------------------------------------------------------------------

  ghost predicate Alone(n: Node)
    reads n
  {
    n.next == n && n.prev == n
  }

  /** The slots of a vector, and the ring of a list behind whose head the slots numbered in `list`
      follow each other. The other slots are in no list. */
  ghost predicate Linked(slots: seq<Node>, head: Node, ring: seq<Node>, list: seq<nat>)
    reads slots, ring
  {
    && IsRing(ring) && Threaded(slots, head, ring, list)
    && forall y :: 0 <= y < |slots| && y !in list ==> Alone(slots[y])
  }

  ghost predicate Threaded(slots: seq<Node>, head: Node, ring: seq<Node>, list: seq<nat>) {
    && |ring| == |list| + 1 && ring[0] == head && head !in slots
    && (forall i, j :: 0 <= i < j < |slots| ==> slots[i] != slots[j])
    && Within(list, |slots|) && forall i {:trigger list[i]} :: 0 <= i < |list| ==> ring[i + 1] == slots[list[i]]
  }

  ghost predicate Holds(slots: seq<Node>, regions: seq<nat>)
    reads slots
  {
    |slots| == |regions| && forall i :: 0 <= i < |slots| ==> slots[i].region == regions[i]
  }

  /** Along a ring no slot comes twice. */
  lemma ThreadedDistinct(slots: seq<Node>, head: Node, ring: seq<Node>, list: seq<nat>)
    requires Threaded(slots, head, ring, list) && forall i, j :: 0 <= i < j < |ring| ==> ring[i] != ring[j]
    ensures Distinct(list)
  {
    forall i, j | 0 <= i < j < |list|
      ensures list[i] != list[j]
    {
      assert ring[i + 1] != ring[j + 1];
    }
  }

  lemma ThreadedApart(slots: seq<Node>, head: Node, ring: seq<Node>, list: seq<nat>, y: nat)
    requires Threaded(slots, head, ring, list) && y < |slots| && y !in list
    ensures slots[y] !in ring
  {
    forall i | 0 <= i < |ring|
      ensures ring[i] != slots[y]
    {
      if i > 0 {
        assert ring[i] == slots[list[i - 1]] && list[i - 1] in list;
      } else {
        assert slots[y] in slots;
      }
    }
  }

  lemma ThreadedWithout(slots: seq<Node>, head: Node, ring: seq<Node>, list: seq<nat>, p: nat)
    requires Threaded(slots, head, ring, list) && p < |list|
    ensures Threaded(slots, head, Without(ring, p + 1), Without(list, p))
  {
    var r, l := Without(ring, p + 1), Without(list, p);
    forall i | 0 <= i < |l|
      ensures l[i] < |slots| && r[i + 1] == slots[l[i]]
    {
      var k := if i < p then i else i + 1;
      assert l[i] == list[k] && r[i + 1] == ring[k + 1];
    }
  }

  lemma ThreadedSet(slots: seq<Node>, head: Node, ring: seq<Node>, list: seq<nat>, p: nat, dst: nat)
    requires Threaded(slots, head, ring, list) && p < |list| && dst < |slots|
    ensures Threaded(slots, head, ring[p + 1 := slots[dst]], list[p := dst])
  {
  }

  lemma RingNodes(slots: seq<Node>, head: Node, ring: seq<Node>, list: seq<nat>)
    requires Threaded(slots, head, ring, list)
    ensures forall i :: 0 <= i < |ring| ==> ring[i] == head || ring[i] in slots
  {
    forall i | 0 <= i < |ring|
      ensures ring[i] == head || ring[i] in slots
    {
      if i > 0 {
        assert ring[i] == slots[list[i - 1]];
      }
    }
  }

  /** The list and the slots as values: the nodes of the list from its head on, the slots they are,
      oldest region first, and the region in each slot. */
  datatype Model = Model(ring: seq<Node>, order: seq<nat>, regions: seq<nat>) {

    /** The regions from the oldest to the youngest. */
    ghost function Ages(): seq<nat>
      requires Within(order, |regions|)
    {
      Order(order, regions)
    }
  }

  /** The nodes are linked as the model says; folded. */
  ghost predicate Modelled(slots: seq<Node>, head: Node, m: Model)
    reads slots, m.ring
  {
    && |slots| == |m.regions| && Within(m.order, |slots|)
    && forall u {:trigger Asked(AVector, u)} :: Asked(AVector, u) ==> Linked(slots, head, m.ring, m.order) && Holds(slots, m.regions)
  }

  lemma ModelledIs(slots: seq<Node>, head: Node, m: Model)
    ensures Modelled(slots, head, m) <==> Linked(slots, head, m.ring, m.order) && Holds(slots, m.regions)
  {
    assert Asked(AVector, 0);
  }

  lemma RegionAt(slots: seq<Node>, head: Node, m: Model, i: nat)
    requires Modelled(slots, head, m) && i < |slots|
    ensures slots[i].region == m.regions[i]
  {
    ModelledIs(slots, head, m);
  }

  // ------------------------------------------------------------------------
  // What happens to single slots
  // ------------------------------------------------------------------------

  /** `slot dst = std::move(slot src)` */
  method MoveAssign(slots: seq<Node>, ghost head: Node, dst: nat, src: nat, ghost m: Model) returns (ghost m': Model)
    requires Modelled(slots, head, m) && dst < |slots| && src < |slots| && dst != src && src in m.order
    modifies slots, head
    ensures Modelled(slots, head, m') && m'.regions == m.regions[dst := m.regions[src]]
    ensures m'.order == Shifted(m.order, dst, src)
  {
    ModelledIs(slots, head, m);
    ThreadedDistinct(slots, head, m.ring, m.order);
    ghost var p :| 0 <= p < |m.order| && m.order[p] == src;
    ghost var t, j := Target(slots, head, m.ring, m.order, dst, src, p);
    Relink(dst, src, slots, head, m.ring, m.order, p, t, j);
    Relinked(slots, head, m.ring, m.order, dst, src, p, t, j);
    m' := Model(Moved(m.ring, t, p + 1, j, slots[dst]), Shifted(m.order, dst, src), m.regions[dst := m.regions[src]]);
    ModelledIs(slots, head, m');
  }

  /** The destructor of slot x takes its node out of the list. */
  method Destroy(slots: seq<Node>, ghost head: Node, x: nat, ghost m: Model) returns (ghost m': Model)
    requires Modelled(slots, head, m) && x < |slots|
    modifies slots, head
    ensures Modelled(slots, head, m') && m'.regions == m.regions && m'.order == Dropped(m.order, x)
  {
    ModelledIs(slots, head, m);
    ThreadedDistinct(slots, head, m.ring, m.order);
    ghost var t, j := m.ring, 0;
    if x in m.order {
      ghost var p :| 0 <= p < |m.order| && m.order[p] == x;
      ThreadedWithout(slots, head, m.ring, m.order, p);
      DroppedAt(m.order, x, p);
      j := p + 1;
    } else {
      DroppedAbsent(m.order, x);
      AloneIs(slots[x]);
      t := [slots[x]];
    }
    Unlink(x, slots, head, m.ring, m.order, t, j);
    DroppedMembers(m.order, x);
    m' := m.(ring := if x in m.order then Without(m.ring, j) else m.ring, order := Dropped(m.order, x));
    ModelledIs(slots, head, m');
  }

  method Unlink(x: nat, slots: seq<Node>, ghost head: Node, ghost ring: seq<Node>, ghost list: seq<nat>, ghost t: seq<Node>, ghost j: nat)
    requires Linked(slots, head, ring, list) && x < |slots| && IsRing(t) && j < |t| && t[j] == slots[x]
    requires if x in list then t == ring && j > 0 else t == [slots[x]]
    modifies slots, head
    ensures Alone(slots[x]) && IsRing(if x in list then Without(ring, j) else ring)
    ensures forall y :: 0 <= y < |slots| && y !in list ==> Alone(slots[y])
    ensures forall y :: 0 <= y < |slots| ==> slots[y].region == old(slots[y].region)
  {
    RingNodes(slots, head, ring, list);
    ApartAll(slots, head, ring, list);
    slots[x].RemoveSelf(t, j);
    AloneIs(slots[x]);
  }

  /** Move construction of a new slot behind the last one. */
  method MoveLast(slots: seq<Node>, ghost head: Node, ghost m: Model) returns (more: seq<Node>, ghost m': Model)
    requires Modelled(slots, head, m) && |slots| > 0 && |slots| - 1 in m.order
    modifies slots, head
    ensures |more| == |slots| + 1 && slots <= more && fresh(more[|slots|])
    ensures Modelled(more, head, m') && m'.regions == m.regions + [m.regions[|slots| - 1]]
    ensures m'.order == Shifted(m.order, |slots|, |slots| - 1)
  {
    ghost var p := PlaceOf(slots, head, m, |slots| - 1);
    var n := Construct(slots, head, |slots| - 1, m.ring, m.order, p);
    more := slots + [n];
    m' := Constructed(slots, head, m, p, n);
  }

  lemma PlaceOf(slots: seq<Node>, head: Node, m: Model, x: nat) returns (p: nat)
    requires Modelled(slots, head, m) && x in m.order
    ensures p < |m.order| && m.order[p] == x && Distinct(m.order)
    ensures Linked(slots, head, m.ring, m.order) && Holds(slots, m.regions)
  {
    ModelledIs(slots, head, m);
    ThreadedDistinct(slots, head, m.ring, m.order);
    p :| 0 <= p < |m.order| && m.order[p] == x;
  }

  method Construct(slots: seq<Node>, ghost head: Node, x: nat, ghost ring: seq<Node>, ghost list: seq<nat>, ghost p: nat) returns (n: Node)
    requires Linked(slots, head, ring, list) && p < |list| && x < |slots| && list[p] == x
    modifies slots, head
    ensures fresh(n) && n.region == old(slots[x].region) && IsRing(ring[p + 1 := n]) && Alone(slots[x])
    ensures forall y :: 0 <= y < |slots| && y !in list ==> Alone(slots[y])
    ensures forall y :: 0 <= y < |slots| ==> slots[y].region == old(slots[y].region)
  {
    RingNodes(slots, head, ring, list);
    ApartAll(slots, head, ring, list);
    n := new Node.Move(slots[x], ring, p + 1);
    AloneIs(slots[x]);
  }

  lemma Constructed(slots: seq<Node>, head: Node, m: Model, p: nat, n: Node) returns (m': Model)
    requires Threaded(slots, head, m.ring, m.order) && Distinct(m.order)
    requires p < |m.order| && |slots| > 0 && m.order[p] == |slots| - 1
    requires n !in slots && n != head && IsRing(m.ring[p + 1 := n]) && Alone(slots[|slots| - 1])
    requires forall y :: 0 <= y < |slots| && y !in m.order ==> Alone(slots[y])
    requires Holds(slots, m.regions) && n.region == m.regions[|slots| - 1]
    ensures Modelled(slots + [n], head, m') && m'.regions == m.regions + [m.regions[|slots| - 1]]
    ensures m'.order == Shifted(m.order, |slots|, |slots| - 1)
  {
    ThreadedLonger(slots, head, m.ring, m.order, p, n);
    ShiftedFree(m.order, |slots|, |slots| - 1, p);
    var more, l := slots + [n], m.order[p := |slots|];
    forall y | 0 <= y < |more| && y !in l
      ensures Alone(more[y])
    {
      assert more[y] == slots[y];
    }
    m' := Model(m.ring[p + 1 := n], l, m.regions + [m.regions[|slots| - 1]]);
    ModelledIs(more, head, m');
  }

  /** A new slot takes the place of the last one. */
  lemma ThreadedLonger(slots: seq<Node>, head: Node, ring: seq<Node>, list: seq<nat>, p: nat, n: Node)
    requires Threaded(slots, head, ring, list) && p < |list| && |slots| > 0 && list[p] == |slots| - 1
    requires n !in slots && n != head
    ensures Threaded(slots + [n], head, ring[p + 1 := n], list[p := |slots|]) && |slots| !in list
    ensures forall y :: 0 <= y <= |slots| && y !in list[p := |slots|] ==> y < |slots| && (y == |slots| - 1 || y !in list)
  {
    var more, l := slots + [n], list[p := |slots|];
    forall i | 0 <= i < |l|
      ensures l[i] < |more| && ring[p + 1 := n][i + 1] == more[l[i]]
    {
      assert i != p ==> l[i] == list[i];
    }
    assert l[p] == |slots|;
    forall y | 0 <= y <= |slots| && y !in l
      ensures y < |slots| && (y == |slots| - 1 || y !in list)
    {
      assert forall i :: 0 <= i < |list| && i != p ==> l[i] == list[i] && l[i] in l;
    }
  }

  /** Move construction of slot x elsewhere, when the vector needs more memory. */
  method MoveSlot(slots: seq<Node>, ghost head: Node, x: nat, ghost m: Model) returns (moved: seq<Node>, ghost m': Model)
    requires Modelled(slots, head, m) && x < |slots| && x in m.order
    modifies slots, head
    ensures |moved| == |slots| && moved == slots[x := moved[x]] && fresh(moved[x])
    ensures Modelled(moved, head, m') && m'.regions == m.regions && m'.order == m.order
  {
    ghost var p := PlaceOf(slots, head, m, x);
    var n := Construct(slots, head, x, m.ring, m.order, p);
    moved := slots[x := n];
    m' := Replaced(slots, head, m, p, x, n);
  }

  lemma Replaced(slots: seq<Node>, head: Node, m: Model, p: nat, x: nat, n: Node) returns (m': Model)
    requires Threaded(slots, head, m.ring, m.order) && Distinct(m.order) && p < |m.order| && x < |slots| && m.order[p] == x
    requires n !in slots && n != head && IsRing(m.ring[p + 1 := n])
    requires forall y :: 0 <= y < |slots| && y !in m.order ==> Alone(slots[y])
    requires Holds(slots, m.regions) && n.region == m.regions[x]
    ensures Modelled(slots[x := n], head, m') && m'.regions == m.regions && m'.order == m.order
  {
    var moved := slots[x := n];
    m' := m.(ring := m.ring[p + 1 := n]);
    forall i | 0 <= i < |m.order|
      ensures m'.ring[i + 1] == moved[m.order[i]]
    {
      assert i != p ==> m.order[i] != x;
    }
    assert x in m.order;
    ModelledIs(moved, head, m');
  }

  /** A slot in no list is filled with a new region. */
  method Fill(slots: seq<Node>, ghost head: Node, k: nat, r: nat, ghost m: Model) returns (ghost m': Model)
    requires Modelled(slots, head, m) && k < |slots| && k !in m.order
    modifies slots
    ensures Modelled(slots, head, m') && m'.regions == m.regions[k := r] && m'.order == m.order
  {
    ModelledIs(slots, head, m);
    ApartAll(slots, head, m.ring, m.order);
    var region := new Node(r);
    AloneIs(slots[k]);
    slots[k].MoveAssign(region, [region], 0, [slots[k]], 0);
    assert Moved([region], [slots[k]], 0, 0, slots[k]) == [slots[k]];
    AloneIs(slots[k]);
    m' := m.(regions := m.regions[k := r]);
    ModelledIs(slots, head, m');
  }

  /** `regionsReduceList.insertEnd(regions[k])` */
  method Append(slots: seq<Node>, list: List, k: nat, ghost m: Model) returns (ghost m': Model)
    requires Modelled(slots, list.head, m) && k < |slots| && k !in m.order
    modifies slots, list.head
    ensures Modelled(slots, list.head, m') && m'.regions == m.regions && m'.order == m.order + [k]
  {
    ModelledIs(slots, list.head, m);
    Link(slots, list, k, m.ring, m.order);
    Appended(slots, list.head, m.ring, m.order, k);
    m' := m.(ring := m.ring + [slots[k]], order := m.order + [k]);
    ModelledIs(slots, list.head, m');
  }

  method Link(slots: seq<Node>, list: List, k: nat, ghost ring: seq<Node>, ghost order: seq<nat>)
    requires Linked(slots, list.head, ring, order) && k < |slots| && k !in order
    modifies slots, list.head
    ensures IsRing(ring + [slots[k]])
    ensures forall y :: 0 <= y < |slots| && y !in order && y != k ==> Alone(slots[y])
    ensures forall y :: 0 <= y < |slots| ==> slots[y].region == old(slots[y].region)
  {
    RingNodes(slots, list.head, ring, order);
    ApartAll(slots, list.head, ring, order);
    AloneIs(slots[k]);
    assert ring != [slots[k]];
    list.InsertEnd(slots[k], ring, [slots[k]], 0);
  }

  lemma Appended(slots: seq<Node>, head: Node, ring: seq<Node>, list: seq<nat>, k: nat)
    requires Threaded(slots, head, ring, list) && k < |slots| && IsRing(ring + [slots[k]])
    requires forall y :: 0 <= y < |slots| && y !in list && y != k ==> Alone(slots[y])
    ensures Linked(slots, head, ring + [slots[k]], list + [k])
  {
    var r, l := ring + [slots[k]], list + [k];
    forall i | 0 <= i < |l|
      ensures l[i] < |slots| && r[i + 1] == slots[l[i]]
    {
      assert i < |list| ==> l[i] == list[i];
    }
    assert forall y :: y in list ==> y in l;
    assert l[|list|] == k;
  }

  /** The regions in the order of the list, from the head on. */
  method Walk(ghost slots: seq<Node>, list: List, ghost m: Model) returns (ages: seq<nat>)
    requires Modelled(slots, list.head, m)
    ensures ages == m.Ages()
  {
    ModelledIs(slots, list.head, m);
    ages := [];
    ghost var i := 0;
    var n := list.head.next;
    while n != list.head
      invariant i <= |m.order| && n == m.ring[Succ(i, |m.ring|)] && ages == Order(m.order[..i], m.regions)
      decreases |m.order| - i
    {
      assert n == slots[m.order[i]];
      assert m.order[..i + 1] == m.order[..i] + [m.order[i]];
      OrderAppend(m.order[..i], m.order[i], m.regions);
      ages := ages + [n.region];
      n := n.next;
      i := i + 1;
    }
    assert m.order[..i] == m.order;
  }

  /** The move assignment of nodes, among the slots of a vector. */
  method Relink(dst: nat, src: nat, slots: seq<Node>, ghost head: Node, ghost ring: seq<Node>, ghost list: seq<nat>, ghost p: nat,
                ghost t: seq<Node>, ghost j: nat)
    requires Linked(slots, head, ring, list) && dst < |slots| && src < |slots| && dst != src
    requires p < |list| && list[p] == src && IsRing(t) && j < |t| && t[j] == slots[dst] && SameOrApart(ring, t)
    requires forall k :: 0 <= k < |t| ==> t[k] in ring || t[k] == slots[dst]
    modifies slots, head
    ensures IsRing(Moved(ring, t, p + 1, j, slots[dst])) && Alone(slots[src])
    ensures forall y :: 0 <= y < |slots| && y !in list && y != dst ==> Alone(slots[y])
    ensures slots[dst].region == old(slots[src].region)
    ensures forall y :: 0 <= y < |slots| && y != dst ==> slots[y].region == old(slots[y].region)
  {
    RingNodes(slots, head, ring, list);
    ApartAll(slots, head, ring, list);
    slots[dst].MoveAssign(slots[src], ring, p + 1, t, j);
    AloneIs(slots[src]);
  }

  lemma Relinked(slots: seq<Node>, head: Node, ring: seq<Node>, list: seq<nat>, dst: nat, src: nat, p: nat, t: seq<Node>, j: nat)
    requires p + 1 < |ring| && j < |t| && dst < |slots| && src < |slots| && dst != src && src in list
    requires Threaded(slots, head, Moved(ring, t, p + 1, j, slots[dst]), Shifted(list, dst, src))
    requires IsRing(Moved(ring, t, p + 1, j, slots[dst])) && Alone(slots[src])
    requires forall y :: 0 <= y < |slots| && y !in list && y != dst ==> Alone(slots[y])
    ensures Linked(slots, head, Moved(ring, t, p + 1, j, slots[dst]), Shifted(list, dst, src))
  {
    MovedMembers(list, dst, src);
  }

  lemma AloneIs(n: Node)
    ensures Alone(n) <==> IsRing([n])
  {
    assert [n][Succ(0, 1)] == n;
  }

  /** The ring a target slot is in, and where: the list, or its own. */
  lemma Target(slots: seq<Node>, head: Node, ring: seq<Node>, list: seq<nat>, dst: nat, src: nat, p: nat)
    returns (t: seq<Node>, j: nat)
    requires Linked(slots, head, ring, list) && Distinct(list)
    requires dst < |slots| && src < |slots| && dst != src && p < |list| && list[p] == src
    ensures IsRing(t) && j < |t| && t[j] == slots[dst] && SameOrApart(ring, t)
    ensures forall k :: 0 <= k < |t| ==> t[k] in ring || t[k] == slots[dst]
    ensures Threaded(slots, head, Moved(ring, t, p + 1, j, slots[dst]), Shifted(list, dst, src))
  {
    ThreadedSet(slots, head, ring, list, p, dst);
    if dst in list {
      var q :| 0 <= q < |list| && list[q] == dst;
      ThreadedWithout(slots, head, ring[p + 1 := slots[dst]], list[p := dst], q);
      ShiftedTaken(list, dst, src, p, q);
      t, j := ring, q + 1;
    } else {
      ThreadedApart(slots, head, ring, list, dst);
      AloneIs(slots[dst]);
      ShiftedFree(list, dst, src, p);
      t, j := [slots[dst]], 0;
      assert ring != t;
    }
  }

  lemma ApartAll(slots: seq<Node>, head: Node, ring: seq<Node>, list: seq<nat>)
    requires Threaded(slots, head, ring, list)
    ensures forall y :: 0 <= y < |slots| && y !in list ==> slots[y] !in ring
  {
    forall y | 0 <= y < |slots| && y !in list
      ensures slots[y] !in ring
    {
      ThreadedApart(slots, head, ring, list, y);
    }
  }

  // ------------------------------------------------------------------------
  // What std::vector does with its slots
  // ------------------------------------------------------------------------

  class RegionVector {
    var slots: seq<Node>
    const list: List
    ghost var model: Model

    constructor ()
      ensures Valid() && model.regions == [] && model.order == []
    {
      slots := [];
      list := new List();
      new;
      model := Model([list.head], [], []);
      ModelledIs(slots, list.head, model);
    }

    /** Exactly the slots of the vector are in the list, and no region is in two slots. */
    ghost predicate Valid()
      reads this, slots, model.ring
    {
      Modelled(slots, list.head, model) && Complete(model)
    }

    /** The vector moves all its elements to new memory: every region keeps its place. */
    method Reallocate()
      requires Valid()
      modifies this, slots, list.head
      ensures Valid() && model.regions == old(model.regions) && model.order == old(model.order)
      ensures |slots| == |old(slots)| && forall i :: 0 <= i < |slots| ==> fresh(slots[i])
    {
      ghost var m;
      slots, m := MoveAll(slots, list.head, model);
      model := m;
    }

    /** `regions.erase(begin + k)`: later elements shift down, the last slot is destroyed.
        Its region leaves the list and the others keep their order. */
    method Erase(k: nat)
      requires Valid() && k < |model.regions|
      modifies this, slots, list.head
      ensures Valid()
      ensures model.regions == old(model.regions)[..k] + old(model.regions)[k + 1..]
      ensures model.Ages() == Kept(old(model.Ages()), {old(model.regions)[k]})
    {
      ghost var m;
      slots, m := ShiftDown(slots, list.head, k, model);
      model := m;
    }

    /** `regions.emplace(begin + k, r)` then `regionsReduceList.insertEnd(regions[k])`: later
        elements shift up. The new region is the youngest, the others keep their order. */
    method Emplace(k: nat, r: nat)
      requires Valid() && k <= |model.regions| && r !in model.regions
      modifies this, slots, list.head
      ensures Valid() && forall i :: 0 <= i < |slots| ==> slots[i] in old(slots) || fresh(slots[i])
      ensures model.regions == old(model.regions)[..k] + [r] + old(model.regions)[k..]
      ensures model.Ages() == old(model.Ages()) + [r]
    {
      ghost var m;
      slots, m := Insert(slots, list, k, r, model);
      model := m;
    }

    /** `regions.erase(remove_if(flagged), end)`: exactly the flagged regions leave the vector
        and the list, and the others keep both orders. */
    method RemoveIf(flagged: set<nat>)
      requires Valid()
      modifies this, slots, list.head
      ensures Valid()
      ensures model.regions == Kept(old(model.regions), flagged)
      ensures model.Ages() == Kept(old(model.Ages()), flagged)
    {
      ghost var m;
      slots, m := Compact(slots, list.head, flagged, model);
      model := m;
    }

    /** `regions.clear()`: the destructors empty the list. */
    method Clear()
      requires Valid()
      modifies this, slots, list.head
      ensures Valid() && model.regions == [] && model.Ages() == []
    {
      ghost var all := set i | 0 <= i < |model.regions| :: model.regions[i];
      ghost var m;
      slots, m := Truncate(slots, list.head, 0, all, model);
      model := m;
    }

    /** What iterating over regionsReduceList visits. */
    method Oldest() returns (ages: seq<nat>)
      requires Valid()
      ensures ages == model.Ages()
    {
      ages := Walk(slots, list, model);
    }
  }

  ghost predicate Complete(m: Model) {
    && (forall y: nat :: y in m.order <==> y < |m.regions|) && Within(m.order, |m.regions|) && Distinct(m.regions)
  }

  method MoveAll(slots: seq<Node>, ghost head: Node, ghost m: Model) returns (moved: seq<Node>, ghost m': Model)
    requires Modelled(slots, head, m) && Complete(m)
    modifies slots, head
    ensures Modelled(moved, head, m') && m'.regions == m.regions && m'.order == m.order
    ensures |moved| == |slots| && forall i :: 0 <= i < |moved| ==> fresh(moved[i])
  {
    moved, m' := slots, m;
    for x := 0 to |slots|
      invariant |moved| == |slots| && (forall i :: 0 <= i < x ==> fresh(moved[i])) && moved[x..] == slots[x..]
      invariant Modelled(moved, head, m') && m'.regions == m.regions && m'.order == m.order
    {
      ghost var rest, n := moved, m';
      assert forall i :: x <= i < |slots| ==> moved[i] == moved[x..][i - x] == slots[i];
      moved, m' := MoveSlot(moved, head, x, n);
      assert moved[x + 1..] == rest[x + 1..] == slots[x + 1..];
    }
  }

  method ShiftDown(slots: seq<Node>, ghost head: Node, k: nat, ghost m: Model) returns (less: seq<Node>, ghost m': Model)
    requires Modelled(slots, head, m) && Complete(m) && k < |slots|
    modifies slots, head
    ensures Modelled(less, head, m') && Complete(m') && forall i :: 0 <= i < |less| ==> less[i] in slots
    ensures m'.regions == m.regions[..k] + m.regions[k + 1..]
    ensures m'.Ages() == Kept(m.Ages(), {m.regions[k]})
  {
    ghost var n := SlideDown(slots, head, k, m);
    DroppedIsKept(m.order, m.regions, k);
    DownEnd(m.order, m.regions, k, n.order, n.regions);
    less, m' := DestroyLast(slots, head, n);
  }

  /** The move assignments of erase. */
  method SlideDown(slots: seq<Node>, ghost head: Node, k: nat, ghost m: Model) returns (ghost m': Model)
    requires Modelled(slots, head, m) && Complete(m) && k < |slots|
    modifies slots, head
    ensures Modelled(slots, head, m') && Down(m.order, m.regions, k, |slots| - 1, m'.order, m'.regions)
  {
    DownStart(m.order, m.regions, k);
    m' := m;
    var j := k;
    while j + 1 < |slots|
      invariant k <= j < |slots| == |m.regions| && Modelled(slots, head, m')
      invariant Down(m.order, m.regions, k, j, m'.order, m'.regions)
    {
      ghost var n := m';
      DownNext(m.order, m.regions, k, j, n.order, n.regions);
      m' := MoveAssign(slots, head, j, j + 1, n);
      j := j + 1;
    }
  }

  /** Erasing slot k, when the slots before j hold what they will hold and slot j is to be filled or
      destroyed. */
  ghost predicate Down(l0: seq<nat>, r0: seq<nat>, k: nat, j: nat, l: seq<nat>, r: seq<nat>) {
    forall u {:trigger Asked(AShift, u)} :: Asked(AShift, u) ==>
    && k <= j < |r0| == |r| && Within(l0, |r0|) && Within(l, |r|)
    && Within(Dropped(l0, k), |r0|) && Within(Dropped(l, j), |r|)
    && (forall y: nat :: y != j ==> (y in l <==> y < |r0|))
    && Order(Dropped(l, j), r) == Order(Dropped(l0, k), r0)
    && r[..j] == r0[..k] + r0[k + 1..j + 1] && r[j + 1..] == r0[j + 1..]
  }

  lemma DownStart(l0: seq<nat>, r0: seq<nat>, k: nat)
    requires k < |r0| && Within(l0, |r0|) && forall y: nat :: y in l0 <==> y < |r0|
    ensures Down(l0, r0, k, k, l0, r0)
  {
    DroppedStays(l0, r0, k);
  }

  lemma DownNext(l0: seq<nat>, r0: seq<nat>, k: nat, j: nat, l: seq<nat>, r: seq<nat>)
    requires Down(l0, r0, k, j, l, r) && j + 1 < |r0| == |r|
    ensures j + 1 in l && Down(l0, r0, k, j + 1, Shifted(l, j, j + 1), r[j := r[j + 1]])
  {
    assert Asked(AShift, 0);
    var l', r' := Shifted(l, j, j + 1), r[j := r[j + 1]];
    MoveKeepsOrder(l, r, j, j + 1);
    MovedMembers(l, j, j + 1);
    DroppedAbsent(l', j + 1);
    assert r[j + 1] == r[j + 1..][0] == r0[j + 1];
    assert r'[..j + 1] == r[..j] + [r0[j + 1]];
    assert r'[j + 2..] == r[j + 1..][1..] && r0[j + 2..] == r0[j + 1..][1..];
  }

  lemma DownEnd(l0: seq<nat>, r0: seq<nat>, k: nat, l: seq<nat>, r: seq<nat>)
    requires k < |r0| && Down(l0, r0, k, |r0| - 1, l, r) && Distinct(r0)
    ensures |r| == |r0| && r[..|r| - 1] == r0[..k] + r0[k + 1..] && Distinct(r[..|r| - 1])
    ensures Within(Dropped(l0, k), |r0|) && Within(Dropped(l, |r0| - 1), |r|)
    ensures forall y: nat :: y != |r0| - 1 ==> (y in l <==> y < |r0|)
    ensures Order(Dropped(l, |r0| - 1), r) == Order(Dropped(l0, k), r0)
  {
    assert Asked(AShift, 0);
    assert r0[k + 1..|r0|] == r0[k + 1..];
  }

  /** Destroys the last slot, whose region has left it. */
  method DestroyLast(slots: seq<Node>, ghost head: Node, ghost m: Model) returns (less: seq<Node>, ghost m': Model)
    requires Modelled(slots, head, m) && |slots| > 0 && Within(Dropped(m.order, |slots| - 1), |slots|)
    requires forall y: nat :: y != |slots| - 1 ==> (y in m.order <==> y < |slots|)
    modifies slots, head
    ensures less == slots[..|slots| - 1] && Modelled(less, head, m') && m'.regions == m.regions[..|slots| - 1]
    ensures (forall y: nat :: y in m'.order <==> y < |less|) && Within(m'.order, |less|)
    ensures m'.Ages() == Order(Dropped(m.order, |slots| - 1), m.regions)
  {
    var j := |slots| - 1;
    ghost var n := Destroy(slots, head, j, m);
    DroppedMembers(m.order, j);
    WithinMembers(n.order, j);
    OrderExtend(n.order, n.regions[..j], [n.regions[j]]);
    assert n.regions == n.regions[..j] + [n.regions[j]];
    less := slots[..j];
    Fewer(slots, head, n, j);
    m' := n.(regions := n.regions[..j]);
  }

  /** Slots that are in no list can go. */
  lemma Fewer(slots: seq<Node>, head: Node, m: Model, n: nat)
    requires Modelled(slots, head, m) && n <= |slots| && Within(m.order, n)
    ensures Modelled(slots[..n], head, m.(regions := m.regions[..n]))
  {
    ModelledIs(slots, head, m);
    var less := slots[..n];
    assert head !in less;
    forall y | 0 <= y < |less| && y !in m.order
      ensures Alone(less[y])
    {
      assert less[y] == slots[y];
    }
    ModelledIs(less, head, m.(regions := m.regions[..n]));
  }

  method Insert(slots: seq<Node>, list: List, k: nat, r: nat, ghost m: Model) returns (more: seq<Node>, ghost m': Model)
    requires Modelled(slots, list.head, m) && Complete(m) && k <= |slots| && r !in m.regions
    modifies slots, list.head
    ensures Modelled(more, list.head, m') && Complete(m') && forall i :: 0 <= i < |more| ==> more[i] in slots || fresh(more[i])
    ensures m'.regions == m.regions[..k] + [r] + m.regions[k..]
    ensures m'.Ages() == m.Ages() + [r]
  {
    more, m' := MakeRoom(slots, list.head, k, r, m);
    ghost var n := m';
    OrderAppend(n.order, k, n.regions);
    m' := Append(more, list, k, n);
    InsertedDistinct(m.regions, k, r);
  }

  /** Puts a region in slot k, which is in no list yet. */
  method MakeRoom(slots: seq<Node>, ghost head: Node, k: nat, r: nat, ghost m: Model) returns (more: seq<Node>, ghost m': Model)
    requires Modelled(slots, head, m) && Complete(m) && k <= |slots|
    modifies slots, head
    ensures Modelled(more, head, m') && |more| == |slots| + 1 && forall i :: 0 <= i < |more| ==> more[i] in slots || fresh(more[i])
    ensures m'.regions == m.regions[..k] + [r] + m.regions[k..]
    ensures forall y: nat :: y in m'.order <==> y < |more| && y != k
    ensures m'.Ages() == m.Ages()
  {
    if k == |slots| {
      more, m' := Grow(slots, head, r, m);
    } else {
      more, m' := ShiftUp(slots, head, k, m);
      ghost var n := m';
      OrderUnused(n.order, n.regions, k, r);
      m' := Fill(more, head, k, r, n);
      assert m'.regions == m.regions[..k] + [r] + m.regions[k..];
    }
  }

  /** A new last slot. */
  method Grow(slots: seq<Node>, ghost head: Node, r: nat, ghost m: Model) returns (more: seq<Node>, ghost m': Model)
    requires Modelled(slots, head, m) && Complete(m)
    ensures |more| == |slots| + 1 && slots <= more && fresh(more[|slots|])
    ensures Modelled(more, head, m') && m'.order == m.order && m'.regions == m.regions + [r]
    ensures m'.Ages() == m.Ages()
  {
    ModelledIs(slots, head, m);
    var n := new Node(r);
    AloneIs(n);
    more := slots + [n];
    OrderExtend(m.order, m.regions, [r]);
    m' := m.(regions := m.regions + [r]);
    More(slots, head, m, n, r);
  }

  lemma More(slots: seq<Node>, head: Node, m: Model, n: Node, r: nat)
    requires Modelled(slots, head, m) && n !in slots && n != head && Alone(n) && n.region == r
    ensures Modelled(slots + [n], head, m.(regions := m.regions + [r]))
  {
    ModelledIs(slots, head, m);
    var more := slots + [n];
    forall y | 0 <= y < |more| && y !in m.order
      ensures Alone(more[y])
    {
      assert y < |slots| ==> more[y] == slots[y];
    }
    ModelledIs(more, head, m.(regions := m.regions + [r]));
  }

  /** Move construction of a new last slot, then move assignments down to k + 1. Slot k is
      left moved from. */
  method ShiftUp(slots: seq<Node>, ghost head: Node, k: nat, ghost m: Model) returns (more: seq<Node>, ghost m': Model)
    requires Modelled(slots, head, m) && Complete(m) && k < |slots|
    modifies slots, head
    ensures Modelled(more, head, m') && |more| == |slots| + 1 && forall i :: 0 <= i < |more| ==> more[i] in slots || fresh(more[i])
    ensures forall y: nat :: y in m'.order <==> y < |more| && y != k
    ensures m'.regions[..k] == m.regions[..k] && m'.regions[k + 1..] == m.regions[k..]
    ensures m'.Ages() == m.Ages()
  {
    UpStart(m.order, m.regions);
    ghost var n;
    more, n := MoveLast(slots, head, m);
    m' := SlideUp(more, head, k, m.order, m.regions, n);
    UpEnd(m.order, m.regions, k, m'.order, m'.regions);
  }

  /** The move assignments of emplace. */
  method SlideUp(more: seq<Node>, ghost head: Node, k: nat, ghost l0: seq<nat>, ghost r0: seq<nat>, ghost m: Model) returns (ghost m': Model)
    requires Modelled(more, head, m) && |more| == |r0| + 1 && k < |r0| && Up(l0, r0, |r0| - 1, m.order, m.regions)
    modifies more, head
    ensures Modelled(more, head, m') && Up(l0, r0, k, m'.order, m'.regions)
  {
    m' := m;
    var j := |more| - 2;
    while k < j
      invariant k <= j < |r0| && Modelled(more, head, m') && Up(l0, r0, j, m'.order, m'.regions)
    {
      ghost var n := m';
      UpNext(l0, r0, j, n.order, n.regions);
      m' := MoveAssign(more, head, j, j - 1, n);
      j := j - 1;
    }
  }

  /** Making room, when slot j is free and the slots behind it hold what they will hold. */
  ghost predicate Up(l0: seq<nat>, r0: seq<nat>, j: nat, l: seq<nat>, r: seq<nat>) {
    forall u {:trigger Asked(AShift, u)} :: Asked(AShift, u) ==>
    && j < |r0| && |r| == |r0| + 1 && Within(l0, |r0|) && Within(l, |r|)
    && (forall y: nat :: y in l <==> y < |r| && y != j)
    && r[..j] == r0[..j] && r[j + 1..] == r0[j..]
    && Order(l, r) == Order(l0, r0)
  }

  lemma UpStart(l0: seq<nat>, r0: seq<nat>)
    requires |r0| > 0 && Within(l0, |r0|) && forall y: nat :: y in l0 <==> y < |r0|
    ensures Up(l0, r0, |r0| - 1, Shifted(l0, |r0|, |r0| - 1), r0 + [r0[|r0| - 1]])
  {
    LastMoved(l0, r0);
    var n := |r0|;
    var r := r0 + [r0[n - 1]];
    var l := Shifted(l0, n, n - 1);
    assert n - 1 in l0;
    assert r[..n - 1] == r0[..n - 1] && r[n..] == r0[n - 1..];
    forall y: nat
      ensures y in l <==> y < |r| && y != n - 1
    {
      assert y in l0 <==> y < n;
    }
  }

  lemma UpEnd(l0: seq<nat>, r0: seq<nat>, j: nat, l: seq<nat>, r: seq<nat>)
    requires Up(l0, r0, j, l, r)
    ensures j < |r0| && |r| == |r0| + 1 && Within(l0, |r0|) && Within(l, |r|)
    ensures forall y: nat :: y in l <==> y < |r| && y != j
    ensures r[..j] == r0[..j] && r[j + 1..] == r0[j..] && Order(l, r) == Order(l0, r0)
  {
    assert Asked(AShift, 0);
  }

  lemma UpNext(l0: seq<nat>, r0: seq<nat>, j: nat, l: seq<nat>, r: seq<nat>)
    requires Up(l0, r0, j, l, r) && 0 < j < |r|
    ensures j - 1 in l && Up(l0, r0, j - 1, Shifted(l, j, j - 1), r[j := r[j - 1]])
  {
    assert Asked(AShift, 0);
    var l', r' := Shifted(l, j, j - 1), r[j := r[j - 1]];
    DroppedAbsent(l, j);
    MoveKeepsOrder(l, r, j, j - 1);
    MovedMembers(l, j, j - 1);
    assert r[j - 1] == r[..j][j - 1] == r0[j - 1];
    assert r'[..j - 1] == r[..j][..j - 1] && r0[..j - 1] == r0[..j][..j - 1];
    assert r'[j..] == [r0[j - 1]] + r[j + 1..] && r0[j - 1..] == [r0[j - 1]] + r0[j..];
  }

  lemma LastMoved(list: seq<nat>, regions: seq<nat>)
    requires |regions| > 0 && Within(list, |regions|)
    ensures var more := regions + [regions[|regions| - 1]];
            var l := Shifted(list, |regions|, |regions| - 1);
            Within(l, |more|) && Order(l, more) == Order(list, regions)
    ensures |regions| - 1 in list ==> |regions| in Shifted(list, |regions|, |regions| - 1)
    ensures forall y: nat :: y != |regions| ==>
              (y in Shifted(list, |regions|, |regions| - 1) <==> y in list && y != |regions| - 1)
  {
    var n := |regions|;
    var more := regions + [regions[n - 1]];
    OrderExtend(list, regions, [regions[n - 1]]);
    DroppedAbsent(list, n);
    MoveKeepsOrder(list, more, n, n - 1);
    assert more[n := more[n - 1]] == more;
    MovedMembers(list, n, n - 1);
  }

  method Compact(slots: seq<Node>, ghost head: Node, flagged: set<nat>, ghost m: Model) returns (less: seq<Node>, ghost m': Model)
    requires Modelled(slots, head, m) && Complete(m)
    modifies slots, head
    ensures Modelled(less, head, m') && Complete(m') && forall i :: 0 <= i < |less| ==> less[i] in slots
    ensures m'.regions == Kept(m.regions, flagged) && m'.Ages() == Kept(m.Ages(), flagged)
  {
    ghost var l0, r0 := m.order, m.regions;
    m' := m;
    var first := 0;
    var i := 0;
    while i < |slots|
      invariant first <= i <= |slots| == |r0| && Modelled(slots, head, m')
      invariant Closing(l0, r0, flagged, first, i, m'.order, m'.regions)
    {
      RegionAt(slots, head, m', i);
      ghost var n := m';
      ClosingNext(l0, r0, flagged, first, i, n.order, n.regions);
      if slots[i].region !in flagged {
        if first != i {
          m' := MoveAssign(slots, head, first, i, n);
        }
        first := first + 1;
      }
      i := i + 1;
    }
    assert r0[..i] == r0;
    KeptDistinct(r0, flagged);
    less, m' := Truncate(slots, head, first, flagged, m');
  }

  /** remove_if, when the slots before i have been looked at and those before `first` hold the ones
      that stay. */
  ghost predicate Closing(l0: seq<nat>, r0: seq<nat>, flagged: set<nat>, first: nat, i: nat, l: seq<nat>, r: seq<nat>) {
    && first <= i <= |r| == |r0| && Within(l0, |r0|) && Within(l, |r|)
    && (forall y: nat :: y < first || i <= y < |r| ==> y in l)
    && (forall y: nat :: first <= y < i && y in l ==> r[y] in flagged)
    && (forall y: nat :: y < first ==> r[y] !in flagged)
    && r[..first] == Kept(r0[..i], flagged) && r[i..] == r0[i..]
    && Kept(Order(l, r), flagged) == Kept(Order(l0, r0), flagged)
  }

  lemma ClosingNext(l0: seq<nat>, r0: seq<nat>, flagged: set<nat>, first: nat, i: nat, l: seq<nat>, r: seq<nat>)
    requires Closing(l0, r0, flagged, first, i, l, r) && i < |r|
    ensures i in l
    ensures if r[i] in flagged then Closing(l0, r0, flagged, first, i + 1, l, r)
            else if first == i then Closing(l0, r0, flagged, first + 1, i + 1, l, r)
            else Closing(l0, r0, flagged, first + 1, i + 1, Shifted(l, first, i), r[first := r[i]])
  {
    assert r[i] == r[i..][0] == r0[i];
    assert r0[..i + 1] == r0[..i] + [r0[i]];
    assert r[i + 1..] == r[i..][1..] && r0[i + 1..] == r0[i..][1..];
    KeptSnoc(r0[..i], r0[i], flagged);
    if r[i] !in flagged {
      if first == i {
        assert r[..i + 1] == r[..i] + [r[i]];
      } else {
        ClosingMove(l0, r0, flagged, first, i, l, r);
      }
    }
  }

  lemma ClosingMove(l0: seq<nat>, r0: seq<nat>, flagged: set<nat>, first: nat, i: nat, l: seq<nat>, r: seq<nat>)
    requires Closing(l0, r0, flagged, first, i, l, r) && first < i < |r| && r[i] !in flagged
    requires Kept(r0[..i + 1], flagged) == Kept(r0[..i], flagged) + [r[i]]
    ensures Closing(l0, r0, flagged, first + 1, i + 1, Shifted(l, first, i), r[first := r[i]])
  {
    var l', r' := Shifted(l, first, i), r[first := r[i]];
    DroppedKept(l, r, first, flagged);
    MoveKeepsOrder(l, r, first, i);
    MovedMembers(l, first, i);
    assert r'[..first + 1] == r[..first] + [r[i]];
    assert r'[i + 1..] == r[i..][1..] && r0[i + 1..] == r0[i..][1..];
  }

  /** Destroys the slots from `first` on. */
  method Truncate(slots: seq<Node>, ghost head: Node, first: nat, ghost flagged: set<nat>, ghost m: Model)
    returns (less: seq<Node>, ghost m': Model)
    requires Modelled(slots, head, m) && first <= |slots|
    requires forall y: nat :: y < first ==> y in m.order && m.regions[y] !in flagged
    requires forall y: nat :: first <= y < |slots| && y in m.order ==> m.regions[y] in flagged
    modifies slots, head
    ensures less == slots[..first] && Modelled(less, head, m') && m'.regions == m.regions[..first]
    ensures Within(m'.order, first) && forall y: nat :: y in m'.order <==> y < first
    ensures m'.Ages() == Kept(m.Ages(), flagged)
  {
    ghost var l0, r0 := m.order, m.regions;
    m' := m;
    var j := first;
    while j < |slots|
      invariant first <= j <= |slots| && m'.regions == r0 && Modelled(slots, head, m')
      invariant forall y: nat :: y in m'.order <==> y in l0 && !(first <= y < j)
      invariant Kept(Order(m'.order, r0), flagged) == Kept(Order(l0, r0), flagged)
    {
      ghost var n := m';
      DroppedKept(n.order, r0, j, flagged);
      DroppedMembers(n.order, j);
      m' := Destroy(slots, head, j, n);
      j := j + 1;
    }
    WithinMembers(m'.order, first);
    OrderExtend(m'.order, r0[..first], r0[first..]);
    assert r0 == r0[..first] + r0[first..];
    less := slots[..first];
    Fewer(slots, head, m', first);
    m' := m'.(regions := r0[..first]);
    NoneFlagged(m'.order, m'.regions, flagged);
  }

  lemma NoneFlagged(list: seq<nat>, regions: seq<nat>, flagged: set<nat>)
    requires Within(list, |regions|) && forall y :: 0 <= y < |regions| ==> regions[y] !in flagged
    ensures Kept(Order(list, regions), flagged) == Order(list, regions)
  {
    OrderLength(list, regions);
    forall i | 0 <= i < |list|
      ensures Order(list, regions)[i] !in flagged
    {
      OrderAt(list, regions, i);
    }
    AllKept(Order(list, regions), flagged);
  }

  lemma {:induction false} DroppedStays(list: seq<nat>, regions: seq<nat>, k: nat)
    requires Within(list, |regions|)
    ensures Within(Dropped(list, k), |regions|)
  {
    DroppedMembers(list, k);
    WithinMembers(Dropped(list, k), |regions|);
  }
}
