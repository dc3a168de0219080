/** The intrusive ring of src/Utility/MovableDoubleLinkedList.h: its nodes live inside vector
    elements, so they are relocated by move construction and move assignment. */
module Rings {

  /** The position that follows i around a ring of n nodes. */
  ghost function Succ(i: int, n: int): int { if i + 1 == n then 0 else i + 1 }

  ghost function Pred(i: int, n: int): int { if i == 0 then n - 1 else i - 1 }

  /** Links of a ring written as the sequence of its nodes, from any of them on. */
  ghost predicate IsRing(s: seq<Node>)
    reads s
  {
    && |s| > 0
    && (forall i, j :: 0 <= i < j < |s| ==> s[i] != s[j])
    && (forall i {:trigger s[i].next} :: 0 <= i < |s| ==> s[i].next == s[Succ(i, |s|)])
    && (forall i {:trigger Succ(i, |s|)} :: 0 <= i < |s| ==> s[Succ(i, |s|)].prev == s[i])
  }

  /** The sequence without its element at i. */
  ghost function Without<T>(s: seq<T>, i: nat): seq<T>
    requires i < |s|
  {
    s[..i] + s[i + 1..]
  }

  lemma WithoutMembers<T>(s: seq<T>, i: nat)
    requires i < |s|
    requires forall k, l :: 0 <= k < l < |s| ==> s[k] != s[l]
    ensures forall x :: x in Without(s, i) <==> x in s && x != s[i]
  {
    var out := Without(s, i);
    forall x | x in s && x != s[i]
      ensures x in out
    {
      var k :| 0 <= k < |s| && s[k] == x;
      assert out[if k < i then k else k - 1] == x;
    }
  }

  class Node {
    var prev: Node
    var next: Node
    /** The region the node belongs to; moves carry it along. */
    var region: nat

    constructor (r: nat)
      ensures IsRing([this]) && region == r
    {
      prev := this;
      next := this;
      region := r;
    }

    /** Move constructor: the new node takes the place of `o`. */
    constructor Move(o: Node, ghost s: seq<Node>, ghost i: nat)
      requires IsRing(s) && i < |s| && s[i] == o
      modifies s`prev, s`next
      ensures IsRing(s[i := this]) && IsRing([o])
      ensures region == o.region
    {
      prev := this;
      next := this;
      region := o.region;
      new;
      Replace(o, s, i);
    }

    /** Move assignment from another node: this node first leaves its own ring t, then takes
        the place of `o` in s. Both may be in the same ring, even next to each other. */
    method MoveAssign(o: Node, ghost s: seq<Node>, ghost i: nat, ghost t: seq<Node>, ghost j: nat)
      requires IsRing(s) && i < |s| && s[i] == o
      requires IsRing(t) && j < |t| && t[j] == this
      requires o != this && SameOrApart(s, t)
      modifies this`region, s`prev, s`next, t`prev, t`next
      ensures IsRing([o])
      ensures IsRing(Moved(s, t, i, j, this))
      ensures Left(s, t, j) != [] ==> IsRing(Left(s, t, j))
      ensures region == o.region == old(o.region)
    {
      RemoveSelf(t, j);
      region := o.region;
      RestMembers(s, t, j);
      ghost var k := RestAt(s, t, i, j, this);
      TakePlace(o, Rest(s, t, j), k, Left(s, t, j));
    }

    /** The part the move operations share: a node outside the ring replaces `o` in it. */
    method TakePlace(o: Node, ghost s: seq<Node>, ghost i: nat, ghost left: seq<Node>)
      requires IsRing(s) && i < |s| && s[i] == o && this !in s
      requires (left != [] ==> IsRing(left)) && forall x :: x in left ==> x !in s && x != this
      modifies this`prev, this`next, s`prev, s`next
      ensures IsRing(s[i := this]) && IsRing([o]) && (left != [] ==> IsRing(left))
    {
      Replace(o, s, i);
      forall k | 0 <= k < |left|
        ensures left[k].next == old(left[k].next) && left[k].prev == old(left[k].prev)
      {
        assert left[k] in left;
      }
    }

    method Replace(o: Node, ghost s: seq<Node>, ghost i: nat)
      requires IsRing(s) && i < |s| && s[i] == o
      requires forall k :: 0 <= k < |s| ==> s[k] != this
      modifies this`prev, this`next, s`prev, s`next
      ensures IsRing(s[i := this]) && IsRing([o])
    {
      ghost var p, q := Pred(i, |s|), Succ(i, |s|);
      assert Succ(p, |s|) == i;
      assert o.prev == s[p] && o.next == s[q];
      prev := o.prev;
      next := o.next;
      o.prev := o;
      o.next := o;
      if prev != o {
        prev.next := this;
      } else {
        prev := this;
      }
      if next != o {
        next.prev := this;
      } else {
        next := this;
      }
      ghost var out := s[i := this];
      assert out[p].next == this && out[q].prev == this;
      forall k | 0 <= k < |out|
        ensures out[k].next == out[Succ(k, |out|)] && out[Succ(k, |out|)].prev == out[k]
      {
        if k != i && k != p {
          assert s[k].next == s[Succ(k, |s|)];
        }
      }
    }

    method RemoveSelf(ghost s: seq<Node>, ghost i: nat)
      requires IsRing(s) && i < |s| && s[i] == this
      modifies s`prev, s`next
      ensures IsRing([this])
      ensures |s| > 1 ==> IsRing(Without(s, i))
    {
      ghost var n := |s|;
      ghost var p, q := Pred(i, n), Succ(i, n);
      assert Succ(p, n) == i;
      assert prev == s[p] && next == s[q];
      if prev != this {
        prev.next := next;
      }
      if next != this {
        next.prev := prev;
      }
      prev := this;
      next := this;
      if n > 1 {
        assert s[p].next == s[q] && s[q].prev == s[p];
        assert forall k :: 0 <= k < n && k != i && k != p ==> s[k].next == s[Succ(k, n)];
        assert forall k :: 0 <= k < n && k != i && k != p ==> s[Succ(k, n)].prev == s[k];
        BridgedRing(s, i);
      }
    }
  }

  /** Linking the neighbours of s[i] to each other leaves the ring without s[i]. */
  lemma BridgedRing(s: seq<Node>, i: nat)
    requires 1 < |s| && i < |s|
    requires forall k, l :: 0 <= k < l < |s| ==> s[k] != s[l]
    requires s[Pred(i, |s|)].next == s[Succ(i, |s|)] && s[Succ(i, |s|)].prev == s[Pred(i, |s|)]
    requires forall k :: 0 <= k < |s| && k != i && k != Pred(i, |s|) ==> s[k].next == s[Succ(k, |s|)]
    requires forall k :: 0 <= k < |s| && k != i && k != Pred(i, |s|) ==> s[Succ(k, |s|)].prev == s[k]
    ensures IsRing(Without(s, i))
  {
    var n := |s|;
    var out := Without(s, i);
    forall j | 0 <= j < |out|
      ensures out[j].next == out[Succ(j, |out|)] && out[Succ(j, |out|)].prev == out[j]
    {
      var k := if j < i then j else j + 1;
      assert out[j] == s[k];
      if k == Pred(i, n) {
        assert out[Succ(j, |out|)] == s[Succ(i, n)];
      } else {
        assert out[Succ(j, |out|)] == s[Succ(k, n)];
      }
    }
  }

  // ------------------------------------------------------------------------
  // The list head
  // ------------------------------------------------------------------------

  /** Two rings are the same one or have no node in common. */
  ghost predicate SameOrApart(s: seq<Node>, t: seq<Node>) {
    s == t || forall k, l :: 0 <= k < |s| && 0 <= l < |t| ==> s[k] != t[l]
  }

  /** What is left of the list s when t[j] leaves its ring t. */
  ghost function Rest(s: seq<Node>, t: seq<Node>, j: nat): seq<Node>
    requires j < |t|
  {
    if s == t then Without(s, j) else s
  }

  /** What is left of another ring. */
  ghost function Left(s: seq<Node>, t: seq<Node>, j: nat): seq<Node>
    requires j < |t|
  {
    if s == t then [] else Without(t, j)
  }

  /** The list with a node put behind its head. */
  ghost function AsFirst(s: seq<Node>, el: Node): seq<Node>
    requires s != []
  {
    [s[0], el] + s[1..]
  }

  /** The ring s after t[j], as x, left t and took the place of s[i]. */
  ghost function Moved(s: seq<Node>, t: seq<Node>, i: nat, j: nat, x: Node): seq<Node>
    requires i < |s| && j < |t|
  {
    if s == t then Without(s[i := x], j) else s[i := x]
  }

  /** Where a node of s is in the rest, and what replacing it there makes. */
  lemma RestAt(s: seq<Node>, t: seq<Node>, i: nat, j: nat, x: Node) returns (k: nat)
    requires i < |s| && j < |t| && s[i] != t[j]
    ensures k < |Rest(s, t, j)| && Rest(s, t, j)[k] == s[i]
    ensures Rest(s, t, j)[k := x] == Moved(s, t, i, j, x)
  {
    k := if s == t && j < i then i - 1 else i;
  }

  lemma RestHead(s: seq<Node>, t: seq<Node>, j: nat)
    requires |s| > 0 && j < |t| && t[j] != s[0]
    ensures Rest(s, t, j) != [] && Rest(s, t, j)[0] == s[0]
  {
  }

  lemma RestMembers(s: seq<Node>, t: seq<Node>, j: nat)
    requires j < |t| && SameOrApart(s, t)
    requires forall k, l :: 0 <= k < l < |s| ==> s[k] != s[l]
    requires forall k, l :: 0 <= k < l < |t| ==> t[k] != t[l]
    ensures t[j] !in Rest(s, t, j) && forall x :: x in Rest(s, t, j) ==> x in s
    ensures forall x :: x in Left(s, t, j) ==> x !in Rest(s, t, j) && x != t[j]
  {
    WithoutMembers(t, j);
  }

  class List {
    const head: Node

    constructor ()
      ensures fresh(head) && IsRing([head])
    {
      head := new Node(0);
    }

    method InsertEnd(el: Node, ghost s: seq<Node>, ghost t: seq<Node>, ghost j: nat)
      requires IsRing(s) && s[0] == head
      requires IsRing(t) && j < |t| && t[j] == el && el != head && SameOrApart(s, t)
      modifies s`prev, s`next, t`prev, t`next
      ensures IsRing(Rest(s, t, j) + [el])
      ensures Left(s, t, j) != [] ==> IsRing(Left(s, t, j))
    {
      el.RemoveSelf(t, j);
      RestHead(s, t, j);
      RestMembers(s, t, j);
      LinkLast(el, Rest(s, t, j), Left(s, t, j));
    }

    /** `left` is a ring the node was taken out of. */
    method LinkLast(el: Node, ghost s: seq<Node>, ghost left: seq<Node>)
      requires IsRing(s) && s[0] == head && el !in s
      requires (left != [] ==> IsRing(left)) && forall x :: x in left ==> x !in s && x != el
      modifies el`prev, el`next, s`prev, s`next
      ensures IsRing(s + [el]) && (left != [] ==> IsRing(left))
    {
      ghost var last := |s| - 1;
      assert Succ(last, |s|) == 0;
      assert head.prev == s[last];
      el.next := head;
      el.prev := head.prev;
      el.prev.next := el;
      head.prev := el;
      assert forall k :: 0 <= k < last ==> s[k].next == s[Succ(k, |s|)] && s[Succ(k, |s|)].prev == s[k];
      forall k | 0 <= k < last
        ensures s[k].next == s[k + 1] && s[k + 1].prev == s[k]
      {
        assert Succ(k, |s|) == k + 1;
      }
      forall k | 0 <= k < |left|
        ensures left[k].next == old(left[k].next) && left[k].prev == old(left[k].prev)
      {
        assert left[k] in left;
      }
      LinkedLast(s, el);
    }

    method InsertBegin(el: Node, ghost s: seq<Node>, ghost t: seq<Node>, ghost j: nat)
      requires IsRing(s) && s[0] == head
      requires IsRing(t) && j < |t| && t[j] == el && el != head && SameOrApart(s, t)
      modifies s`prev, s`next, t`prev, t`next
      ensures Rest(s, t, j) != [] && IsRing(AsFirst(Rest(s, t, j), el))
      ensures Left(s, t, j) != [] ==> IsRing(Left(s, t, j))
    {
      el.RemoveSelf(t, j);
      RestHead(s, t, j);
      RestMembers(s, t, j);
      LinkFirst(el, Rest(s, t, j), Left(s, t, j));
    }

    /** `left` is a ring the node was taken out of. */
    method LinkFirst(el: Node, ghost s: seq<Node>, ghost left: seq<Node>)
      requires IsRing(s) && s[0] == head && el !in s
      requires (left != [] ==> IsRing(left)) && forall x :: x in left ==> x !in s && x != el
      modifies el`prev, el`next, s`prev, s`next
      ensures IsRing(AsFirst(s, el)) && (left != [] ==> IsRing(left))
    {
      ghost var q := Succ(0, |s|);
      assert head.next == s[q];
      el.next := head.next;
      el.prev := head;
      el.next.prev := el;
      head.next := el;
      assert forall k :: 0 < k < |s| ==> s[k].next == s[Succ(k, |s|)] && s[Succ(k, |s|)].prev == s[k];
      forall k | 0 <= k < |left|
        ensures left[k].next == old(left[k].next) && left[k].prev == old(left[k].prev)
      {
        assert left[k] in left;
      }
      LinkedFirst(s, el);
    }

    /** Destructor: every node ends up alone. */
    method Destroy(ghost s: seq<Node>)
      requires IsRing(s) && s[0] == head
      modifies s`prev, s`next
      ensures forall i :: 0 <= i < |s| ==> s[i].next == s[i].prev == s[i]
    {
      ghost var rest := s;
      while head.next != head
        invariant IsRing(rest) && rest[0] == head
        invariant forall i :: 0 <= i < |rest| ==> rest[i] in s
        invariant forall i :: 0 <= i < |s| ==> s[i] in rest || s[i].next == s[i].prev == s[i]
        decreases |rest|
      {
        RemoveNext(rest);
        WithoutMembers(rest, 1);
        rest := Without(rest, 1);
      }
      AloneRing(rest);
    }

    method RemoveNext(ghost s: seq<Node>)
      requires IsRing(s) && s[0] == head && head.next != head
      modifies s`prev, s`next
      ensures |s| > 1 && IsRing(Without(s, 1)) && s[1].next == s[1].prev == s[1]
    {
      assert head.next == s[Succ(0, |s|)];
      head.next.RemoveSelf(s, 1);
      assert IsRing([s[1]]);
      assert [s[1]][Succ(0, 1)] == s[1];
    }
  }

  lemma AloneRing(s: seq<Node>)
    requires IsRing(s) && s[0].next == s[0]
    ensures |s| == 1 && s[0].prev == s[0]
  {
    assert s[Succ(0, |s|)] == s[0];
  }

  lemma LinkedLast(s: seq<Node>, el: Node)
    requires |s| > 0 && el !in s
    requires forall i, j :: 0 <= i < j < |s| ==> s[i] != s[j]
    requires forall i :: 0 <= i < |s| - 1 ==> s[i].next == s[i + 1] && s[i + 1].prev == s[i]
    requires s[|s| - 1].next == el && el.prev == s[|s| - 1] && el.next == s[0] && s[0].prev == el
    ensures IsRing(s + [el])
  {
  }

  lemma LinkedFirst(s: seq<Node>, el: Node)
    requires |s| > 0 && el !in s
    requires forall i, j :: 0 <= i < j < |s| ==> s[i] != s[j]
    requires forall k :: 0 < k < |s| ==> s[k].next == s[Succ(k, |s|)] && s[Succ(k, |s|)].prev == s[k]
    requires s[0].next == el && el.prev == s[0] && el.next == s[Succ(0, |s|)] && s[Succ(0, |s|)].prev == el
    ensures IsRing(AsFirst(s, el))
  {
    var out := AsFirst(s, el);
    forall i | 2 <= i < |out|
      ensures out[i].next == out[Succ(i, |out|)] && out[Succ(i, |out|)].prev == out[i]
    {
      assert out[i] == s[i - 1] && out[Succ(i, |out|)] == s[Succ(i - 1, |s|)];
    }
    assert out[Succ(1, |out|)] == s[Succ(0, |s|)];
  }
}
