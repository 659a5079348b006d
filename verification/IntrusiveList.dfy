/** Circular doubly linked lists whose links are embedded in the objects they
    connect. A ring is the sequence of its nodes, the list head first. */
module IntrusiveLists {

  /** The lists an embedded node is meant for. */
  datatype Role = Registry | Active

  class ListNode<T> {
    var next: ListNode<T>
    var prev: ListNode<T>
    /** The object a node is embedded in, which the original finds by subtracting
        the node's offset from its address. */
    var owner: T
    ghost const role: Role

    /** `list_init`: a node on its own is an empty list. */
    constructor (owner: T, ghost role: Role)
      ensures next == this && prev == this && this.owner == owner && this.role == role
    {
      next, prev := this, this;
      this.owner := owner;
      this.role := role;
    }
  }

  function Succ(i: nat, n: nat): nat {
    if i + 1 < n then i + 1 else 0
  }

  function Pred(i: nat, n: nat): nat
    requires 0 < n
  {
    if i > 0 then i - 1 else n - 1
  }

  ghost predicate Distinct<X>(s: seq<X>) {
    forall i, j :: 0 <= i < j < |s| ==> s[i] != s[j]
  }

  /** The nodes are linked into one cycle, in this order, in both directions, and
      the cycle comes back to its head only at its end. */
  ghost predicate IsRing<T>(ring: seq<ListNode<T>>)
    reads ring
  {
    && ring != []
    && (forall i :: 1 <= i < |ring| ==> ring[i] != ring[0])
    && forall i {:trigger ring[i].next} {:trigger ring[i].prev} :: 0 <= i < |ring| ==>
         ring[i].next == ring[Succ(i, |ring|)] && ring[i].prev == ring[Pred(i, |ring|)]
  }

  /** So no node occurs twice: walking back from a repetition would meet the head
      before the end. */
  lemma RingIsDistinct<T>(ring: seq<ListNode<T>>)
    requires IsRing(ring)
    ensures Distinct(ring)
  {
    forall i, j | 0 <= i < j < |ring|
      ensures ring[i] != ring[j]
    {
      NotRepeated(ring, i, j);
    }
  }

  lemma {:induction false} NotRepeated<T>(ring: seq<ListNode<T>>, i: nat, j: nat)
    requires IsRing(ring) && i < j < |ring|
    ensures ring[i] != ring[j]
  {
    if i > 0 {
      NotRepeated(ring, i - 1, j - 1);
      assert ring[i].prev == ring[i - 1] && ring[j].prev == ring[j - 1];
    }
  }

  /** `list_empty`, in both directions. */
  ghost predicate IsEmpty<T>(l: ListNode<T>)
    reads l
  {
    l.next == l && l.prev == l
  }

  lemma EmptyRing<T>(l: ListNode<T>, ring: seq<ListNode<T>>)
    requires |ring| == 1 && ring[0] == l
    ensures IsRing(ring) <==> IsEmpty(l)
  {
  }

  /** Following `next` from the head stays within these nodes for ever, so a walk
      that stops on its return to the head never stops. */
  ghost predicate NeverReturns<T>(l: ListNode<T>, trap: seq<ListNode<T>>)
    reads l, trap
  {
    l !in trap && l.next in trap && forall x :: x in trap ==> x.next in trap
  }

  /** Inserts a node behind the head. A node that was not in the list, whatever
      its links were, becomes the first. A node that was already in it closes
      the links into a cycle that leaves the head out. */
  method ListInsertAfter<T>(l: ListNode<T>, n: ListNode<T>, ghost ring: seq<ListNode<T>>)
    requires IsRing(ring) && ring[0] == l
    modifies l`next, l.next`prev, n`next, n`prev
    ensures n !in ring ==> IsRing([l, n] + ring[1..])
    ensures forall k :: 1 <= k < |ring| && ring[k] == n ==> NeverReturns(l, ring[1..k + 1])
  {
    RingIsDistinct(ring);
    ghost var m := |ring|;
    assert l.next == ring[Succ(0, m)] && l.prev == ring[m - 1];
    l.next.prev := n;
    n.next := l.next;
    l.next := n;
    n.prev := l;
    if n !in ring {
      ghost var now := [l, n] + ring[1..];
      forall i | 0 <= i < |now|
        ensures now[i].next == now[Succ(i, |now|)] && now[i].prev == now[Pred(i, |now|)]
      {
        if i >= 2 {
          assert now[i] == ring[i - 1];
          assert ring[i - 1].next == ring[Succ(i - 1, m)];
          if i > 2 {
            assert ring[i - 1].prev == ring[i - 2];
          }
        }
      }
    } else {
      forall k | 1 <= k < |ring| && ring[k] == n
        ensures NeverReturns(l, ring[1..k + 1])
      {
        forall i | 1 <= i < k + 1
          ensures ring[i].next in ring[1..k + 1]
        {
          if i < k {
            assert ring[i].next == ring[i + 1] == ring[1..k + 1][i];
          } else {
            assert ring[i].next == ring[1] == ring[1..k + 1][0];
          }
        }
        assert l.next == ring[1..k + 1][k - 1];
      }
    }
  }

  /** Takes a node out of the list it is in and leaves it on its own. */
  method ListDel<T>(n: ListNode<T>, ghost ring: seq<ListNode<T>>, ghost k: nat)
    requires IsRing(ring) && 0 < k < |ring| && ring[k] == n
    modifies n.next`prev, n.prev`next, n`next, n`prev
    ensures IsRing(ring[..k] + ring[k + 1..])
    ensures IsEmpty(n)
  {
    RingIsDistinct(ring);
    ghost var m := |ring|;
    assert n.next == ring[Succ(k, m)] && n.prev == ring[k - 1];
    n.next.prev := n.prev;
    n.prev.next := n.next;
    n.next := n;
    n.prev := n;
    ghost var now := ring[..k] + ring[k + 1..];
    forall i | 0 <= i < |now|
      ensures now[i].next == now[Succ(i, |now|)] && now[i].prev == now[Pred(i, |now|)]
    {
      ghost var j := if i < k then i else i + 1;
      assert now[i] == ring[j] && j != k;
      assert now[Succ(i, |now|)] == ring[if Succ(j, m) == k then Succ(k, m) else Succ(j, m)];
      assert now[Pred(i, |now|)] == ring[if Pred(j, m) == k then Pred(k, m) else Pred(j, m)];
      assert old(ring[j].next) == ring[Succ(j, m)] && old(ring[j].prev) == ring[Pred(j, m)];
    }
  }

  /** Looks for a node behind the head; finding it returns the node itself. */
  method ListFind<T>(head: ListNode<T>, node: ListNode<T>, ghost ring: seq<ListNode<T>>)
    returns (found: bool)
    requires IsRing(ring) && ring[0] == head
    ensures found <==> node in ring[1..]
  {
    var it := head.next;
    ghost var i := 1;
    assert head.next == ring[Succ(0, |ring|)];
    while it != head
      invariant 1 <= i <= |ring|
      invariant it == if i < |ring| then ring[i] else head
      invariant node !in ring[1..i]
      decreases |ring| - i
    {
      if it == node {
        assert node == ring[1..][i - 1];
        return true;
      }
      assert ring[i].next == ring[Succ(i, |ring|)];
      it := it.next;
      i := i + 1;
    }
    assert ring[1..i] == ring[1..];
    return false;
  }
}
