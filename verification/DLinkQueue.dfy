/** The sentinel-based doubly linked queue of ls_dlinkq.h over the pointer surgery of
    ls_link.h.  The queue refines a sequence of distinct nodes. */
module DLinkQueue {
  import opened Sequences

  class DLink {
    var next: DLink?
    var prev: DLink?
    var pobj: object?

    /** Links pNext in behind this node; also says what comes of a node that is this one
        or already behind it. */
    method AddNext(pNext: DLink)
      modifies this`next, pNext`next, pNext`prev, Nodes(next)`prev
      ensures pNext.next == old(next) && (pNext != this ==> next == pNext)
      ensures pNext.prev == if pNext == old(next) then pNext else this
      ensures old(next) != null ==> old(next).prev == pNext
    {
      var pTemp := next;
      next := pNext;
      pNext.next := pTemp;
      pNext.prev := this;
      if pTemp != null {
        pTemp.prev := pNext;
      }
    }

    /** Links pPrev in before this node, and likewise. */
    method AddPrev(pPrev: DLink)
      modifies this`prev, pPrev`next, pPrev`prev, Nodes(prev)`next
      ensures pPrev.prev == old(prev) && (pPrev != this ==> prev == pPrev)
      ensures pPrev.next == if pPrev == old(prev) then pPrev else this
      ensures old(prev) != null ==> old(prev).next == pPrev
    {
      var pTemp := prev;
      prev := pPrev;
      pPrev.prev := pTemp;
      pPrev.next := this;
      if pTemp != null {
        pTemp.next := pPrev;
      }
    }

    /** Zeroes the whole node, its object included. */
    method Zero()
      modifies this
      ensures next == null && prev == null && pobj == null
    {
      next, prev, pobj := null, null, null;
    }

    predicate Zeroed()
      reads this
    {
      next == null && prev == null && pobj == null
    }

    /** Unlinks the node behind this one and returns it, zeroed, even if it is this one. */
    method RemoveNext() returns (pNext: DLink?)
      modifies this`next, Nodes(next), (if next == null then {} else Nodes(next.next))`prev
      ensures pNext == old(next)
      ensures pNext == null ==> next == null
      ensures pNext != null ==> pNext.Zeroed() && (pNext != this ==> next == old(next.next))
      ensures pNext != null && old(next.next) != null && old(next.next) != pNext ==> old(next.next).prev == this
    {
      pNext := next;
      if pNext != null {
        var pTemp := pNext.next;
        next := pTemp;
        if pTemp != null {
          pTemp.prev := this;
        }
        pNext.Zero();
      }
    }

    /** Unlinks this node, zeroes it, and returns the node that was behind it. */
    method Remove() returns (pNext: DLink?)
      modifies this, Nodes(next)`prev, Nodes(prev)`next
      ensures pNext == old(next) && Zeroed()
      ensures old(next) != null && old(next) != this ==> old(next).prev == old(prev)
      ensures old(prev) != null && old(prev) != this ==> old(prev).next == old(next)
    {
      pNext := next;
      if pNext != null {
        pNext.prev := prev;
      }
      if prev != null {
        prev.next := next;
      }
      Zero();
    }
  }

  function Nodes(n: DLink?): set<DLink> {
    if n == null then {} else {n}
  }

  function Next(i: int, n: int): int {
    if i + 1 == n then 0 else i + 1
  }

  /** Next and prev run around r, each the inverse of the other. */
  ghost predicate Linked(r: seq<DLink>)
    reads r
  {
    && (forall i :: 0 <= i < |r| ==> r[i].next == r[Next(i, |r|)])
    && (forall i :: 0 <= i < |r| ==> r[Next(i, |r|)].prev == r[i])
  }

  /** Bridging the gap at position m closes the ring without it. */
  lemma LinkedWithout(r: seq<DLink>, m: nat)
    requires 0 < m < |r|
    requires r[m - 1].next == r[Next(m, |r|)] && r[Next(m, |r|)].prev == r[m - 1]
    requires forall i :: 0 <= i < |r| && i != m - 1 && i != m ==> r[i].next == r[Next(i, |r|)]
    requires forall i :: 0 <= i < |r| && i != m - 1 && i != m ==> r[Next(i, |r|)].prev == r[i]
    ensures Linked(Without(r, m))
  {
    var q := Without(r, m);
    WithoutAt(r, m);
    forall i | 0 <= i < |q|
      ensures q[i].next == q[Next(i, |q|)] && q[Next(i, |q|)].prev == q[i]
    {
      var j := if i < m then i else i + 1;
      assert q[i] == r[j];
      assert q[Next(i, |q|)] == if j == m - 1 then r[Next(m, |r|)] else r[Next(j, |r|)];
    }
  }

  /** A node linked in behind the first one widens the ring. */
  lemma LinkedWith(r: seq<DLink>, p: DLink, q: seq<DLink>)
    requires r != [] && q == [r[0], p] + r[1..]
    requires r[0].next == p && p.prev == r[0]
    requires p.next == r[Next(0, |r|)] && r[Next(0, |r|)].prev == p
    requires forall i :: 0 < i < |r| ==> r[i].next == r[Next(i, |r|)] && r[Next(i, |r|)].prev == r[i]
    ensures Linked(q)
  {
    forall i | 0 <= i < |q|
      ensures q[i].next == q[Next(i, |q|)] && q[Next(i, |q|)].prev == q[i]
    {
      if i > 1 {
        assert q[i] == r[i - 1] && q[Next(i, |q|)] == r[Next(i - 1, |r|)];
      }
    }
  }

  /** Removing the node at position m of a ring leaves the ring of the others. */
  method Detach(ghost r: seq<DLink>, pReq: DLink, ghost m: nat)
    requires 0 < m < |r| && r[m] == pReq && Distinct(r) && Linked(r)
    modifies (set n | n in r)`next, (set n | n in r)`prev, pReq
    ensures Linked(Without(r, m)) && pReq.Zeroed()
  {
    ghost var after := Next(m, |r|);
    assert r[Next(m - 1, |r|)] == pReq;
    assert pReq.prev == r[m - 1] && pReq.next == r[after];
    var _ := pReq.Remove();
    assert r[m - 1].next == r[after] && r[after].prev == r[m - 1];
    forall i | 0 <= i < |r| && i != m - 1 && i != m
      ensures r[i].next == r[Next(i, |r|)] && r[Next(i, |r|)].prev == r[i]
    {
      assert r[i] != r[m - 1] && r[i] != r[m];
      assert Next(i, |r|) != m && Next(i, |r|) != after;
    }
    LinkedWithout(r, m);
  }

  class DLinkQ {
    const m_head: DLink
    var m_iTotal: int
    ghost var elems: seq<DLink>

    ghost function Ring(): (r: seq<DLink>)
      reads this
      ensures |r| == |elems| + 1
    {
      [m_head] + elems
    }

    ghost function Footprint(): set<DLink>
      reads this
    {
      set n | n in Ring()
    }

    /** The links form one ring through the sentinel, each prev the inverse of a next,
        over distinct nodes, and the count is right. */
    ghost predicate Valid()
      reads this, Footprint()
    {
      var r := Ring();
      && Distinct(r)
      && Linked(r)
      && m_iTotal == |elems|
    }

    constructor ()
      ensures Valid() && elems == [] && fresh(m_head)
    {
      m_head := new DLink;
      m_iTotal := 0;
      elems := [];
      new;
      m_head.next := m_head;
      m_head.prev := m_head;
      m_head.pobj := null;
    }

    method Size() returns (n: int)
      requires Valid()
      ensures n == |elems|
    {
      n := m_iTotal;
    }

    method Empty() returns (b: bool)
      requires Valid()
      ensures b <==> elems == []
    {
      assert Ring()[0] == m_head;
      b := m_head.next == m_head;
    }

    method Append(pReq: DLink)
      requires Valid() && pReq !in Footprint()
      modifies this`m_iTotal, this`elems, Footprint()`next, Footprint()`prev, pReq`next, pReq`prev
      ensures Valid() && elems == old(elems) + [pReq]
    {
      ghost var r := Ring();
      assert r[Next(|r| - 1, |r|)] == m_head;
      assert r[0] == m_head;
      m_head.prev.AddNext(pReq);
      m_iTotal := m_iTotal + 1;
      elems := elems + [pReq];
      assert Ring() == r + [pReq];
    }

    method PushFront(pReq: DLink)
      requires Valid() && pReq !in Footprint()
      modifies this`m_iTotal, this`elems, Footprint()`next, Footprint()`prev, pReq`next, pReq`prev
      ensures Valid() && elems == [pReq] + old(elems)
    {
      ghost var r := Ring();
      assert r[0] == m_head;
      m_head.next.AddPrev(pReq);
      m_iTotal := m_iTotal + 1;
      elems := [pReq] + elems;
      assert Ring() == [m_head, pReq] + r[1..];
      forall i | 0 < i < |r|
        ensures r[i].next == r[Next(i, |r|)] && r[Next(i, |r|)].prev == r[i]
      {
        assert r[i] != r[0] && r[Next(i, |r|)] != r[Next(0, |r|)];
      }
      LinkedWith(r, pReq, Ring());
    }

    /** The unlinking of the member at position k. */
    method Unlink(pReq: DLink, ghost k: nat)
      requires Valid() && k < |elems| && elems[k] == pReq
      modifies this`m_iTotal, this`elems, Footprint()`next, Footprint()`prev, pReq
      ensures Valid() && pReq.Zeroed() && elems == Without(old(elems), k)
    {
      ghost var r := Ring();
      Detach(r, pReq, k + 1);
      m_iTotal := m_iTotal - 1;
      elems := Without(elems, k);
      WithoutAt(r, k + 1);
      assert Ring() == Without(r, k + 1);
    }

    /** Removes a member wherever it stands; a node that is in no list is left alone. */
    method Remove(pReq: DLink)
      requires Valid() && pReq != m_head
      requires pReq.next == null || pReq in elems
      modifies this`m_iTotal, this`elems, Footprint()`next, Footprint()`prev, pReq
      ensures Valid()
      ensures pReq in old(elems) <==> old(pReq.next) != null
      ensures pReq !in old(elems) ==> elems == old(elems) && unchanged(this, pReq, old(Footprint()))
      ensures pReq in old(elems) ==>
        pReq.Zeroed() && elems == Without(old(elems), IndexOf(old(elems), pReq))
    {
      if pReq.next != null {
        Unlink(pReq, IndexOf(elems, pReq));
      } else {
        ghost var r := Ring();
        assert forall i :: 0 <= i < |r| ==> r[i].next != null;
        assert forall k :: 0 <= k < |elems| ==> elems[k] == r[k + 1];
      }
    }

    method PopFront() returns (pReq: DLink?)
      requires Valid()
      modifies this`m_iTotal, this`elems, Footprint()`next, Footprint()`prev, (if elems == [] then {} else {elems[0]})
      ensures Valid()
      ensures old(elems) == [] ==> pReq == null && elems == []
      ensures old(elems) != [] ==> pReq == old(elems)[0] && pReq.Zeroed() && elems == old(elems)[1..]
    {
      ghost var r := Ring();
      assert r[0] == m_head;
      if m_head.next != m_head {
        m_iTotal := m_iTotal - 1;
        assert r[Next(0, |r|)] == r[1] == elems[0];
        pReq := m_head.RemoveNext();
        elems := elems[1..];
        forall i | 1 < i < |r|
          ensures r[i].next == r[Next(i, |r|)] && r[Next(i, |r|)].prev == r[i]
        {
          assert r[i] != r[0] && r[i] != r[1] && r[Next(i, |r|)] != r[1] && r[Next(i, |r|)] != r[Next(1, |r|)];
        }
        LinkedWithout(r, 1);
        WithoutAt(r, 1);
        assert Ring() == Without(r, 1);
      } else {
        assert m_iTotal == 0;
        pReq := null;
      }
    }
  }

  /** Along the ring, prev undoes next and next undoes prev. */
  lemma NextPrevInverse(q: DLinkQ, n: DLink)
    requires q.Valid() && n in q.Footprint()
    ensures n.next != null && n.next in q.Footprint() && n.next.prev == n
    ensures n.prev != null && n.prev in q.Footprint() && n.prev.next == n
  {
    var r := q.Ring();
    var i :| 0 <= i < |r| && r[i] == n;
    var j := if i == 0 then |r| - 1 else i - 1;
    assert r[j].next == r[Next(j, |r|)] == n;
    assert n.prev == r[j] && n.next == r[Next(i, |r|)];
  }

  /** A second remove of the same node changes nothing. */
  method RemoveTwice(q: DLinkQ, pReq: DLink)
    requires q.Valid() && pReq in q.elems
    modifies q`m_iTotal, q`elems, q.Footprint()`next, q.Footprint()`prev, pReq
    ensures q.Valid() && pReq.Zeroed()
    ensures q.elems == Without(old(q.elems), IndexOf(old(q.elems), pReq))
  {
    ghost var r := q.Ring();
    assert forall k :: 0 <= k < |q.elems| ==> q.elems[k] == r[k + 1];
    assert r[0] == q.m_head;
    assert pReq != q.m_head;
    q.Remove(pReq);
    q.Remove(pReq);
  }
}
