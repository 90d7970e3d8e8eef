/** Singly linked lists in a heap of next pointers: the shape shared by the intrusive
    stack and the session list. */
module LinkedHeap {
  import opened Sequences

  type Node = nat

  datatype Link = Null | Ptr(node: Node)

  type Heap = map<Node, Link>

  /** Following next from head visits exactly the nodes of s, in order, and ends. */
  predicate Chain(next: Heap, head: Link, s: seq<Node>)
    decreases |s|
  {
    if s == [] then head == Null
    else head == Ptr(s[0]) && s[0] in next && Chain(next, next[s[0]], s[1..])
  }

  /** Heaps that agree on the nodes of a list carry the same list. */
  lemma {:induction false} ChainFrame(next: Heap, next': Heap, head: Link, s: seq<Node>)
    requires Chain(next, head, s)
    requires forall n :: n in s && n in next ==> n in next' && next'[n] == next[n]
    ensures Chain(next', head, s)
    decreases |s|
  {
    if s != [] {
      ChainFrame(next, next', next[s[0]], s[1..]);
    }
  }

  /** A list has no two readings. */
  lemma {:induction false} ChainUnique(next: Heap, head: Link, s: seq<Node>, r: seq<Node>)
    requires Chain(next, head, s) && Chain(next, head, r)
    ensures s == r
    decreases |s|
  {
    if s != [] {
      ChainUnique(next, next[s[0]], s[1..], r[1..]);
      assert s == [s[0]] + s[1..] && r == [r[0]] + r[1..];
    }
  }

  function LinkAt(s: seq<Node>, k: nat): Link {
    if k < |s| then Ptr(s[k]) else Null
  }

  /** Each node of a list points to the one after it, the last to nothing. */
  lemma {:induction false} ChainAt(next: Heap, head: Link, s: seq<Node>, k: nat)
    requires Chain(next, head, s) && k < |s|
    ensures head == LinkAt(s, 0) && s[k] in next && next[s[k]] == LinkAt(s, k + 1)
    decreases k
  {
    if k == 0 {
      assert Chain(next, next[s[0]], s[1..]);
    } else {
      ChainAt(next, next[s[0]], s[1..], k - 1);
    }
  }

  /** Writing the link in front of node k around it removes it and nothing else. */
  lemma {:induction false} ChainUnlink(next: Heap, head: Link, s: seq<Node>, k: nat)
    requires Chain(next, head, s) && Distinct(s) && k < |s| && s[k] in next
    ensures k == 0 ==> Chain(next, next[s[0]], Without(s, 0))
    ensures k > 0 ==> Chain(next[s[k - 1] := next[s[k]]], head, Without(s, k))
    decreases k
  {
    if k == 0 {
      assert Without(s, 0) == s[1..];
    } else if k == 1 {
      var r, rest := Without(s, 1), s[2..];
      assert s[..1] == [s[0]] && r == [s[0]] + rest && r[1..] == rest && s[1..][1..] == rest;
      ChainFrame(next, next[s[0] := next[s[1]]], next[s[1]], rest);
    } else {
      var r := Without(s, k);
      assert r[0] == s[0] && r[1..] == Without(s[1..], k - 1);
      ChainUnlink(next, next[s[0]], s[1..], k - 1);
    }
  }

  lemma {:induction false} ChainAllocated(next: Heap, head: Link, s: seq<Node>)
    requires Chain(next, head, s)
    ensures forall n :: n in s ==> n in next
    decreases |s|
  {
    if s != [] {
      ChainAllocated(next, next[s[0]], s[1..]);
    }
  }
}
