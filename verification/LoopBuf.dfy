/** The inline part of ls_loopbuf.h: a ring of sizemax bytes between two marks that holds
    at most sizemax - 1 of them.  Pointers are offsets from pbuf. */
module LoopBuf {

  import opened Bytes

  /** C's remainder, which truncates. */
  function Rem(a: int, b: int): int
    requires b > 0
  {
    if a >= 0 then a % b else -((-a) % b)
  }

  class LoopBuf {
    const pbuf: array<Byte>
    var phead: nat
    var pend: nat

    ghost predicate Valid()
      reads this
    {
      phead < pbuf.Length && pend < pbuf.Length
    }

    ghost function Contents(): (s: seq<Byte>)
      requires Valid()
      reads this, pbuf
      ensures |s| < pbuf.Length
    {
      if phead <= pend then pbuf[phead..pend] else pbuf[phead..] + pbuf[..pend]
    }

    constructor (size: nat)
      requires size > 0
      ensures Valid() && Contents() == [] && pbuf.Length == size && fresh(pbuf)
    {
      pbuf := new Byte[size](_ => 0);
      phead, pend := 0, 0;
    }

    /** The bytes in front of the end of the buffer. */
    function BlkSize(): (n: int)
      requires Valid()
      reads this, pbuf
      ensures 0 <= n <= |Contents()| && phead + n <= pbuf.Length
      ensures pbuf[phead..phead + n] == Contents()[..n]
      ensures n == |Contents()| || phead + n == pbuf.Length
    {
      if phead > pend then pbuf.Length - phead else pend - phead
    }

    function Size(): (n: int)
      requires Valid()
      reads this, pbuf
      ensures n == |Contents()|
    {
      var ret := pend - phead;
      if ret >= 0 then ret else ret + pbuf.Length
    }

    predicate Empty()
      requires Valid()
      reads this, pbuf
      ensures Empty() <==> Contents() == []
    {
      phead == pend
    }

    predicate Full()
      requires Valid()
      reads this, pbuf
      ensures Full() <==> |Contents()| == pbuf.Length - 1
    {
      Size() == pbuf.Length - 1
    }

    function GetPtr(offset: int): int
      requires Valid()
      reads this
    {
      Rem(phead + offset, pbuf.Length)
    }

    function GetOffset(p: int): int
      requires Valid()
      reads this
    {
      if p < 0 || p >= pbuf.Length then -1 else Rem(p - phead + pbuf.Length, pbuf.Length)
    }

    method Clear()
      requires Valid()
      modifies this
      ensures Valid() && Contents() == []
    {
      phead, pend := 0, 0;
    }

    /** Appends without looking whether there is room.  With room it adds ch at the end;
        a full ring becomes an empty one. */
    method UnsafeApp(ch: Byte)
      requires Valid()
      modifies this`pend, pbuf
      ensures Valid()
      ensures !old(Full()) ==> Contents() == old(Contents()) + [ch]
      ensures old(Full()) ==> Contents() == []
    {
      pbuf[pend] := ch;
      pend := pend + 1;
      if pend == pbuf.Length {
        pend := 0;
      }
    }

    /** inc: moves a position on by one, around the end. */
    method Inc(pos: nat) returns (p: nat)
      requires Valid() && pos < pbuf.Length
      ensures p == Step(pos, 1)
    {
      assert Step(pos, 0) == pos;
      p := pos + 1;
      if p == pbuf.Length {
        p := 0;
      }
    }

    /** inc applied n times. */
    function Step(pos: nat, n: nat): (p: nat)
      requires pos < pbuf.Length
      ensures p < pbuf.Length
    {
      if n == 0 then pos
      else
        var q := Step(pos, n - 1);
        if q + 1 == pbuf.Length then 0 else q + 1
    }
  }

  /** The remainder has the sign of what is divided. */
  lemma RemTruncates(a: int, b: int)
    requires b > 0
    ensures exists q: int :: a == Times(q, b) + Rem(a, b)
    ensures -b < Rem(a, b) < b && (a >= 0 ==> Rem(a, b) >= 0) && (a <= 0 ==> Rem(a, b) <= 0)
  {
    if a >= 0 {
      assert a == Times(a / b, b) + a % b;
    } else {
      var q := -((-a) / b);
      assert a == Times(q, b) - ((-a) % b);
    }
  }

  function Times(q: int, b: int): int { q * b }

  /** A pointer outside the buffer has no offset, and no other one is refused. */
  lemma OffsetRefused(b: LoopBuf, p: int)
    requires b.Valid()
    ensures b.GetOffset(p) == -1 <==> p < 0 || p >= b.pbuf.Length
  {
    if 0 <= p < b.pbuf.Length {
      OffsetInRing(b, p);
    }
  }

  lemma {:induction false} MultipleIsLarge(d: int, b: int)
    requires d >= 1 && b > 0
    ensures d * b >= b
    decreases d
  {
    if d > 1 {
      MultipleIsLarge(d - 1, b);
      assert d * b == (d - 1) * b + b;
    }
  }

  lemma RemainderIs(a: int, b: int, q: int, r: int)
    requires b > 0 && a == q * b + r && 0 <= r < b
    ensures a % b == r
  {
    var k, m := a / b, a % b;
    assert (k - q) * b == r - m && (q - k) * b == m - r;
    if k > q {
      MultipleIsLarge(k - q, b);
    } else if k < q {
      MultipleIsLarge(q - k, b);
    }
  }

  lemma NextRemainder(a: nat, b: nat)
    requires b > 0
    ensures (a + 1) % b == if a % b + 1 == b then 0 else a % b + 1
  {
    if a % b + 1 == b {
      assert a + 1 == (a / b + 1) * b;
      RemainderIs(a + 1, b, a / b + 1, 0);
    } else {
      RemainderIs(a + 1, b, a / b, a % b + 1);
    }
  }

  /** Stepping n times from the head is the pointer of offset n. */
  lemma {:induction false} StepIsPtr(b: LoopBuf, n: nat)
    requires b.Valid()
    ensures b.Step(b.phead, n) == b.GetPtr(n)
    decreases n
  {
    if n == 0 {
      RemainderIs(b.phead, b.pbuf.Length, 0, b.phead);
    } else {
      StepIsPtr(b, n - 1);
      NextRemainder(b.phead + n - 1, b.pbuf.Length);
    }
  }

  lemma OffsetInRing(b: LoopBuf, p: nat)
    requires b.Valid() && p < b.pbuf.Length
    ensures b.GetOffset(p) == if p >= b.phead then p - b.phead else p - b.phead + b.pbuf.Length
  {
    var n := b.pbuf.Length;
    if p >= b.phead {
      RemainderIs(p - b.phead + n, n, 1, p - b.phead);
    } else {
      RemainderIs(p - b.phead + n, n, 0, p - b.phead + n);
    }
  }

  lemma PtrInRing(b: LoopBuf, o: nat)
    requires b.Valid() && o < b.pbuf.Length
    ensures b.GetPtr(o) == if b.phead + o < b.pbuf.Length then b.phead + o else b.phead + o - b.pbuf.Length
  {
    var n := b.pbuf.Length;
    if b.phead + o < n {
      RemainderIs(b.phead + o, n, 0, b.phead + o);
    } else {
      RemainderIs(b.phead + o, n, 1, b.phead + o - n);
    }
  }

  /** Offsets in range and positions in the buffer are the same thing. */
  lemma PtrAndOffsetInverse(b: LoopBuf, o: nat, p: nat)
    requires b.Valid() && o < b.pbuf.Length && p < b.pbuf.Length
    ensures 0 <= b.GetPtr(o) < b.pbuf.Length && b.GetOffset(b.GetPtr(o)) == o
    ensures 0 <= b.GetOffset(p) < b.pbuf.Length && b.GetPtr(b.GetOffset(p)) == p
  {
    PtrInRing(b, o);
    OffsetInRing(b, b.GetPtr(o));
    OffsetInRing(b, p);
    PtrInRing(b, b.GetOffset(p));
  }

  /** Stepping from begin exactly size times visits the contents in order and lands on
      end, and no sooner. */
  lemma WalkVisitsContents(b: LoopBuf, i: nat)
    requires b.Valid() && i <= b.Size()
    ensures i < b.Size() ==> b.pbuf[b.Step(b.phead, i)] == b.Contents()[i]
    ensures b.Step(b.phead, i) == b.pend <==> i == b.Size()
  {
    StepIsPtr(b, i);
    PtrInRing(b, i);
  }
}
