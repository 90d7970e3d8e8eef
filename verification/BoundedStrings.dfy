/** The bounded string helpers of lsdef.h, on bytes in an array.  A source string is given
    by its bytes in front of the terminator. */
module BoundedStrings {

  import opened Bytes

  const NUL: Byte := 0

  /** The C string that starts a stretch of memory: the bytes before the terminator. */
  function CString(s: seq<Byte>): (c: seq<Byte>)
    ensures c <= s && NUL !in c
    ensures |c| < |s| ==> s[|c|] == NUL
  {
    if s == [] || s[0] == NUL then [] else [s[0]] + CString(s[1..])
  }

  /** A string ends in front of the first byte zero. */
  lemma {:induction false} EndsAtZero(s: seq<Byte>, k: nat)
    requires k <= |s| && 0 !in s[..k] && (k < |s| ==> s[k] == 0)
    ensures CString(s) == s[..k]
    decreases k
  {
    if k > 0 {
      assert s[0] == s[..k][0];
      assert s[1..][..k - 1] == s[..k][1..];
      EndsAtZero(s[1..], k - 1);
      assert s[..k] == [s[0]] + s[1..][..k - 1];
    }
  }

  predicate Terminated(s: seq<Byte>) {
    NUL in s
  }

  /** At most m bytes of s. */
  function Take(s: seq<Byte>, m: nat): (t: seq<Byte>)
    ensures t <= s && |t| <= m
  {
    if |s| <= m then s else s[..m]
  }

  /** Memory that holds the bytes of c and then a terminator holds the string c. */
  lemma HoldsString(s: seq<Byte>, c: seq<Byte>)
    requires |c| < |s| && s[..|c|] == c && s[|c|] == NUL && NUL !in c
    ensures Terminated(s) && CString(s) == c
  {
    EndsAtZero(s, |c|);
  }

  /** What lstrncpy leaves in memory: the bytes of c at position at, a terminator, and
      everything else as it was. */
  predicate Wrote(mem: seq<Byte>, before: seq<Byte>, at: nat, c: seq<Byte>) {
    && |mem| == |before| && at + |c| < |mem|
    && (forall i :: 0 <= i < |c| ==> mem[at + i] == c[i])
    && mem[at + |c|] == NUL
    && (forall i :: 0 <= i < |mem| && (i < at || i > at + |c|) ==> mem[i] == before[i])
  }

  /** Copies at most n bytes of src to position at, always terminated if n > 0, and
      returns where the terminator is. */
  method Lstrncpy(dest: array<Byte>, at: nat, src: seq<Byte>, n: nat) returns (end: nat)
    requires at + n <= dest.Length && NUL !in src
    modifies dest
    ensures n == 0 ==> end == at && dest[..] == old(dest[..])
    ensures n > 0 ==> end == at + |Take(src, n - 1)| && Wrote(dest[..], old(dest[..]), at, Take(src, n - 1))
  {
    var i := 0;
    while i < n
      invariant 0 <= i <= n && i <= |src|
      invariant forall k :: 0 <= k < i ==> dest[at + k] == src[k]
      invariant forall k :: 0 <= k < dest.Length && (k < at || k >= at + i) ==> dest[k] == old(dest[k])
    {
      var ch := if i < |src| then src[i] else NUL;
      dest[at + i] := ch;
      if ch == NUL {
        end := at + i;
        return;
      }
      i := i + 1;
    }
    if n > 0 {
      end := at + n - 1;
      dest[end] := NUL;
      return;
    }
    end := at;
  }

  lemma TakeExtends(head: seq<Byte>, src: seq<Byte>, n: nat)
    requires |head| < n
    ensures Take(head + src, n - 1) == head + Take(src, n - |head| - 1)
  {
  }

  /** Writing behind the first k bytes of a stretch of memory extends its string. */
  lemma Extends(mem: seq<Byte>, before: seq<Byte>, at: nat, n: nat, k: nat, src: seq<Byte>)
    requires at + n <= |before| && k < n && NUL !in before[at..at + k] && NUL !in src
    requires Wrote(mem, before, at + k, Take(src, n - k - 1))
    ensures var c := Take(before[at..at + k] + src, n - 1);
      Terminated(mem[at..at + n]) && CString(mem[at..at + n]) == c && |c| == k + |Take(src, n - k - 1)|
  {
    var head, tail := before[at..at + k], Take(src, n - k - 1);
    TakeExtends(head, src, n);
    Window(mem, before, at, n, k, tail);
    HoldsString(mem[at..at + n], head + tail);
  }

  lemma Window(mem: seq<Byte>, before: seq<Byte>, at: nat, n: nat, k: nat, tail: seq<Byte>)
    requires at + n <= |before| && k + |tail| < n && Wrote(mem, before, at + k, tail)
    ensures mem[at..at + n][..k + |tail|] == before[at..at + k] + tail
    ensures mem[at..at + n][k + |tail|] == NUL
  {
    var w, c := mem[at..at + n][..k + |tail|], before[at..at + k] + tail;
    forall i | 0 <= i < |c|
      ensures w[i] == c[i]
    {
      assert w[i] == mem[at + i];
      if i >= k {
        assert mem[at + k + (i - k)] == tail[i - k];
      }
    }
  }

  lemma WroteInside(mem: seq<Byte>, before: seq<Byte>, at: nat, n: nat, k: nat, c: seq<Byte>)
    requires at + n <= |before| && k + |c| < n && Wrote(mem, before, at + k, c)
    ensures mem[..at] == before[..at] && mem[at + n..] == before[at + n..]
  {
  }

  /** memchr for a terminator: how far it is, or n if there is none. */
  method MemChr(dest: array<Byte>, at: nat, n: nat) returns (k: nat)
    requires at + n <= dest.Length
    ensures k <= n && NUL !in dest[..][at..at + k] && (k == n <==> !Terminated(dest[..][at..at + n]))
    ensures k < n ==> CString(dest[..][at..at + n]) == dest[..][at..at + k]
  {
    k := 0;
    while k < n && dest[at + k] != NUL
      invariant 0 <= k <= n && forall i :: at <= i < at + k ==> dest[i] != NUL
    {
      k := k + 1;
    }
    ghost var window := dest[..][at..at + n];
    assert window[..k] == dest[..][at..at + k];
    if k < n {
      assert window[k] == NUL;
      EndsAtZero(window, k);
    }
  }

  /** Appends src to the string in dest[at..at + n], cut to n - 1 bytes; memory without a
      terminator is left alone. */
  method Lstrncat(dest: array<Byte>, at: nat, src: seq<Byte>, n: nat) returns (end: nat)
    requires at + n <= dest.Length && NUL !in src
    modifies dest
    ensures dest[..][..at] == old(dest[..])[..at] && dest[..][at + n..] == old(dest[..])[at + n..]
    ensures !Terminated(old(dest[..])[at..at + n]) ==> end == at + n && dest[..] == old(dest[..])
    ensures Terminated(old(dest[..])[at..at + n]) ==>
      var c := Take(CString(old(dest[..])[at..at + n]) + src, n - 1);
      Terminated(dest[..][at..at + n]) && CString(dest[..][at..at + n]) == c && end == at + |c|
  {
    ghost var before := dest[..];
    var k := MemChr(dest, at, n);
    if k < n {
      end := Lstrncpy(dest, at + k, src, n - k);
      Extends(dest[..], before, at, n, k, src);
      WroteInside(dest[..], before, at, n, k, Take(src, n - k - 1));
    } else {
      end := at + n;
    }
  }

  /** lstrncat2: the two sources one after the other, cut to n - 1 bytes, exactly as two
      bounded appends to an empty string would leave them. */
  method Lstrncat2(dest: array<Byte>, n: nat, src1: seq<Byte>, src2: seq<Byte>) returns (end: nat)
    requires n <= dest.Length && NUL !in src1 && NUL !in src2
    modifies dest
    ensures n == 0 ==> end == 0 && dest[..] == old(dest[..])
    ensures n > 0 ==>
      && Terminated(dest[..][..n]) && CString(dest[..][..n]) == CatAll([], [src1, src2], n)
      && CatAll([], [src1, src2], n) == Take(src1 + src2, n - 1) && end == |Take(src1 + src2, n - 1)|
      && dest[..][n..] == old(dest[..])[n..]
  {
    end := Lstrncpy(dest, 0, src1, n);
    ghost var mid, k := dest[..], end;
    end := Lstrncpy(dest, end, src2, n - end);
    if n > 0 {
      TwoWrites(dest[..], mid, old(dest[..]), n, k, src1, src2);
      TwoWritesInside(dest[..], mid, old(dest[..]), n, k, Take(src1, n - 1), Take(src2, n - k - 1));
      TwoAppends(src1, src2, n);
    }
  }

  lemma WroteHolds(mem: seq<Byte>, before: seq<Byte>, at: nat, c: seq<Byte>)
    requires Wrote(mem, before, at, c)
    ensures mem[at..at + |c|] == c
  {
  }

  /** Two writes, the second where the first one ended, leave both strings cut to n - 1. */
  lemma TwoWrites(mem: seq<Byte>, mid: seq<Byte>, before: seq<Byte>, n: nat, k: nat, src1: seq<Byte>, src2: seq<Byte>)
    requires 0 < n <= |before| && NUL !in src1 && NUL !in src2 && k == |Take(src1, n - 1)|
    requires Wrote(mid, before, 0, Take(src1, n - 1)) && Wrote(mem, mid, k, Take(src2, n - k - 1))
    ensures var c := Take(src1 + src2, n - 1);
      Terminated(mem[..n]) && CString(mem[..n]) == c && k + |Take(src2, n - k - 1)| == |c|
  {
    WroteHolds(mid, before, 0, Take(src1, n - 1));
    Extends(mem, mid, 0, n, k, src2);
    TakeTwice(src1, src2, n);
  }

  lemma TwoWritesInside(mem: seq<Byte>, mid: seq<Byte>, before: seq<Byte>, n: nat, k: nat, first: seq<Byte>, second: seq<Byte>)
    requires n <= |before| && k == |first| && k + |second| < n
    requires Wrote(mid, before, 0, first) && Wrote(mem, mid, k, second)
    ensures mem[n..] == before[n..]
  {
    WroteInside(mem, mid, 0, n, k, second);
    WroteInside(mid, before, 0, n, 0, first);
  }

  lemma TakeTwice(a: seq<Byte>, b: seq<Byte>, n: nat)
    requires n > 0
    ensures Take(Take(a, n - 1) + b, n - 1) == Take(a + b, n - 1)
  {
  }

  lemma TwoAppends(src1: seq<Byte>, src2: seq<Byte>, n: nat)
    requires n > 0
    ensures CatAll([], [src1, src2], n) == Take(src1 + src2, n - 1)
  {
    CatAllIsTake([], [src1, src2], n);
    assert [src1, src2][1..] == [src2] && [src2][1..] == [];
    assert Flat([src2]) == src2 + Flat([]) == src2;
    assert Flat([src1, src2]) == src1 + Flat([src2]);
    assert [] + (src1 + src2) == src1 + src2;
  }

  // ------------------------------------------------------------ many calls

  /** The string after one lstrncat per source. */
  function CatAll(s: seq<Byte>, srcs: seq<seq<Byte>>, n: nat): seq<Byte>
    requires n > 0
    decreases |srcs|
  {
    if srcs == [] then s else CatAll(Take(s + srcs[0], n - 1), srcs[1..], n)
  }

  lemma Assoc(a: seq<Byte>, b: seq<Byte>, c: seq<Byte>)
    ensures a + (b + c) == a + b + c
  {
  }

  /** Any number of bounded appends leaves the first n - 1 bytes of the whole text: once
      the buffer is full nothing later gets in. */
  lemma {:induction false} CatAllIsTake(s: seq<Byte>, srcs: seq<seq<Byte>>, n: nat)
    requires |s| < n
    ensures CatAll(s, srcs, n) == Take(s + Flat(srcs), n - 1)
    decreases |srcs|
  {
    if srcs == [] {
      assert s + [] == s;
    } else {
      CatAllIsTake(Take(s + srcs[0], n - 1), srcs[1..], n);
      TakeTwice(s + srcs[0], Flat(srcs[1..]), n);
      Assoc(s, srcs[0], Flat(srcs[1..]));
    }
  }

  lemma CatAllNext(s: seq<Byte>, srcs: seq<seq<Byte>>, i: nat, n: nat)
    requires n > 0 && i < |srcs|
    ensures CatAll(s, srcs[i..], n) == CatAll(Take(s + srcs[i], n - 1), srcs[i + 1..], n)
  {
    assert srcs[i..][0] == srcs[i] && srcs[i..][1..] == srcs[i + 1..];
  }

  /** A list of lstrncat calls on one buffer. */
  method AppendAll(dest: array<Byte>, at: nat, srcs: seq<seq<Byte>>, n: nat) returns (end: nat)
    requires at + n <= dest.Length && Terminated(dest[..][at..at + n])
    requires forall i :: 0 <= i < |srcs| ==> NUL !in srcs[i]
    modifies dest
    ensures Terminated(dest[..][at..at + n])
    ensures CString(dest[..][at..at + n]) == Take(CString(old(dest[..])[at..at + n]) + Flat(srcs), n - 1)
    ensures srcs != [] ==> end == at + |CString(dest[..][at..at + n])|
    ensures dest[..][..at] == old(dest[..])[..at] && dest[..][at + n..] == old(dest[..])[at + n..]
  {
    ghost var s := CString(dest[..][at..at + n]);
    ghost var c := s;
    end := at;
    var i := 0;
    while i < |srcs|
      invariant 0 <= i <= |srcs| && Terminated(dest[..][at..at + n])
      invariant CString(dest[..][at..at + n]) == c && CatAll(c, srcs[i..], n) == CatAll(s, srcs, n)
      invariant i > 0 ==> end == at + |c|
      invariant dest[..][..at] == old(dest[..])[..at] && dest[..][at + n..] == old(dest[..])[at + n..]
    {
      CatAllNext(c, srcs, i, n);
      end := Lstrncat(dest, at, srcs[i], n);
      c := Take(c + srcs[i], n - 1);
      i := i + 1;
    }
    CatAllIsTake(s, srcs, n);
  }
}
