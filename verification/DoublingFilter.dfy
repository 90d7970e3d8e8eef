/** The body filter of waitfullreqbody.c: it reads all it can from the next step of the
    stream, keeps it, and hands out every byte twice, as far as the caller's buffer goes. */
module DoublingFilter {

  import opened Bytes

  function Double(s: seq<Byte>): (d: seq<Byte>)
    ensures |d| == 2 * |s|
  {
    if s == [] then [] else [s[0], s[0]] + Double(s[1..])
  }

  lemma {:induction false} DoubleConcat(s: seq<Byte>, t: seq<Byte>)
    ensures Double(s + t) == Double(s) + Double(t)
  {
    if s == [] {
      assert s + t == t;
    } else {
      assert (s + t)[1..] == s[1..] + t;
      DoubleConcat(s[1..], t);
    }
  }

  /** Output bytes 2i and 2i + 1 are both input byte i. */
  lemma {:induction false} DoubleAt(s: seq<Byte>, i: nat)
    requires i < |s|
    ensures Double(s)[2 * i] == s[i] && Double(s)[2 * i + 1] == s[i]
    decreases i
  {
    if i > 0 {
      DoubleAt(s[1..], i - 1);
    }
  }

  // -------------------------------------------------------- the output loop

  /** One pass takes as many buffered bytes as half the caller's whole buffer holds, not
      half of what is left of it. */
  function PassSize(len1: nat, size: nat): nat {
    Min(size, len1 / 2)
  }

  /** With p bytes written and size bytes buffered, the loop ends and stays within len1. */
  predicate StaysWithin(len1: nat, p: nat, size: nat)
    decreases size
  {
    if size == 0 || p >= len1 then p <= len1
    else PassSize(len1, size) > 0 && StaysWithin(len1, p + 2 * PassSize(len1, size), size - PassSize(len1, size))
  }

  /** The output loop ends within the caller's buffer exactly when the buffer is even, or
      what is buffered fits in half of it. */
  lemma StaysWithinIff(len1: nat, size: nat)
    ensures StaysWithin(len1, 0, size) <==> len1 % 2 == 0 || size <= len1 / 2
  {
    var sz := PassSize(len1, size);
    if size > 0 && len1 > 0 && sz > 0 && size > sz {
      var size1 := size - sz;
      assert 2 * sz == len1 - len1 % 2;
      if len1 % 2 == 1 {
        assert StaysWithin(len1, 0, size) == StaysWithin(len1, len1 - 1, size1);
        assert PassSize(len1, size1) > 0;
        assert !StaysWithin(len1, len1 - 1 + 2 * PassSize(len1, size1), size1 - PassSize(len1, size1));
      }
    }
  }

  /** An odd size that fails: five bytes to fill and three buffered. */
  lemma OddSizeOverruns()
    ensures !StaysWithin(5, 0, 3)
  {
    assert PassSize(5, 3) == 2 && PassSize(5, 1) == 1;
    assert !StaysWithin(5, 6, 0);
    assert StaysWithin(5, 4, 1) == StaysWithin(5, 6, 0);
  }

  /** How many buffered bytes one call hands out. */
  function Taken(len1: nat, size: nat): nat {
    Min(size, len1 / 2)
  }

  /** It hands out all that is buffered, or all that fits doubled. */
  lemma TakenIsMost(len1: nat, size: nat)
    ensures Taken(len1, size) <= size && 2 * Taken(len1, size) <= len1
    ensures Taken(len1, size) == size || 2 * (Taken(len1, size) + 1) > len1
  {
  }

  class Filter {
    var inbuf: seq<Byte>

    constructor ()
      ensures inbuf == []
    {
      inbuf := [];
    }

    /** The first loop: takes every chunk that the next step of the stream has. */
    method ReadAll(chunks: seq<seq<Byte>>)
      modifies this
      ensures inbuf == old(inbuf) + Flat(chunks)
    {
      var i := 0;
      while i < |chunks|
        invariant 0 <= i <= |chunks|
        invariant inbuf + Flat(chunks[i..]) == old(inbuf) + Flat(chunks)
      {
        var tmpBuf := chunks[i];
        assert chunks[i..] == [tmpBuf] + chunks[i + 1..];
        inbuf := inbuf + tmpBuf;
        i := i + 1;
      }
    }

    /** One pass of the second loop: writes sz bytes twice from position p on. */
    method WritePass(ptr1: array<Byte>, p: nat, sz: nat) returns (q: nat)
      requires sz <= |inbuf| && p + 2 * sz <= ptr1.Length
      modifies ptr1
      ensures q == p + 2 * sz
      ensures ptr1[..q] == old(ptr1[..p]) + Double(inbuf[..sz])
      ensures ptr1[q..] == old(ptr1[q..])
    {
      q := p;
      var i := 0;
      while i < sz
        invariant 0 <= i <= sz && q == p + 2 * i
        invariant ptr1[..q] == old(ptr1[..p]) + Double(inbuf[..i])
        invariant forall k :: p + 2 * sz <= k < ptr1.Length ==> ptr1[k] == old(ptr1[k])
      {
        ghost var done := ptr1[..q];
        ptr1[q] := inbuf[i];
        ptr1[q + 1] := inbuf[i];
        assert inbuf[..i + 1] == inbuf[..i] + [inbuf[i]];
        DoubleConcat(inbuf[..i], [inbuf[i]]);
        assert Double([inbuf[i]]) == [inbuf[i], inbuf[i]];
        assert ptr1[..q + 2] == done + [inbuf[i], inbuf[i]];
        q := q + 2;
        i := i + 1;
      }
    }

    /** httpreqread.  len1 is the size of the caller's buffer on entry, written the bytes
        put there; flagOut is raised, never lowered, when bytes are left for later. */
    method HttpReqRead(chunks: seq<seq<Byte>>, ptr1: array<Byte>, len1: nat, flagOut: bool)
      returns (written: nat, flag: bool)
      requires len1 <= ptr1.Length
      requires len1 % 2 == 0 || |inbuf| + |Flat(chunks)| <= len1 / 2
      modifies this, ptr1
      ensures written <= len1
      ensures var all := old(inbuf) + Flat(chunks);
        var n := Taken(len1, |all|);
        ptr1[..written] == Double(all[..n]) && inbuf == all[n..]
      ensures flag <==> flagOut || inbuf != []
      ensures ptr1[len1..] == old(ptr1[len1..])
    {
      ReadAll(chunks);
      ghost var all := inbuf;
      ghost var n := Taken(len1, |all|);
      var p: nat := 0;
      StaysWithinIff(len1, |all|);
      while inbuf != [] && p < len1
        invariant p <= len1 && StaysWithin(len1, p, |inbuf|)
        invariant (p == 0 && inbuf == all) || (p == 2 * n && inbuf == all[n..] && (inbuf == [] || p == len1))
        invariant ptr1[..p] == Double(all[..p / 2])
        invariant ptr1[len1..] == old(ptr1[len1..])
        decreases |inbuf|
      {
        var sz := |inbuf|;
        if sz > len1 / 2 {
          sz := len1 / 2;
        }
        WithinNow(len1, p, |inbuf|);
        assert all[..0] == [] && ptr1[..p] == [];
        ghost var end := ptr1[len1..];
        p := WritePass(ptr1, p, sz);
        assert ptr1[len1..] == ptr1[p..][len1 - p..] == end;
        inbuf := inbuf[sz..];
      }
      written := p;
      flag := flagOut || inbuf != [];
      assert n == 0 ==> all[n..] == all;
    }
  }

  lemma {:induction false} WithinNow(len1: nat, p: nat, size: nat)
    requires StaysWithin(len1, p, size) && size > 0 && p < len1
    ensures PassSize(len1, size) > 0 && p + 2 * PassSize(len1, size) <= len1
    decreases size
  {
    var sz := PassSize(len1, size);
    if size > sz && p + 2 * sz < len1 {
      WithinNow(len1, p + 2 * sz, size - sz);
    }
  }

  // ------------------------------------------------------------ whole runs

  /** One call: what the next step of the stream has for it, and the size it may fill. */
  datatype Call = Call(chunks: seq<seq<Byte>>, len1: nat)

  /** The carried bytes and all bytes handed out after a sequence of calls. */
  function Run(carried: seq<Byte>, out: seq<Byte>, calls: seq<Call>): (seq<Byte>, seq<Byte>)
    decreases |calls|
  {
    if calls == [] then (carried, out)
    else
      var all := carried + Flat(calls[0].chunks);
      var n := Taken(calls[0].len1, |all|);
      Run(all[n..], out + Double(all[..n]), calls[1..])
  }

  function Inputs(calls: seq<Call>): seq<Byte> {
    if calls == [] then [] else Flat(calls[0].chunks) + Inputs(calls[1..])
  }

  /** Every call ends within the size it may fill. */
  predicate AllFit(carried: seq<Byte>, calls: seq<Call>)
    decreases |calls|
  {
    calls == [] ||
    var all := carried + Flat(calls[0].chunks);
    StaysWithin(calls[0].len1, 0, |all|) && AllFit(all[Taken(calls[0].len1, |all|)..], calls[1..])
  }

  /** Even sizes always fit. */
  lemma {:induction false} EvenSizesFit(carried: seq<Byte>, calls: seq<Call>)
    requires forall i :: 0 <= i < |calls| ==> calls[i].len1 % 2 == 0
    ensures AllFit(carried, calls)
    decreases |calls|
  {
    if calls != [] {
      var all := carried + Flat(calls[0].chunks);
      StaysWithinIff(calls[0].len1, |all|);
      EvenSizesFit(all[Taken(calls[0].len1, |all|)..], calls[1..]);
    }
  }

  /** The filter called again and again, from an empty buffer of its caller's each time.
      What it hands out and the doubled carry are the doubled input. */
  method RunCalls(f: Filter, calls: seq<Call>) returns (out: seq<Byte>)
    requires AllFit(f.inbuf, calls)
    modifies f
    ensures (f.inbuf, out) == Run(old(f.inbuf), [], calls)
    ensures out + Double(f.inbuf) == Double(old(f.inbuf) + Inputs(calls))
  {
    out := [];
    var i := 0;
    assert calls[0..] == calls;
    while i < |calls|
      invariant 0 <= i <= |calls| && AllFit(f.inbuf, calls[i..])
      invariant Run(f.inbuf, out, calls[i..]) == Run(old(f.inbuf), [], calls)
    {
      assert calls[i..][0] == calls[i] && calls[i..][1..] == calls[i + 1..];
      var ptr1 := new Byte[calls[i].len1](_ => 0);
      StaysWithinIff(calls[i].len1, |f.inbuf| + |Flat(calls[i].chunks)|);
      var written, flag := f.HttpReqRead(calls[i].chunks, ptr1, calls[i].len1, false);
      out := out + ptr1[..written];
      i := i + 1;
    }
    RunConserves(old(f.inbuf), [], calls);
    assert [] + Double(old(f.inbuf) + Inputs(calls)) == Double(old(f.inbuf) + Inputs(calls));
  }

  lemma SplitOut(out: seq<Byte>, all: seq<Byte>, n: nat, later: seq<Byte>)
    requires n <= |all|
    ensures out + Double(all + later) == (out + Double(all[..n])) + Double(all[n..] + later)
  {
    assert all + later == all[..n] + (all[n..] + later);
    DoubleConcat(all[..n], all[n..] + later);
  }

  /** Over any calls, what was handed out and the doubled carry are the doubled input. */
  lemma {:induction false} RunConserves(carried: seq<Byte>, out: seq<Byte>, calls: seq<Call>)
    ensures Run(carried, out, calls).1 + Double(Run(carried, out, calls).0) == out + Double(carried + Inputs(calls))
    decreases |calls|
  {
    if calls == [] {
      assert carried + [] == carried;
    } else {
      var all := carried + Flat(calls[0].chunks);
      var n := Taken(calls[0].len1, |all|);
      RunConserves(all[n..], out + Double(all[..n]), calls[1..]);
      SplitOut(out, all, n, Inputs(calls[1..]));
      assert carried + Inputs(calls) == all + Inputs(calls[1..]);
    }
  }
}
