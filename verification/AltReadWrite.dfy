/** The read/write pump of mtaltreadwrite.c: request body in, response body out, through
    one buffer that is compacted in place.  Reads and appends may be short or fail. */
module AltReadWrite {

  import opened Bytes
  import opened ServerApi

  // ---------------------------------------------------- one round, counted

  /** Where the buffered bytes start and end, and how many bytes are still to be read. */
  datatype Marks = Marks(write: nat, read: nat, unread: nat)

  /** The sizes of one request.  With equal sizes the buffer is only one of them long. */
  datatype Sizes = Sizes(readSize: nat, writeSize: nat) {
    predicate Equal() { readSize == writeSize }

    function Capacity(): nat {
      if readSize == writeSize then readSize else readSize + writeSize
    }

    predicate Fits(m: Marks) {
      readSize > 0 && writeSize > 0 && m.write <= m.read <= Capacity()
    }
  }

  /** got and put are what a round without failures may read and append; a full one
      appends all it can as long as body is left to read. */
  predicate Transfers(z: Sizes, steady: bool, full: bool, m: Marks, got: nat, put: nat)
    requires z.Fits(m)
  {
    && (if z.Capacity() - m.read >= z.readSize then MayMove(steady, full, got, Min(z.readSize, m.unread)) else got == 0)
    && (if m.read + got - m.write >= z.writeSize then MayMove(steady, full && got < m.unread, put, z.writeSize) else put == 0)
  }

  /** The buffer is compacted when neither a read nor an append would fit. */
  function Settle(z: Sizes, m: Marks): Marks
    requires m.write <= m.read
  {
    if m.read - m.write < z.writeSize && z.Capacity() - m.read < z.readSize then Marks(0, m.read - m.write, m.unread)
    else m
  }

  /** The marks after a round that read got and appended put. */
  function RoundMarks(z: Sizes, m: Marks, got: nat, put: nat): Marks
    requires z.Fits(m) && Transfers(z, false, false, m, got, put)
  {
    Settle(z, Marks(m.write + put, m.read + got, m.unread - got))
  }

  /** The loop goes on, with too little to append, too little room to read, and nothing to
      gain by moving. */
  predicate Hung(z: Sizes, m: Marks) {
    z.Equal() && m.write == 0 && 0 < m.read < z.readSize && m.unread > 0
  }

  /** A part, but not all, of a chunk was read or appended. */
  predicate Partial(z: Sizes, move: (nat, nat)) {
    0 < move.0 < z.readSize || 0 < move.1 < z.writeSize
  }

  /** A hung pump stays as it is, whatever the transfers could do. */
  lemma HungStays(z: Sizes, m: Marks, got: nat, put: nat)
    requires z.Fits(m) && Hung(z, m) && Transfers(z, false, false, m, got, put)
    ensures RoundMarks(z, m, got, put) == m
  {
  }

  /** With different sizes no round hangs the pump.  With equal sizes a round does exactly
      when it was partial and body is left to read. */
  lemma HungIff(z: Sizes, m: Marks, got: nat, put: nat)
    requires z.Fits(m) && Transfers(z, false, false, m, got, put)
    requires z.Equal() ==> m.write == 0
    ensures z.Fits(RoundMarks(z, m, got, put))
    ensures z.Equal() ==> RoundMarks(z, m, got, put).write == 0
    ensures !Hung(z, m) ==>
      (Hung(z, RoundMarks(z, m, got, put)) <==> z.Equal() && Partial(z, (got, put)) && got < m.unread)
  {
  }

  /** The pump can move: sizes differ, or the buffer is empty and transfers are full as long
      as body is left to read. */
  predicate Ready(z: Sizes, full: bool, m: Marks) {
    !z.Equal() || (full && m.read == 0 && m.write == 0)
  }

  /** Fewer bytes to read, or else fewer buffered, or else a lower read mark. */
  predicate Closer(m': Marks, m: Marks) {
    || m'.unread < m.unread
    || (m'.unread == m.unread && m'.read - m'.write < m.read - m.write)
    || (m'.unread == m.unread && m'.read - m'.write == m.read - m.write && m'.read < m.read)
  }

  /** While there is more to read, each round of a pump that can move, over short but
      non-empty transfers, reads, or else appends, or else lowers the read mark: when it
      does neither, the buffer of both sizes together leaves something to move. */
  lemma RoundProgress(z: Sizes, full: bool, m: Marks, got: nat, put: nat)
    requires z.Fits(m) && Transfers(z, true, full, m, got, put) && Ready(z, full, m) && m.unread > 0
    ensures Transfers(z, false, false, m, got, put)
    ensures Closer(RoundMarks(z, m, got, put), m)
    ensures RoundMarks(z, m, got, put).unread > 0 ==> Ready(z, full, RoundMarks(z, m, got, put))
  {
  }

  // ------------------------------------------------------------ whole loops

  /** The do loop has been left before round i. */
  predicate Over(run: nat -> Marks, i: nat) {
    i > 0 && run(i).unread == 0
  }

  /** Round i, which reads moves(i).0 and appends moves(i).1; a loop that is over stays. */
  predicate LoopStep(z: Sizes, run: nat -> Marks, moves: nat -> (nat, nat), i: nat) {
    && z.Fits(run(i))
    && if Over(run, i) then run(i + 1) == run(i)
       else Transfers(z, true, false, run(i), moves(i).0, moves(i).1) &&
            run(i + 1) == RoundMarks(z, run(i), moves(i).0, moves(i).1)
  }

  /** An endless account of the do loop over steady transfers that may be short, from an
      empty buffer on. */
  ghost predicate IsLoop(z: Sizes, run: nat -> Marks, moves: nat -> (nat, nat)) {
    run(0).write == 0 && run(0).read == 0 && forall i: nat :: LoopStep(z, run, moves, i)
  }

  /** Round i is partial and leaves body to read. */
  predicate HangingRound(z: Sizes, run: nat -> Marks, moves: nat -> (nat, nat), i: nat) {
    !Over(run, i) && Partial(z, moves(i)) && run(i + 1).unread > 0
  }

  lemma {:induction false} OverStays(z: Sizes, run: nat -> Marks, moves: nat -> (nat, nat), i: nat, j: nat)
    requires IsLoop(z, run, moves) && Over(run, i) && i <= j
    ensures run(j) == run(i)
    decreases j
  {
    if i < j {
      OverStays(z, run, moves, i, j - 1);
      assert LoopStep(z, run, moves, j - 1);
    }
  }

  lemma {:induction false} HungForever(z: Sizes, run: nat -> Marks, moves: nat -> (nat, nat), i: nat, j: nat)
    requires IsLoop(z, run, moves) && Hung(z, run(i)) && i <= j
    ensures run(j) == run(i)
    decreases j
  {
    if i < j {
      HungForever(z, run, moves, i, j - 1);
      assert LoopStep(z, run, moves, j - 1);
      HungStays(z, run(j - 1), moves(j - 1).0, moves(j - 1).1);
    }
  }

  lemma {:induction false} WriteStaysZero(z: Sizes, run: nat -> Marks, moves: nat -> (nat, nat), i: nat)
    requires IsLoop(z, run, moves) && z.Equal()
    ensures run(i).write == 0
    decreases i
  {
    if i > 0 {
      WriteStaysZero(z, run, moves, i - 1);
      assert LoopStep(z, run, moves, i - 1);
    }
  }

  lemma HangingRoundHangs(z: Sizes, run: nat -> Marks, moves: nat -> (nat, nat), i: nat)
    requires IsLoop(z, run, moves) && z.Equal() && HangingRound(z, run, moves, i)
    ensures Hung(z, run(i + 1))
  {
    WriteStaysZero(z, run, moves, i);
    assert LoopStep(z, run, moves, i);
    if Hung(z, run(i)) {
      HungStays(z, run(i), moves(i).0, moves(i).1);
    } else {
      HungIff(z, run(i), moves(i).0, moves(i).1);
    }
  }

  /** Without a hanging round every round brings the loop closer to its end. */
  lemma {:induction false} Ends(z: Sizes, run: nat -> Marks, moves: nat -> (nat, nat), i: nat) returns (j: nat)
    requires IsLoop(z, run, moves) && Ready(z, z.Equal(), run(i))
    requires z.Equal() ==> forall k: nat :: !HangingRound(z, run, moves, k)
    ensures Over(run, j)
    decreases run(i).unread, run(i).read - run(i).write, run(i).read
  {
    assert LoopStep(z, run, moves, i) && LoopStep(z, run, moves, i + 1);
    if Over(run, i) {
      j := i;
    } else if Over(run, i + 1) {
      j := i + 1;
    } else {
      assert z.Equal() ==> !HangingRound(z, run, moves, i);
      RoundProgress(z, z.Equal(), run(i), moves(i).0, moves(i).1);
      j := Ends(z, run, moves, i + 1);
    }
  }

  /** The loop ends, over any steady transfers, exactly unless the sizes are equal and some
      round was partial with body left to read. */
  lemma LoopEndsIff(z: Sizes, run: nat -> Marks, moves: nat -> (nat, nat))
    requires IsLoop(z, run, moves)
    ensures (exists j: nat :: Over(run, j)) <==> !(z.Equal() && exists i: nat :: HangingRound(z, run, moves, i))
  {
    if i: nat :| z.Equal() && HangingRound(z, run, moves, i) {
      HangingRoundHangs(z, run, moves, i);
      forall j: nat
        ensures !Over(run, j)
      {
        if Over(run, j) && j <= i {
          OverStays(z, run, moves, j, i + 1);
        } else if Over(run, j) {
          HungForever(z, run, moves, i + 1, j);
        }
      }
    } else {
      var j := Ends(z, run, moves, 0);
    }
  }

  /** A request that hangs: chunks of ten bytes, a body of fifteen, and a first read that
      comes back with five. */
  lemma ShortReadHangs() returns (z: Sizes, run: nat -> Marks, moves: nat -> (nat, nat))
    ensures z == Sizes(10, 10) && run(0) == Marks(0, 0, 15) && moves(0) == (5, 0)
    ensures IsLoop(z, run, moves) && forall j: nat :: !Over(run, j)
  {
    z := Sizes(10, 10);
    run := (i: nat) => if i == 0 then Marks(0, 0, 15) else Marks(0, 5, 10);
    moves := (i: nat) => if i == 0 then (5, 0) else (0, 0);
  }

  // ------------------------------------------------------------- the pump

  lemma TakeFront(appended: seq<Byte>, held: seq<Byte>, unread: seq<Byte>, n: nat)
    requires n <= |unread|
    ensures appended + (held + unread[..n]) + unread[n..] == appended + held + unread
  {
    assert unread == unread[..n] + unread[n..];
  }

  lemma MoveFront(appended: seq<Byte>, put: seq<Byte>, left: seq<Byte>, unread: seq<Byte>)
    ensures appended + put + left + unread == appended + (put + left) + unread
  {
  }

  class Pump {
    const session: Session
    const iReadSize: nat
    const iWriteSize: nat
    const pBuf: array<Byte>
    var pReadPtr: nat     // end of the buffered bytes
    var pWritePtr: nat    // their start
    var iTotalRead: nat
    var iContentLen: int

    ghost function Size(): Sizes { Sizes(iReadSize, iWriteSize) }

    ghost function State(): Marks
      reads this, session
    {
      Marks(pWritePtr, pReadPtr, |session.unread|)
    }

    /** Response so far, buffered bytes and unread bytes are the request body. */
    ghost predicate Conserved()
      reads `pWritePtr, `pReadPtr, session, pBuf
    {
      && pWritePtr <= pReadPtr <= pBuf.Length
      && session.appended + pBuf[pWritePtr..pReadPtr] + session.unread == session.body
    }

    ghost predicate Valid()
      reads this, session, pBuf
    {
      && Size().Fits(State()) && pBuf.Length == Size().Capacity()
      && iTotalRead + |session.unread| == |session.body|
      && (iContentLen == |session.body| || iContentLen < 0)
      && Conserved()
    }

    constructor (session: Session, readSize: nat, writeSize: nat)
      requires readSize > 0 && writeSize > 0
      requires session.unread == session.body && session.appended == []
      ensures this.session == session && iReadSize == readSize && iWriteSize == writeSize
      ensures State() == Marks(0, 0, |session.body|) && Valid() && fresh(pBuf)
      ensures iContentLen < 0 ==> session.unread != []
    {
      var length := session.GetReqContentLength();
      this.session := session;
      iReadSize := readSize;
      iWriteSize := writeSize;
      pBuf := new Byte[if readSize == writeSize then readSize else readSize + writeSize](_ => 0);
      pReadPtr := 0;
      pWritePtr := 0;
      iTotalRead := 0;
      iContentLen := length;
    }

    method ReadChunk() returns (n: int)
      requires Conserved() && pBuf.Length - pReadPtr >= iReadSize
      modifies this`pReadPtr, this`iTotalRead, session`unread, session`failures, session`empties, pBuf
      ensures session.failures == old(session.failures) + if n == LS_FAIL then 1 else 0
      ensures n == LS_FAIL || MayMove(session.steady, session.full, n, Min(iReadSize, |old(session.unread)|))
      ensures n == LS_FAIL ==> State() == old(State()) && iTotalRead == old(iTotalRead)
      ensures n != LS_FAIL ==> State() == Marks(pWritePtr, old(pReadPtr) + n, |old(session.unread)| - n) &&
                               iTotalRead == old(iTotalRead) + n
      ensures Conserved()
    {
      ghost var held := pBuf[pWritePtr..pReadPtr];
      n := session.ReadReqBody(pBuf, pReadPtr, iReadSize);
      if n != LS_FAIL {
        pReadPtr := pReadPtr + n;
        iTotalRead := iTotalRead + n;
        assert pBuf[pWritePtr..pReadPtr] == held + old(session.unread)[..n];
        TakeFront(session.appended, held, old(session.unread), n);
      } else {
        assert pBuf[pWritePtr..pReadPtr] == pBuf[..][pWritePtr..pReadPtr] == held;
      }
    }

    method AppendChunk(size: nat) returns (n: int)
      requires pWritePtr + size <= pReadPtr && Conserved()
      modifies this`pWritePtr, session`appended, session`failures, session`cuts
      ensures session.failures == old(session.failures) + if n == LS_FAIL then 1 else 0
      ensures n == LS_FAIL || MayMove(session.steady, session.full && session.unread != [], n, size)
      ensures pWritePtr == old(pWritePtr) + if n == LS_FAIL then 0 else n
      ensures Conserved()
    {
      n := session.AppendRespBody(pBuf, pWritePtr, size);
      if n != LS_FAIL {
        assert pBuf[pWritePtr..pReadPtr] == pBuf[pWritePtr..pWritePtr + n] + pBuf[pWritePtr + n..pReadPtr];
        MoveFront(old(session.appended), pBuf[pWritePtr..pWritePtr + n], pBuf[pWritePtr + n..pReadPtr], session.unread);
        pWritePtr := pWritePtr + n;
      }
    }

    /** memmove of the buffered bytes to the front of the buffer. */
    method Compact()
      requires Conserved()
      modifies this`pReadPtr, this`pWritePtr, pBuf
      ensures pWritePtr == 0 && pReadPtr == old(pReadPtr - pWritePtr)
      ensures Conserved()
    {
      forall i | 0 <= i < pReadPtr - pWritePtr {
        pBuf[i] := pBuf[pWritePtr + i];
      }
      assert pBuf[..pReadPtr - pWritePtr] == old(pBuf[pWritePtr..pReadPtr]);
      pReadPtr := pReadPtr - pWritePtr;
      pWritePtr := 0;
    }

    /** The read and the append of one round. */
    method ReadAndAppend() returns (ok: bool, ghost got: nat, ghost put: nat)
      requires Valid()
      modifies this`pReadPtr, this`pWritePtr, this`iTotalRead, session, pBuf
      ensures ok <==> session.failures == old(session.failures)
      ensures Conserved() && iTotalRead + |session.unread| == |session.body|
      ensures ok ==> Transfers(Size(), session.steady, session.full, old(State()), got, put)
      ensures ok ==> State() == Marks(old(pWritePtr) + put, old(pReadPtr) + got, |old(session.unread)| - got)
    {
      ok, got, put := true, 0, 0;
      if pBuf.Length - pReadPtr >= iReadSize {
        var iLen := ReadChunk();
        if iLen == LS_FAIL {
          ok := false;
          return;
        }
        got := iLen;
      }
      if pReadPtr - pWritePtr >= iWriteSize {
        var iLen := AppendChunk(iWriteSize);
        if iLen == LS_FAIL {
          ok := false;
          return;
        }
        put := iLen;
      }
    }

    /** One round of the do loop, for any transfers at all, failing ones included: every
        read fits, and nothing is lost, duplicated or reordered. */
    method Round() returns (ok: bool, ghost got: nat, ghost put: nat)
      requires Valid()
      modifies this`pReadPtr, this`pWritePtr, this`iTotalRead, this`iContentLen, session, pBuf
      ensures ok <==> session.failures == old(session.failures)
      ensures Valid() && (ok && iContentLen < 0 ==> session.unread != [])
      ensures ok ==> Transfers(Size(), session.steady, session.full, old(State()), got, put)
      ensures ok ==> State() == Settle(Size(), Marks(old(pWritePtr) + put, old(pReadPtr) + got, |old(session.unread)| - got))
    {
      ok, got, put := ReadAndAppend();
      if !ok {
        return;
      }
      if pReadPtr - pWritePtr < iWriteSize && pBuf.Length - pReadPtr < iReadSize {
        Compact();
      }
      if iContentLen < 0 {
        iContentLen := session.GetReqContentLength();
      }
    }

    /** The loop after the body has been read. */
    method Drain() returns (ok: bool)
      requires Valid() && session.unread == [] && session.steady
      modifies this`pWritePtr, session`appended, session`failures, session`cuts
      ensures ok <==> session.failures == old(session.failures)
      ensures Valid() && session.unread == [] && (ok ==> pWritePtr == pReadPtr)
    {
      ok := true;
      while pWritePtr < pReadPtr
        invariant Valid() && session.unread == [] && session.failures == old(session.failures)
        decreases pReadPtr - pWritePtr
      {
        var iLen := Min(pReadPtr - pWritePtr, iWriteSize);
        iLen := AppendChunk(iLen);
        if iLen == LS_FAIL {
          ok := false;
          return;
        }
      }
    }

    /** A round that succeeds on a pump that can move brings it closer to the end. */
    method LiveRound() returns (ok: bool)
      requires Valid() && session.steady && Ready(Size(), session.full, State())
      modifies this`pReadPtr, this`pWritePtr, this`iTotalRead, this`iContentLen, session, pBuf
      ensures ok <==> session.failures == old(session.failures)
      ensures Valid() && (ok && iContentLen < 0 ==> session.unread != [])
      ensures ok && old(session.unread) != [] ==> Closer(State(), old(State()))
      ensures ok && session.unread != [] ==> Ready(Size(), session.full, State())
    {
      ghost var before := State();
      ghost var got, put;
      ok, got, put := Round();
      if ok && before.unread > 0 {
        RoundProgress(Size(), session.full, before, got, put);
      }
    }

    /** The do loop. */
    method ReadLoop() returns (ok: bool)
      requires Valid() && session.steady && Ready(Size(), session.full, State())
      modifies this`pReadPtr, this`pWritePtr, this`iTotalRead, this`iContentLen, session, pBuf
      ensures ok <==> session.failures == old(session.failures)
      ensures Valid() && (ok ==> session.unread == [])
    {
      ok := LiveRound();
      while ok && (iContentLen < 0 || iTotalRead < iContentLen)
        invariant Valid() && (ok <==> session.failures == old(session.failures))
        invariant ok && iContentLen < 0 ==> session.unread != []
        invariant ok && session.unread != [] ==> Ready(Size(), session.full, State())
        decreases |session.unread|, pReadPtr - pWritePtr, pReadPtr
      {
        ok := LiveRound();
        if !ok {
          break;
        }
      }
    }

    /** The whole request.  It ends: for different sizes over any short but non-empty
        transfers, for equal sizes over full ones.  Then the response is the request, or
        a transfer failed and it is a prefix of it. */
    method ProcessReq() returns (ok: bool)
      requires Valid() && session.steady && Ready(Size(), session.full, State())
      modifies this`pReadPtr, this`pWritePtr, this`iTotalRead, this`iContentLen, session, pBuf
      ensures ok <==> session.failures == old(session.failures)
      ensures session.appended <= session.body
      ensures ok ==> session.appended == session.body
    {
      ok := ReadLoop();
      if ok {
        ok := Drain();
        if ok {
          assert pBuf[pWritePtr..pReadPtr] == [];
        }
      }
      assert session.appended + pBuf[pWritePtr..pReadPtr] + session.unread
          == session.appended + (pBuf[pWritePtr..pReadPtr] + session.unread);
    }
  }
}
