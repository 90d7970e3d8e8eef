/** The block loops of mtpostmt2.c: the receiving thread compares the request body with
    numbered blocks, the sending thread produces numbered blocks. */
module BlockTransfer {
  import opened Bytes
  import opened Decimals
  import opened ServerApi

  const UPPER_A: Byte := 65   // 'A'
  const LOWER_A: Byte := 97   // 'a'

  // --------------------------------------------------------------- blocks

  function Zeros(n: nat): (s: seq<Byte>)
    ensures |s| == n && forall i :: 0 <= i < n ==> s[i] == ZERO
  {
    seq(n, i => ZERO)
  }

  /** %08d: at least eight digits, of which a block takes the first eight. */
  function Label(block: nat): (s: seq<Byte>)
    ensures |s| == 8
  {
    var d := Decimal(block);
    if |d| < 8 then Zeros(8 - |d|) + d else d[..8]
  }

  /** The label of a block below ten to the eight is its number, filled up with zeros. */
  lemma LabelIsNumber(block: nat)
    requires block < 1_0000_0000
    ensures AllDigits(Label(block)) && Value(0, Label(block)) == block
  {
    var d := Decimal(block);
    assert Pow10(8) == 1_0000_0000;
    DecimalLength(block, 8);
    ValueOfDecimal(block);
    if |d| < 8 {
      ValueOfZeros(Zeros(8 - |d|), d);
    } else {
      assert Label(block) == d;
    }
  }

  /** The label of a larger one is the first eight digits of its number. */
  lemma LongLabel(block: nat)
    requires block >= 1_0000_0000
    ensures |Decimal(block)| > 8 && Label(block) == Decimal(block)[..8]
  {
    assert Pow10(8) == 1_0000_0000;
    DecimalLength(block, 8);
  }

  lemma FirstLabel()
    ensures Label(1) == [48, 48, 48, 48, 48, 48, 48, 49]
  {
  }

  lemma FillerIsLetter(i: nat)
    ensures Filler(UPPER_A, i) == "ABCDEFGHIJKLMNOPQRSTUVWXYZ"[i % 26] as int
    ensures Filler(LOWER_A, i) == "abcdefghijklmnopqrstuvwxyz"[i % 26] as int
  {
  }

  /** Filler from the given letter on, repeating after 26. */
  function Filler(first: Byte, i: nat): Byte
    requires first <= 200
  {
    first + i % 26
  }

  function BlockByte(first: Byte, block: nat, i: nat): Byte
    requires first <= 200
  {
    if i < 8 then Label(block)[i] else Filler(first, i)
  }

  /** A block of n bytes: its label as far as it goes, then filler. */
  function Block(first: Byte, block: nat, n: nat): (s: seq<Byte>)
    requires first <= 200
    ensures |s| == n
  {
    seq(n, i requires 0 <= i < n => BlockByte(first, block, i))
  }

  /** The blocks from number block on that fill length bytes, all of size bytes but the
      last. */
  function ReceiveBlocks(length: nat, size: nat, block: nat): (s: seq<Byte>)
    requires size > 0
    ensures |s| == length
    decreases length
  {
    if length == 0 then []
    else
      var n := Min(size, length);
      Block(UPPER_A, block, n) + ReceiveBlocks(length - n, size, block + 1)
  }

  /** The next length bytes are the blocks from number block on. */
  predicate Expected(unread: seq<Byte>, length: nat, size: nat, block: nat)
    requires size > 0
  {
    length <= |unread| && unread[..length] == ReceiveBlocks(length, size, block)
  }

  /** Comparing block by block is comparing the whole. */
  lemma PeelBlock(unread: seq<Byte>, length: nat, size: nat, block: nat)
    requires size > 0 && length > 0
    ensures var n := Min(size, length);
      Expected(unread, length, size, block) <==>
      n <= |unread| && unread[..n] == Block(UPPER_A, block, n) && Expected(unread[n..], length - n, size, block + 1)
  {
    var n := Min(size, length);
    if length <= |unread| {
      assert unread[..length] == unread[..n] + unread[n..][..length - n];
      var b, tail := Block(UPPER_A, block, n), ReceiveBlocks(length - n, size, block + 1);
      assert (b + tail)[..n] == b && (b + tail)[n..] == tail;
      assert unread[..length][..n] == unread[..n] && unread[..length][n..] == unread[n..][..length - n];
    }
  }

  /** The same, told block by block. */
  predicate Follows(unread: seq<Byte>, length: nat, size: nat, block: nat)
    requires size > 0
    decreases length
  {
    length == 0 ||
    var n := Min(size, length);
    n <= |unread| && unread[..n] == Block(UPPER_A, block, n) && Follows(unread[n..], length - n, size, block + 1)
  }

  lemma {:induction false} FollowsIff(unread: seq<Byte>, length: nat, size: nat, block: nat)
    requires size > 0
    ensures Follows(unread, length, size, block) <==> Expected(unread, length, size, block)
    decreases length
  {
    if length > 0 {
      var n := Min(size, length);
      PeelBlock(unread, length, size, block);
      if n <= |unread| {
        FollowsIff(unread[n..], length - n, size, block + 1);
      }
    }
  }

  /** A sent block shorter than its label is all zeros. */
  function SendBlock(block: nat, n: nat): (s: seq<Byte>)
    ensures |s| == n
  {
    if n >= 8 then Block(LOWER_A, block, n) else Zeros(n)
  }

  function SendBlocks(length: nat, size: nat, block: nat): (s: seq<Byte>)
    requires size > 0
    ensures |s| == length
    decreases length
  {
    if length == 0 then []
    else
      var n := Min(size, length);
      SendBlock(block, n) + SendBlocks(length - n, size, block + 1)
  }

  /** text is made of the blocks of a content of length bytes from number block on, as far
      as left; the next one is number next. */
  predicate Sent(text: seq<Byte>, left: nat, length: nat, size: nat, block: nat, next: nat)
    requires size > 0
    decreases |text|
  {
    if text == [] then left == length && next == block
    else
      var n := Min(size, length);
      0 < n <= |text| && text[..n] == SendBlock(block, n) && Sent(text[n..], left, length - n, size, block + 1, next)
  }

  lemma {:induction false} SendNext(text: seq<Byte>, left: nat, length: nat, size: nat, block: nat, next: nat)
    requires size > 0 && left > 0 && Sent(text, left, length, size, block, next)
    ensures Sent(text + SendBlock(next, Min(size, left)), left - Min(size, left), length, size, block, next + 1)
    decreases |text|
  {
    var more := SendBlock(next, Min(size, left));
    var longer := text + more;
    if text == [] {
      assert longer == more && longer[..|more|] == more && longer[|more|..] == [];
    } else {
      var n := Min(size, length);
      SendNext(text[n..], left, length - n, size, block + 1, next);
      assert longer[..n] == text[..n] && longer[n..] == text[n..] + more;
    }
  }

  lemma Associate(a: seq<Byte>, b: seq<Byte>, c: seq<Byte>)
    ensures a + (b + c) == a + b + c
  {
  }

  lemma JoinPart(text: seq<Byte>, b: seq<Byte>, tail: seq<Byte>, k: nat)
    requires |b| <= |text| && text[..|b|] == b && k <= |tail| && text[|b|..] == tail[..k]
    ensures text == (b + tail)[..|b| + k]
  {
    assert text == text[..|b|] + text[|b|..];
  }

  /** Such a text is the first part of the whole. */
  lemma {:induction false} SentIsPart(text: seq<Byte>, left: nat, length: nat, size: nat, block: nat, next: nat)
    requires size > 0 && Sent(text, left, length, size, block, next)
    ensures left <= length && text == SendBlocks(length, size, block)[..length - left]
    decreases |text|
  {
    if text != [] {
      var n := Min(size, length);
      var b, tail, k := SendBlock(block, n), SendBlocks(length - n, size, block + 1), length - n - left;
      assert text[n..] == tail[..k] by {
        SentIsPart(text[n..], left, length - n, size, block + 1, next);
      }
      JoinPart(text, b, tail, k);
      assert SendBlocks(length, size, block) == b + tail;
    }
  }

  // ------------------------------------------------------------ block sizes

  /** The sizes of the blocks of a content of length bytes. */
  function BlockSizes(length: nat, size: nat): (s: seq<nat>)
    requires size > 0
    decreases length
  {
    if length == 0 then [] else [Min(size, length)] + BlockSizes(length - Min(size, length), size)
  }

  /** Blocks of these sizes, each as large as can be, leave left of length bytes. */
  predicate Counted(sizes: seq<nat>, left: nat, length: nat, size: nat)
    decreases |sizes|
  {
    if sizes == [] then left == length
    else 0 < sizes[0] == Min(size, length) && Counted(sizes[1..], left, length - sizes[0], size)
  }

  lemma {:induction false} NextSize(sizes: seq<nat>, left: nat, length: nat, size: nat)
    requires size > 0 && left > 0 && Counted(sizes, left, length, size)
    ensures Counted(sizes + [Min(size, left)], left - Min(size, left), length, size)
    decreases |sizes|
  {
    var longer := sizes + [Min(size, left)];
    if sizes == [] {
      assert longer[1..] == [];
    } else {
      NextSize(sizes[1..], left, length - sizes[0], size);
      assert longer[1..] == sizes[1..] + [Min(size, left)];
    }
  }

  /** Such sizes are the first of the block sizes, and all of them when nothing is left. */
  lemma {:induction false} CountedIsPrefix(sizes: seq<nat>, left: nat, length: nat, size: nat)
    requires size > 0 && Counted(sizes, left, length, size)
    ensures sizes + BlockSizes(left, size) == BlockSizes(length, size)
    decreases |sizes|
  {
    if sizes != [] {
      CountedIsPrefix(sizes[1..], left, length - sizes[0], size);
      assert sizes + BlockSizes(left, size) == [sizes[0]] + (sizes[1..] + BlockSizes(left, size));
    }
  }

  function Sum(s: seq<nat>): nat {
    if s == [] then 0 else s[0] + Sum(s[1..])
  }

  /** The block sizes add up to the content, and only the last may be short. */
  lemma {:induction false} OnlyLastIsShort(length: nat, size: nat)
    requires size > 0
    ensures Sum(BlockSizes(length, size)) == length
    ensures forall i :: 0 <= i < |BlockSizes(length, size)| - 1 ==> BlockSizes(length, size)[i] == size
    ensures forall n :: n in BlockSizes(length, size) ==> 0 < n <= size
    decreases length
  {
    if length > 0 {
      OnlyLastIsShort(length - Min(size, length), size);
    }
  }

  // ------------------------------------------------------------ the threads

  class Transfer {
    const session: Session
    const m_RecvSize: nat
    const m_SendSize: nat
    const m_RecvContentLength: nat
    const m_pmtRecvBuffer: array<Byte>
    const m_pmtSendBuffer: array<Byte>
    var m_RecvCount: nat
    var m_SendCount: nat

    constructor (session: Session, recvSize: nat, sendSize: nat, contentLength: nat)
      ensures this.session == session && m_RecvSize == recvSize && m_SendSize == sendSize
      ensures m_RecvContentLength == contentLength && m_RecvCount == 0 && m_SendCount == 0
      ensures m_pmtRecvBuffer.Length == recvSize && m_pmtSendBuffer.Length == sendSize
      ensures fresh(m_pmtRecvBuffer) && fresh(m_pmtSendBuffer)
    {
      this.session := session;
      m_RecvSize, m_SendSize, m_RecvContentLength := recvSize, sendSize, contentLength;
      m_pmtRecvBuffer := new Byte[recvSize](_ => 0);
      m_pmtSendBuffer := new Byte[sendSize](_ => 0);
      m_RecvCount, m_SendCount := 0, 0;
    }

    /** The inner loop of recvThread: fills one block, however the reads split it.  A read
        of nothing ends it without an error. */
    method FillBlock(iRecvSize: nat) returns (bDone: bool, bOk: bool)
      requires iRecvSize <= m_pmtRecvBuffer.Length
      modifies session`unread, session`failures, session`empties, m_pmtRecvBuffer
      ensures session.failures == old(session.failures) + if bOk then 0 else 1
      ensures session.empties == old(session.empties) + if bOk && !bDone then 1 else 0
      ensures bDone ==> bOk && iRecvSize <= |old(session.unread)| &&
                        session.unread == old(session.unread)[iRecvSize..] &&
                        m_pmtRecvBuffer[..iRecvSize] == old(session.unread)[..iRecvSize]
      ensures !bDone && bOk && session.steady ==> |old(session.unread)| < iRecvSize
    {
      var iInBlock := 0;
      bOk := true;
      ghost var all := session.unread;
      while iInBlock < iRecvSize
        invariant 0 <= iInBlock <= iRecvSize && iInBlock <= |all|
        invariant session.failures == old(session.failures) && session.empties == old(session.empties)
        invariant session.unread == all[iInBlock..] && m_pmtRecvBuffer[..iInBlock] == all[..iInBlock]
      {
        ghost var filled := m_pmtRecvBuffer[..];
        var iResult := session.ReadReqBody(m_pmtRecvBuffer, iInBlock, iRecvSize - iInBlock);
        if iResult > 0 {
          assert m_pmtRecvBuffer[..iInBlock + iResult] == filled[..iInBlock] + all[iInBlock..][..iResult];
          assert all[..iInBlock + iResult] == all[..iInBlock] + all[iInBlock..][..iResult];
          iInBlock := iInBlock + iResult;
        } else if iResult == 0 {
          bDone := false;
          return;
        } else {
          bDone, bOk := false, false;
          return;
        }
      }
      bDone := true;
    }

    /** Writes the label over the front of the compare buffer and compares n bytes. */
    method MatchesBlock(pchCompare: array<Byte>, iBlock: nat, n: nat) returns (same: bool)
      requires n <= m_pmtRecvBuffer.Length == pchCompare.Length && pchCompare != m_pmtRecvBuffer
      requires forall i :: 8 <= i < pchCompare.Length ==> pchCompare[i] == Filler(UPPER_A, i)
      modifies pchCompare
      ensures forall i :: 8 <= i < pchCompare.Length ==> pchCompare[i] == Filler(UPPER_A, i)
      ensures same <==> m_pmtRecvBuffer[..n] == Block(UPPER_A, iBlock, n)
    {
      var chBlock := Label(iBlock);
      forall i | 0 <= i < Min(8, n) {
        pchCompare[i] := chBlock[i];
      }
      assert pchCompare[..n] == Block(UPPER_A, iBlock, n);
      same := pchCompare[..n] == m_pmtRecvBuffer[..n];
    }

    /** The bytes still to be received are the blocks still expected. */
    ghost predicate RestMatches(iBlock: nat)
      requires m_RecvSize > 0 && m_RecvCount <= m_RecvContentLength
      reads this, session
    {
      Follows(session.unread, m_RecvContentLength - m_RecvCount, m_RecvSize, iBlock + 1)
    }

    /** One round of the outer loop.  It goes on past a block that matches, and the whole
        matches exactly if this block and the rest do. */
    method ReceiveBlock(pchCompare: array<Byte>, iBlock: nat) returns (bDone: bool, bOk: bool, ghost iRecvSize: nat)
      requires 0 < m_RecvSize == m_pmtRecvBuffer.Length == pchCompare.Length && pchCompare != m_pmtRecvBuffer
      requires m_RecvCount < m_RecvContentLength
      requires forall i :: 8 <= i < pchCompare.Length ==> pchCompare[i] == Filler(UPPER_A, i)
      modifies this`m_RecvCount, session`unread, session`failures, session`empties, m_pmtRecvBuffer, pchCompare
      ensures forall i :: 8 <= i < pchCompare.Length ==> pchCompare[i] == Filler(UPPER_A, i)
      ensures iRecvSize == Min(m_RecvSize, m_RecvContentLength - old(m_RecvCount))
      ensures m_RecvCount == old(m_RecvCount) + if bDone then iRecvSize else 0
      ensures session.failures >= old(session.failures) && session.empties >= old(session.empties)
      ensures bDone ==> bOk && Smooth(old(session.failures), old(session.empties))
      ensures !bDone ==> (bOk <==> session.failures == old(session.failures) && session.empties > old(session.empties))
      ensures bDone ==> (RestMatches(iBlock + 1) <==> old(RestMatches(iBlock)))
      ensures bDone ==> |session.unread| + m_RecvCount == |old(session.unread)| + old(m_RecvCount)
      ensures !bDone && session.failures == old(session.failures) && (session.steady || session.empties == old(session.empties)) ==>
        !old(RestMatches(iBlock))
    {
      var size := if m_RecvCount + m_RecvSize <= m_RecvContentLength then m_RecvSize
                  else m_RecvContentLength - m_RecvCount;
      iRecvSize := size;
      bDone, bOk := FillBlock(size);
      if !bDone {
        return;
      }
      var same := MatchesBlock(pchCompare, iBlock + 1, size);
      if same {
        m_RecvCount := m_RecvCount + size;
      } else {
        bDone, bOk := false, false;
      }
    }

    /** No read failed or came back empty since the counts were these. */
    ghost predicate Smooth(failures: nat, empties: nat)
      reads session
    {
      session.failures == failures && session.empties == empties
    }

    /** recvThread.  It counts the whole content as received only if the body is the
        concatenation of the expected blocks, however the reads split it; and if no read
        fails, or comes back empty before the end of the body, it does so whenever it is.
        It reports success if it got there, or if a read came back empty, which it does not
        take for an error.  sizes are the sizes of the blocks it accepted. */
    method RecvThread() returns (bOk: bool, ghost sizes: seq<nat>)
      requires m_RecvSize > 0 && m_RecvCount == 0
      requires m_pmtRecvBuffer.Length == m_RecvSize
      modifies this`m_RecvCount, session`unread, session`failures, session`empties, m_pmtRecvBuffer
      ensures m_RecvCount <= m_RecvContentLength
      ensures sizes + BlockSizes(m_RecvContentLength - m_RecvCount, m_RecvSize) == BlockSizes(m_RecvContentLength, m_RecvSize)
      ensures m_RecvCount == m_RecvContentLength ==>
        Expected(old(session.unread), m_RecvContentLength, m_RecvSize, 1)
      ensures session.failures == old(session.failures) && (session.steady || session.empties == old(session.empties)) ==>
        (m_RecvCount == m_RecvContentLength <==> Expected(old(session.unread), m_RecvContentLength, m_RecvSize, 1))
      ensures bOk <==> session.failures == old(session.failures) &&
                       (m_RecvCount == m_RecvContentLength || session.empties > old(session.empties))
    {
      bOk, sizes := true, [];
      var iBlock := 0;
      var pchCompare := new Byte[m_RecvSize](i requires i >= 0 => Filler(UPPER_A, i));
      ghost var U := session.unread;
      FollowsIff(U, m_RecvContentLength, m_RecvSize, 1);
      while m_RecvCount < m_RecvContentLength
        invariant m_RecvCount <= m_RecvContentLength && |session.unread| + m_RecvCount == |U|
        invariant forall i :: 8 <= i < pchCompare.Length ==> pchCompare[i] == Filler(UPPER_A, i)
        invariant bOk && Smooth(old(session.failures), old(session.empties))
        invariant RestMatches(iBlock) <==> old(RestMatches(0))
        invariant Counted(sizes, m_RecvContentLength - m_RecvCount, m_RecvContentLength, m_RecvSize)
        decreases m_RecvContentLength - m_RecvCount
      {
        var bDone;
        ghost var iRecvSize;
        NextSize(sizes, m_RecvContentLength - m_RecvCount, m_RecvContentLength, m_RecvSize);
        bDone, bOk, iRecvSize := ReceiveBlock(pchCompare, iBlock);
        if !bDone {
          break;
        }
        sizes := sizes + [iRecvSize];
        iBlock := iBlock + 1;
      }
      CountedIsPrefix(sizes, m_RecvContentLength - m_RecvCount, m_RecvContentLength, m_RecvSize);
    }

    /** One round of the send loop: labels a block, appends it, and counts all of it
        whatever part of it the server took. */
    method SendOne(iBlock: nat) returns (bOk: bool, ghost iSendSize: nat)
      requires m_SendCount < m_RecvContentLength && 0 < m_SendSize == m_pmtSendBuffer.Length
      requires forall i :: 8 <= i < m_SendSize ==> m_pmtSendBuffer[i] == Filler(LOWER_A, i)
      modifies this`m_SendCount, session`appended, session`failures, session`cuts, m_pmtSendBuffer
      ensures forall i :: 8 <= i < m_SendSize ==> m_pmtSendBuffer[i] == Filler(LOWER_A, i)
      ensures iSendSize == Min(m_SendSize, m_RecvContentLength - old(m_SendCount))
      ensures m_SendCount == old(m_SendCount) + if bOk then iSendSize else 0
      ensures session.failures == old(session.failures) + if bOk then 0 else 1
      ensures session.cuts >= old(session.cuts) && (session.full && session.unread != [] ==> session.cuts == old(session.cuts))
      ensures session.appended <= old(session.appended) + SendBlock(iBlock, iSendSize)
      ensures !bOk ==> session.appended == old(session.appended) && session.cuts == old(session.cuts)
      ensures bOk && session.cuts == old(session.cuts) ==>
        session.appended == old(session.appended) + SendBlock(iBlock, iSendSize)
      ensures session.cuts > old(session.cuts) ==> |session.appended| < |old(session.appended)| + iSendSize
    {
      var size := if m_SendCount + m_SendSize <= m_RecvContentLength then m_SendSize
                  else m_RecvContentLength - m_SendCount;
      iSendSize := size;
      FillLabel(iBlock, size);
      var iResult := session.AppendRespBody(m_pmtSendBuffer, 0, size);
      if iResult == LS_FAIL {
        bOk := false;
        return;
      }
      bOk := true;
      assert m_pmtSendBuffer[0..iResult] == SendBlock(iBlock, size)[..iResult];
      m_SendCount := m_SendCount + size;
    }

    /** The loop of sendThread, which has sent iBlock blocks when it ends. */
    method SendLoop() returns (bOk: bool, iBlock: nat, ghost sizes: seq<nat>, ghost text: seq<Byte>)
      requires m_SendSize > 0 && m_SendCount == 0
      requires m_pmtSendBuffer.Length == m_SendSize
      requires forall i :: 8 <= i < m_SendSize ==> m_pmtSendBuffer[i] == Filler(LOWER_A, i)
      modifies this`m_SendCount, session`appended, session`failures, session`cuts, m_pmtSendBuffer
      ensures bOk <==> session.failures == old(session.failures)
      ensures m_SendCount <= m_RecvContentLength && (bOk <==> m_SendCount == m_RecvContentLength)
      ensures Counted(sizes, m_RecvContentLength - m_SendCount, m_RecvContentLength, m_SendSize)
      ensures session.cuts >= old(session.cuts)
      ensures session.cuts == old(session.cuts) ==>
        && session.appended == old(session.appended) + text
        && Sent(text, m_RecvContentLength - m_SendCount, m_RecvContentLength, m_SendSize, 1, iBlock + 1)
      ensures session.cuts > old(session.cuts) ==> |session.appended| < |old(session.appended)| + m_SendCount
      ensures session.full && session.unread != [] ==> session.cuts == old(session.cuts)
    {
      bOk, iBlock, sizes, text := true, 0, [], [];
      while m_SendCount < m_RecvContentLength
        invariant m_SendCount <= m_RecvContentLength && bOk && session.failures == old(session.failures)
        invariant forall i :: 8 <= i < m_SendSize ==> m_pmtSendBuffer[i] == Filler(LOWER_A, i)
        invariant session.cuts >= old(session.cuts)
        invariant session.cuts == old(session.cuts) ==> session.appended == old(session.appended) + text
        invariant Sent(text, m_RecvContentLength - m_SendCount, m_RecvContentLength, m_SendSize, 1, iBlock + 1)
        invariant |session.appended| <= |old(session.appended)| + m_SendCount
        invariant session.cuts > old(session.cuts) ==> |session.appended| < |old(session.appended)| + m_SendCount
        invariant session.full && session.unread != [] ==> session.cuts == old(session.cuts)
        invariant Counted(sizes, m_RecvContentLength - m_SendCount, m_RecvContentLength, m_SendSize)
        decreases m_RecvContentLength - m_SendCount
      {
        ghost var left := m_RecvContentLength - m_SendCount;
        ghost var iSendSize;
        SendNext(text, left, m_RecvContentLength, m_SendSize, 1, iBlock + 1);
        NextSize(sizes, left, m_RecvContentLength, m_SendSize);
        bOk, iSendSize := SendOne(iBlock + 1);
        if !bOk {
          break;
        }
        Associate(old(session.appended), text, SendBlock(iBlock + 1, iSendSize));
        sizes, text := sizes + [iSendSize], text + SendBlock(iBlock + 1, iSendSize);
        iBlock := iBlock + 1;
      }
    }

    /** sendThread.  It succeeds, and counts the whole content as sent, exactly when no
        append fails.  What it really sent is the counted part of the concatenation of the
        numbered blocks when no append was cut short, and shorter than that otherwise.
        sizes are the sizes of the blocks it counted. */
    method SendThread() returns (bOk: bool, ghost sizes: seq<nat>)
      requires m_SendSize > 0 && m_SendCount == 0
      requires m_pmtSendBuffer.Length == m_SendSize
      modifies this`m_SendCount, session`appended, session`failures, session`cuts, m_pmtSendBuffer
      ensures bOk <==> session.failures == old(session.failures)
      ensures m_SendCount <= m_RecvContentLength && (bOk <==> m_SendCount == m_RecvContentLength)
      ensures sizes + BlockSizes(m_RecvContentLength - m_SendCount, m_SendSize) == BlockSizes(m_RecvContentLength, m_SendSize)
      ensures session.cuts >= old(session.cuts)
      ensures session.cuts == old(session.cuts) ==>
        session.appended == old(session.appended) + SendBlocks(m_RecvContentLength, m_SendSize, 1)[..m_SendCount]
      ensures session.cuts > old(session.cuts) ==> |session.appended| < |old(session.appended)| + m_SendCount
      ensures session.full && session.unread != [] ==> session.cuts == old(session.cuts)
    {
      forall i | 0 <= i < m_SendSize {
        m_pmtSendBuffer[i] := Filler(LOWER_A, i);
      }
      var iBlock;
      ghost var text;
      bOk, iBlock, sizes, text := SendLoop();
      CountedIsPrefix(sizes, m_RecvContentLength - m_SendCount, m_RecvContentLength, m_SendSize);
      if session.cuts == old(session.cuts) {
        SentIsPart(text, m_RecvContentLength - m_SendCount, m_RecvContentLength, m_SendSize, 1, iBlock + 1);
      }
    }

    /** Labels the block in the send buffer, or zeroes it if it is too short for one. */
    method FillLabel(iBlock: nat, n: nat)
      requires n <= m_pmtSendBuffer.Length
      requires forall i :: 8 <= i < m_pmtSendBuffer.Length ==> m_pmtSendBuffer[i] == Filler(LOWER_A, i)
      modifies m_pmtSendBuffer
      ensures m_pmtSendBuffer[..n] == SendBlock(iBlock, n)
      ensures forall i :: 8 <= i < m_pmtSendBuffer.Length ==> m_pmtSendBuffer[i] == Filler(LOWER_A, i)
    {
      if n >= 8 {
        var chBlock := Label(iBlock);
        forall i | 0 <= i < 8 {
          m_pmtSendBuffer[i] := chBlock[i];
        }
      } else {
        forall i | 0 <= i < n {
          m_pmtSendBuffer[i] := ZERO;
        }
      }
    }
  }
}
