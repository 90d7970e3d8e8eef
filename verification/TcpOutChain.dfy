/** The two output filters updatetcpout1.c (encoder) and updatetcpout2.c (decoder),
    stacked in hook order above a socket that writes as little as it likes. */
module TcpOutChain {

  import opened Bytes

  const MAX_BLOCK_BUFSIZE := 8192
  const EQUALS: Byte := 61

  // --------------------------------------------------------------- coding

  /** The digits of %02X. */
  function HexDigit(d: int): (c: Byte)
    requires 0 <= d < 16
  {
    if d < 10 then 48 + d else 65 + (d - 10)
  }

  /** The value of a hexadecimal digit of either case, or -1. */
  function HexValue(c: Byte): (d: int)
    ensures -1 <= d < 16
  {
    if 48 <= c <= 57 then c - 48
    else if 65 <= c <= 70 then c - 55
    else if 97 <= c <= 102 then c - 87
    else -1
  }

  predicate IsSpace(c: Byte) { c == 32 || 9 <= c <= 13 }

  /** strtol in base 16 of the two characters a, b and a terminator, cut to a char. */
  function HexPair(a: Byte, b: Byte): Byte {
    if HexValue(a) >= 0 then
      (if HexValue(b) >= 0 then HexValue(a) * 16 + HexValue(b) else HexValue(a))
    else if HexValue(b) < 0 then 0
    else if IsSpace(a) || a == 43 then HexValue(b)
    else if a == 45 then (256 - HexValue(b)) % 256
    else 0
  }

  function EncodeByte(b: Byte): seq<Byte> {
    [EQUALS, HexDigit(b / 16), HexDigit(b % 16)]
  }

  function Encode(s: seq<Byte>): (e: seq<Byte>)
    ensures |e| == 3 * |s|
  {
    if s == [] then [] else EncodeByte(s[0]) + Encode(s[1..])
  }

  /** Every third character is the marker, so the decoder meets no invalid entry. */
  predicate WellMarked(s: seq<Byte>) {
    |s| % 3 == 0 && forall j :: 0 <= j < |s| && j % 3 == 0 ==> s[j] == EQUALS
  }

  function Decode(s: seq<Byte>): (d: seq<Byte>)
    requires |s| % 3 == 0
    ensures |d| == |s| / 3
  {
    if s == [] then [] else [HexPair(s[1], s[2])] + Decode(s[3..])
  }

  lemma HexRoundTrip(b: Byte)
    ensures HexPair(HexDigit(b / 16), HexDigit(b % 16)) == b
  {
    assert HexValue(HexDigit(b / 16)) == b / 16;
    assert HexValue(HexDigit(b % 16)) == b % 16;
  }

  lemma {:induction false} EncodeConcat(s: seq<Byte>, t: seq<Byte>)
    ensures Encode(s + t) == Encode(s) + Encode(t)
  {
    if s == [] {
      assert s + t == t;
    } else {
      assert (s + t)[1..] == s[1..] + t;
      EncodeConcat(s[1..], t);
    }
  }

  lemma {:induction false} DecodeConcat(s: seq<Byte>, t: seq<Byte>)
    requires |s| % 3 == 0 && |t| % 3 == 0
    ensures |s + t| % 3 == 0 && Decode(s + t) == Decode(s) + Decode(t)
    decreases |s|
  {
    if s == [] {
      assert s + t == t;
    } else {
      assert (s + t)[3..] == s[3..] + t;
      DecodeConcat(s[3..], t);
    }
  }

  /** What the encoder prints, the decoder reads back. */
  lemma {:induction false} DecodeEncode(s: seq<Byte>)
    ensures Decode(Encode(s)) == s && WellMarked(Encode(s))
  {
    if s != [] {
      var rest := Encode(s[1..]);
      DecodeEncode(s[1..]);
      HexRoundTrip(s[0]);
      assert Encode(s)[3..] == rest;
      forall j | 0 <= j < |Encode(s)| && j % 3 == 0
        ensures Encode(s)[j] == EQUALS
      {
        if j >= 3 {
          assert Encode(s)[j] == rest[j - 3] && (j - 3) % 3 == 0;
        }
      }
    }
  }

  lemma MarkedConcat(s: seq<Byte>, t: seq<Byte>)
    requires WellMarked(s) && WellMarked(t)
    ensures WellMarked(s + t)
  {
    forall j | 0 <= j < |s + t| && j % 3 == 0
      ensures (s + t)[j] == EQUALS
    {
      if j >= |s| {
        assert (j - |s|) % 3 == 0 && (s + t)[j] == t[j - |s|];
      }
    }
  }

  // ------------------------------------------- what is printed and read

  const UPPER_DIGITS: string := "0123456789ABCDEF"
  const LOWER_DIGITS: string := "0123456789abcdef"

  lemma HexDigitIs(d: int)
    requires 0 <= d < 16
    ensures HexDigit(d) == UPPER_DIGITS[d] as int
  {
  }

  /** Byte number i is printed as a marker and its two upper-case digits, the high one
      first. */
  lemma {:induction false} EncodeAt(s: seq<Byte>, i: nat)
    requires i < |s|
    ensures |Encode(s)| == 3 * |s|
    ensures Encode(s)[3 * i] == '=' as int
    ensures Encode(s)[3 * i + 1] == UPPER_DIGITS[s[i] / 16] as int
    ensures Encode(s)[3 * i + 2] == UPPER_DIGITS[s[i] % 16] as int
    decreases i
  {
    if i == 0 {
      HexDigitIs(s[0] / 16);
      HexDigitIs(s[0] % 16);
    } else {
      EncodeAt(s[1..], i - 1);
    }
  }

  lemma PrintsUpperCase()
    ensures Encode([0x2F]) == [61, 50, 70]
  {
    assert [0x2F][1..] == [];
  }

  /** The digits of either case, and nothing else, have a value. */
  lemma HexValueIs(c: Byte, d: int)
    requires 0 <= d < 16
    ensures HexValue(c) == d <==> c == UPPER_DIGITS[d] as int || c == LOWER_DIGITS[d] as int
  {
  }

  /** strtol in base 16 as the C standard tells it: white space, a sign, a prefix, and the
      digits up to the first character that is none. */
  function Strtol16(s: seq<Byte>): int {
    var t := SkipSpaces(s);
    if t == [] then 0
    else if t[0] == '-' as int then 0 - HexNumber(0, SkipPrefix(t[1..]))
    else if t[0] == '+' as int then HexNumber(0, SkipPrefix(t[1..]))
    else HexNumber(0, SkipPrefix(t))
  }

  function SkipSpaces(s: seq<Byte>): seq<Byte> {
    if s != [] && (s[0] == ' ' as int || s[0] in {9, 10, 11, 12, 13}) then SkipSpaces(s[1..]) else s
  }

  /** 0x or 0X in front of a digit. */
  function SkipPrefix(s: seq<Byte>): seq<Byte> {
    if |s| > 2 && s[0] == '0' as int && (s[1] == 'x' as int || s[1] == 'X' as int) && HexValue(s[2]) >= 0 then s[2..]
    else s
  }

  function HexNumber(v: nat, s: seq<Byte>): nat
    decreases |s|
  {
    if s == [] || HexValue(s[0]) < 0 then v else HexNumber(16 * v + HexValue(s[0]), s[1..])
  }

  /** What the decoder makes of the two characters behind a marker, whatever they are, is
      strtol of them, cut to a byte. */
  lemma HexPairIsStrtol(a: Byte, b: Byte)
    ensures HexPair(a, b) == Strtol16([a, b]) % 256
  {
    var s := [a, b];
    assert s[1..] == [b] && [b][1..] == [];
    assert HexNumber(0, [b]) == if HexValue(b) < 0 then 0 else HexValue(b);
    if HexValue(a) >= 0 {
      assert HexNumber(0, s) == HexNumber(HexValue(a), [b]);
    } else {
      assert HexNumber(0, s) == 0;
    }
    if IsSpace(a) {
      assert SkipSpaces(s) == SkipSpaces([b]);
      assert SkipSpaces([b]) == if IsSpace(b) then [] else [b];
    }
  }

  // ------------------------------------------------------------ the chain

  /** One more vector, one more entry, one more byte. */
  lemma FlatNext(iov: seq<seq<Byte>>, i: nat)
    requires i < |iov|
    ensures Flat(iov[..i + 1]) == Flat(iov[..i]) + iov[i]
    ensures Flat(iov) == Flat(iov[..i]) + iov[i] + Flat(iov[i + 1..])
  {
    assert iov[..i + 1] == iov[..i] + [iov[i]] && iov == iov[..i + 1] + iov[i + 1..];
    FlatConcat(iov[..i], [iov[i]]);
    FlatConcat(iov[..i + 1], iov[i + 1..]);
    assert Flat([iov[i]]) == iov[i] + Flat([]) == iov[i];
  }

  lemma DecodeNext(v: seq<Byte>, j: nat)
    requires j % 3 == 0 && j + 3 <= |v|
    ensures Decode(v[..j + 3]) == Decode(v[..j]) + [HexPair(v[j + 1], v[j + 2])]
  {
    var s := v[j..j + 3];
    assert v[..j + 3] == v[..j] + s;
    DecodeConcat(v[..j], s);
    assert s[3..] == [] && Decode(s) == [HexPair(s[1], s[2])];
  }

  lemma EncodeNext(v: seq<Byte>, j: nat)
    requires j < |v|
    ensures Encode(v[..j + 1]) == Encode(v[..j]) + EncodeByte(v[j])
  {
    assert v[..j + 1] == v[..j] + [v[j]];
    EncodeConcat(v[..j], [v[j]]);
    assert Encode([v[j]]) == EncodeByte(v[j]) + [];
  }

  lemma {:induction false} FlatMultiple(iov: seq<seq<Byte>>)
    requires forall i :: 0 <= i < |iov| ==> |iov[i]| % 3 == 0
    ensures |Flat(iov)| % 3 == 0
  {
    if iov != [] {
      FlatMultiple(iov[1..]);
    }
  }

  lemma {:induction false} MarkedFlat(iov: seq<seq<Byte>>)
    requires forall i :: 0 <= i < |iov| ==> |iov[i]| % 3 == 0
    ensures WellMarked(Flat(iov)) <==> forall i :: 0 <= i < |iov| ==> WellMarked(iov[i])
  {
    if iov != [] {
      MarkedFlat(iov[1..]);
      FlatMultiple(iov[1..]);
      var v, rest := iov[0], Flat(iov[1..]);
      if WellMarked(v) && WellMarked(rest) {
        MarkedConcat(v, rest);
      }
      if WellMarked(v + rest) {
        assert forall j :: 0 <= j < |v| && j % 3 == 0 ==> v[j] == (v + rest)[j];
        forall j | 0 <= j < |rest| && j % 3 == 0
          ensures rest[j] == EQUALS
        {
          assert rest[j] == (v + rest)[|v| + j] && (|v| + j) % 3 == 0;
        }
      }
      assert forall i :: 0 <= i < |iov[1..]| ==> iov[1..][i] == iov[i + 1];
      assert (forall i :: 0 <= i < |iov| ==> WellMarked(iov[i])) <==>
             WellMarked(v) && (forall i :: 0 <= i < |iov[1..]| ==> WellMarked(iov[1..][i])) by {
        if WellMarked(v) && (forall i :: 0 <= i < |iov[1..]| ==> WellMarked(iov[1..][i])) {
          forall i | 0 <= i < |iov|
            ensures WellMarked(iov[i])
          {
            assert i > 0 ==> iov[i] == iov[1..][i - 1];
          }
        }
      }
    }
  }

  /** How long the front of s is in which every entry has its marker. */
  function GoodLen(s: seq<Byte>): (n: nat)
    requires |s| % 3 == 0
    ensures n <= |s| && n % 3 == 0
  {
    if s == [] || s[0] != EQUALS then 0 else 3 + GoodLen(s[3..])
  }

  /** Its end is where the first entry without a marker stands. */
  lemma {:induction false} GoodLenIs(s: seq<Byte>, n: nat)
    requires |s| % 3 == 0 && n <= |s| && n % 3 == 0
    requires forall k :: 0 <= k < n && k % 3 == 0 ==> s[k] == EQUALS
    requires n < |s| ==> s[n] != EQUALS
    ensures GoodLen(s) == n
    decreases |s|
  {
    if n > 0 {
      forall k | 0 <= k < n - 3 && k % 3 == 0
        ensures s[3..][k] == EQUALS
      {
        assert s[3..][k] == s[k + 3] && (k + 3) % 3 == 0;
      }
      GoodLenIs(s[3..], n - 3);
    }
  }

  lemma GoodLenIsAll(s: seq<Byte>)
    requires |s| % 3 == 0
    ensures WellMarked(s) <==> GoodLen(s) == |s|
    ensures s[..|s|] == s
  {
    if WellMarked(s) {
      GoodLenIs(s, |s|);
    } else {
      GoodLenMarks(s);
    }
  }

  lemma {:induction false} GoodLenMarks(s: seq<Byte>)
    requires |s| % 3 == 0
    ensures forall k :: 0 <= k < GoodLen(s) && k % 3 == 0 ==> s[k] == EQUALS
    decreases |s|
  {
    if s != [] && s[0] == EQUALS {
      GoodLenMarks(s[3..]);
      forall k | 0 <= k < GoodLen(s) && k % 3 == 0
        ensures s[k] == EQUALS
      {
        if k >= 3 {
          assert s[k] == s[3..][k - 3] && (k - 3) % 3 == 0;
        }
      }
    }
  }

  /** Behind well-marked text the front goes on in what follows. */
  lemma {:induction false} GoodLenConcat(s: seq<Byte>, t: seq<Byte>)
    requires WellMarked(s) && |t| % 3 == 0
    ensures |s + t| % 3 == 0 && GoodLen(s + t) == |s| + GoodLen(t)
    decreases |s|
  {
    if s == [] {
      assert s + t == t;
    } else {
      assert (s + t)[3..] == s[3..] + t;
      assert s[0] == EQUALS;
      forall j | 0 <= j < |s[3..]| && j % 3 == 0
        ensures s[3..][j] == EQUALS
      {
        assert s[3..][j] == s[j + 3] && (j + 3) % 3 == 0;
      }
      GoodLenConcat(s[3..], t);
    }
  }

  /** Text behind an entry without a marker is not reached. */
  lemma {:induction false} GoodLenFront(s: seq<Byte>, t: seq<Byte>)
    requires |s| % 3 == 0 && |t| % 3 == 0 && GoodLen(s) < |s|
    ensures |s + t| % 3 == 0 && GoodLen(s + t) == GoodLen(s)
    decreases |s|
  {
    if s[0] == EQUALS {
      assert (s + t)[3..] == s[3..] + t;
      GoodLenFront(s[3..], t);
    }
  }

  /** The first entry without its marker is in vector number bad. */
  predicate FaultIn(iov: seq<seq<Byte>>, bad: nat) {
    && bad < |iov| && |Flat(iov)| % 3 == 0
    && |Flat(iov[..bad])| <= GoodLen(Flat(iov)) < |Flat(iov[..bad + 1])|
  }

  lemma FaultAt(iov: seq<seq<Byte>>, i: nat)
    requires forall k :: 0 <= k < |iov| ==> |iov[k]| % 3 == 0
    requires i < |iov| && (forall k :: 0 <= k < i ==> WellMarked(iov[k])) && GoodLen(iov[i]) < |iov[i]|
    ensures FaultIn(iov, i) && GoodLen(Flat(iov)) == |Flat(iov[..i])| + GoodLen(iov[i])
    ensures !WellMarked(Flat(iov)) && |Flat(iov[..i])| % 3 == 0
    ensures Decode(Flat(iov)[..GoodLen(Flat(iov))]) == Decode(Flat(iov[..i])) + Decode(iov[i][..GoodLen(iov[i])])
  {
    var front, v, rest := Flat(iov[..i]), iov[i], Flat(iov[i + 1..]);
    FlatNext(iov, i);
    FlatMultiple(iov);
    FlatMultiple(iov[..i]);
    FlatMultiple(iov[i + 1..]);
    MarkedFlat(iov[..i]);
    FaultBehind(front, v, rest);
    GoodLenIsAll(Flat(iov));
  }

  lemma FaultBehind(front: seq<Byte>, v: seq<Byte>, rest: seq<Byte>)
    requires WellMarked(front) && |v| % 3 == 0 && |rest| % 3 == 0 && GoodLen(v) < |v|
    ensures var s, n := front + v + rest, GoodLen(v);
      |s| % 3 == 0 && GoodLen(s) == |front| + n && Decode(s[..|front| + n]) == Decode(front) + Decode(v[..n])
  {
    var n := GoodLen(v);
    assert front + v + rest == front + (v + rest);
    GoodLenFront(v, rest);
    GoodLenConcat(front, v + rest);
    assert (front + v + rest)[..|front| + n] == front + v[..n];
    DecodeConcat(front, v[..n]);
  }

  /** One more well-marked vector. */
  lemma DecodeVectors(iov: seq<seq<Byte>>, i: nat)
    requires i < |iov| && |Flat(iov[..i])| % 3 == 0 && |iov[i]| % 3 == 0
    ensures |Flat(iov[..i + 1])| == |Flat(iov[..i])| + |iov[i]| && |Flat(iov[..i + 1])| % 3 == 0
    ensures Decode(Flat(iov[..i + 1])) == Decode(Flat(iov[..i])) + Decode(iov[i])
  {
    FlatNext(iov, i);
    DecodeConcat(Flat(iov[..i]), iov[i]);
  }

  /** ls_loopbuf_popfront: drops at most what there is. */
  function PopFront(s: seq<Byte>, n: nat): seq<Byte> {
    if n >= |s| then [] else s[n..]
  }

  /** The state of one connection: the encoder's and the decoder's buffer, the bytes the
      socket has sent, and the bytes the caller was told were accepted. */
  datatype Chain = Chain(ebuf: seq<Byte>, dbuf: seq<Byte>, sent: seq<Byte>, accepted: seq<Byte>)

  /** The decoder's buffer after it has taken input, if it has room. */
  function DecoderTakes(dbuf: seq<Byte>, input: seq<Byte>): seq<Byte>
    requires |input| % 3 == 0
  {
    if MAX_BLOCK_BUFSIZE > |dbuf| then dbuf + Decode(input) else dbuf
  }

  /** The decoder counts every consumed byte twice. */
  function DecoderReturns(dbuf: seq<Byte>, input: seq<Byte>): nat {
    if MAX_BLOCK_BUFSIZE > |dbuf| then 2 * |input| else 0
  }

  function EncoderTakes(ebuf: seq<Byte>, data: seq<Byte>): seq<Byte> {
    if MAX_BLOCK_BUFSIZE > |ebuf| then ebuf + Encode(data) else ebuf
  }

  function EncoderReturns(ebuf: seq<Byte>, data: seq<Byte>): (total: nat)
    ensures total <= |data|
  {
    if MAX_BLOCK_BUFSIZE > |ebuf| then |data| else 0
  }

  /** One l4send at the top, with a socket willing to write budget bytes. */
  function Send(c: Chain, data: seq<Byte>, budget: nat): Chain
    requires |c.ebuf| % 3 == 0
  {
    var ebuf := EncoderTakes(c.ebuf, data);
    var dbuf := DecoderTakes(c.dbuf, ebuf);
    var n := if budget < |dbuf| then budget else |dbuf|;
    Chain(
      PopFront(ebuf, DecoderReturns(c.dbuf, ebuf)),
      dbuf[n..],
      c.sent + dbuf[..n],
      c.accepted + data[..EncoderReturns(c.ebuf, data)])
  }

  /** The law of the chain: what was sent, then what the decoder holds, then what the
      encoder holds decoded, is what was accepted. */
  predicate Flow(c: Chain) {
    WellMarked(c.ebuf) && c.sent + c.dbuf + Decode(c.ebuf) == c.accepted
  }

  /** Taking data in keeps the stored entries valid and appends it to their meaning. */
  lemma EncoderTakesFlow(ebuf: seq<Byte>, data: seq<Byte>)
    requires WellMarked(ebuf)
    ensures var e := EncoderTakes(ebuf, data);
      WellMarked(e) && Decode(e) == Decode(ebuf) + data[..EncoderReturns(ebuf, data)]
  {
    DecodeEncode(data);
    DecodeConcat(ebuf, Encode(data));
    MarkedConcat(ebuf, Encode(data));
    assert data[..|data|] == data;
    assert Decode(ebuf) + data[..0] == Decode(ebuf);
  }

  /** The decoder takes all or nothing, and what the encoder then pops is exactly that. */
  lemma HandoverFlow(ebuf: seq<Byte>, dbuf: seq<Byte>)
    requires WellMarked(ebuf)
    ensures var e := PopFront(ebuf, DecoderReturns(dbuf, ebuf));
      WellMarked(e) && DecoderTakes(dbuf, ebuf) + Decode(e) == dbuf + Decode(ebuf)
  {
    if MAX_BLOCK_BUFSIZE > |dbuf| {
      assert PopFront(ebuf, 2 * |ebuf|) == [];
      assert dbuf + Decode(ebuf) + Decode([]) == dbuf + Decode(ebuf);
    } else {
      assert ebuf[0..] == ebuf;
    }
  }

  lemma Regroup(sent: seq<Byte>, dbuf: seq<Byte>, n: nat, rest: seq<Byte>, was: seq<Byte>, plain: seq<Byte>, taken: seq<Byte>)
    requires n <= |dbuf| && dbuf + rest == was + (plain + taken)
    ensures sent + dbuf[..n] + dbuf[n..] + rest == sent + was + plain + taken
  {
    assert sent + dbuf[..n] + dbuf[n..] + rest == sent + (dbuf + rest);
    assert sent + was + plain + taken == sent + (was + (plain + taken));
  }

  lemma SendKeepsFlow(c: Chain, data: seq<Byte>, budget: nat)
    requires Flow(c)
    ensures Flow(Send(c, data, budget))
  {
    var ebuf := EncoderTakes(c.ebuf, data);
    var dbuf := DecoderTakes(c.dbuf, ebuf);
    EncoderTakesFlow(c.ebuf, data);
    HandoverFlow(ebuf, c.dbuf);
    Regroup(c.sent, dbuf, if budget < |dbuf| then budget else |dbuf|, Decode(PopFront(ebuf, DecoderReturns(c.dbuf, ebuf))),
            c.dbuf, Decode(c.ebuf), data[..EncoderReturns(c.ebuf, data)]);
  }

  datatype TopCall = TopCall(data: seq<Byte>, budget: nat)

  function SendAll(c: Chain, calls: seq<TopCall>): Chain
    requires Flow(c)
    decreases |calls|
  {
    if calls == [] then c
    else
      SendKeepsFlow(c, calls[0].data, calls[0].budget);
      SendAll(Send(c, calls[0].data, calls[0].budget), calls[1..])
  }

  const EMPTY := Chain([], [], [], [])

  lemma {:induction false} SendAllKeepsFlow(c: Chain, calls: seq<TopCall>)
    requires Flow(c)
    ensures Flow(SendAll(c, calls))
    decreases |calls|
  {
    if calls != [] {
      SendKeepsFlow(c, calls[0].data, calls[0].budget);
      SendAllKeepsFlow(Send(c, calls[0].data, calls[0].budget), calls[1..]);
    }
  }

  /** Below 8192 buffered bytes everything is accepted and goes down the chain, and from
      there on nothing. */
  lemma SendAcceptsBelowLimit(c: Chain, data: seq<Byte>, budget: nat)
    requires Flow(c)
    ensures Send(c, data, budget).accepted == if |c.ebuf| < 8192 then c.accepted + data else c.accepted
    ensures |c.dbuf| < 8192 ==> Send(c, data, budget).ebuf == []
    ensures |c.dbuf| >= 8192 && |c.ebuf| >= 8192 ==>
      Send(c, data, budget).ebuf == c.ebuf && Send(c, data, budget).sent + Send(c, data, budget).dbuf == c.sent + c.dbuf
  {
    assert data[..|data|] == data;
    var n := if budget < |c.dbuf| then budget else |c.dbuf|;
    assert c.dbuf == c.dbuf[..n] + c.dbuf[n..];
    assert c.sent + (c.dbuf[..n] + c.dbuf[n..]) == c.sent + c.dbuf[..n] + c.dbuf[n..];
  }

  /** The socket is given all that the decoder holds, and takes all it is willing to. */
  lemma SendTakesBudget(c: Chain, data: seq<Byte>, budget: nat)
    requires Flow(c)
    ensures |Send(c, data, budget).dbuf| > 0 ==> |Send(c, data, budget).sent| == |c.sent| + budget
  {
  }

  /** A call without data over a willing socket empties the decoder, and the encoder
      too unless the decoder was full when the call came. */
  lemma FlushEmpties(c: Chain, budget: nat)
    requires Flow(c) && budget >= |c.dbuf| + |c.ebuf|
    ensures var c' := Send(c, [], budget);
      && c'.dbuf == [] && c'.accepted == c.accepted
      && (|c.dbuf| < MAX_BLOCK_BUFSIZE ==> c'.ebuf == [])
      && |c'.ebuf| <= |c.ebuf|
  {
    assert Encode([]) == [] && c.ebuf + [] == c.ebuf;
    assert EncoderTakes(c.ebuf, []) == c.ebuf;
  }

  lemma TwoFlushesDeliver(c: Chain, b1: nat, b2: nat)
    requires Flow(c) && b1 >= |c.dbuf| + |c.ebuf| && b2 >= |c.ebuf|
    ensures |Send(c, [], b1).ebuf| % 3 == 0
    ensures Send(Send(c, [], b1), [], b2) == Chain([], [], c.accepted, c.accepted)
  {
    SendKeepsFlow(c, [], b1);
    var c1 := Send(c, [], b1);
    FlushEmpties(c, b1);
    SendKeepsFlow(c1, [], b2);
    var c2 := Send(c1, [], b2);
    FlushEmpties(c1, b2);
    assert c2.sent + [] + [] == c2.sent;
  }

  /** Encoder over decoder is the identity under any backpressure: after any calls, the
      socket has sent a prefix of what was accepted, the two buffers hold exactly the
      rest, and two calls without data that the socket does not hold up deliver it. */
  lemma ChainIsIdentity(calls: seq<TopCall>, b1: nat, b2: nat)
    ensures var c := SendAll(EMPTY, calls);
      && WellMarked(c.ebuf)
      && c.sent + c.dbuf + Decode(c.ebuf) == c.accepted
      && (b1 >= |c.dbuf| + |c.ebuf| && b2 >= |c.ebuf| ==>
            var c1 := Send(c, [], b1);
            |c1.ebuf| % 3 == 0 && Send(c1, [], b2) == Chain([], [], c.accepted, c.accepted))
  {
    SendAllKeepsFlow(EMPTY, calls);
    var c := SendAll(EMPTY, calls);
    if b1 >= |c.dbuf| + |c.ebuf| && b2 >= |c.ebuf| {
      TwoFlushesDeliver(c, b1, b2);
    }
  }

  // ---------------------------------------------------------- the filters

  /** What lies below the last filter: it sends any part of what it is given. */
  class Socket {
    ghost var sent: seq<Byte>

    constructor ()
      ensures sent == []
    {
      sent := [];
    }

    method Writev(data: seq<Byte>) returns (written: nat)
      modifies this
      ensures written <= |data| && sent == old(sent) + data[..written]
    {
      var n: nat :| n <= |data|;
      written := n;
      sent := sent + data[..n];
    }
  }

  class Decoder {
    var writeBuf: seq<Byte>
    const below: Socket

    constructor (below: Socket)
      ensures writeBuf == [] && this.below == below
    {
      this.writeBuf := [];
      this.below := below;
    }

    /** The inner loop of l4send: decodes one vector behind what is buffered; an entry
        without its marker stops it. */
    method DecodeVector(v: seq<Byte>) returns (count: nat, ok: bool)
      requires |v| % 3 == 0
      modifies this
      ensures ok <==> WellMarked(v)
      ensures count == GoodLen(v) && (ok <==> count == |v|)
      ensures writeBuf == old(writeBuf) + Decode(v[..count])
    {
      count, ok := 0, true;
      ghost var here := writeBuf;
      var j := 0;
      while j < |v|
        invariant 0 <= j <= |v| && j % 3 == 0 && count == j
        invariant writeBuf == here + Decode(v[..j])
        invariant forall k :: 0 <= k < j && k % 3 == 0 ==> v[k] == EQUALS
      {
        var s := v[j..j + 3];
        if s[0] != EQUALS {
          GoodLenIs(v, j);
          ok := false;
          return;
        }
        var c := HexPair(s[1], s[2]);
        DecodeNext(v, j);
        writeBuf := writeBuf + [c];
        count := count + 3;
        j := j + 3;
      }
      GoodLenIs(v, j);
    }

    /** The outer loop: i vectors have been decoded when it ends, and if not ok the front of
        the next one. */
    method DecodeAll(iov: seq<seq<Byte>>) returns (total: nat, ok: bool, ghost i: nat)
      requires forall k :: 0 <= k < |iov| ==> |iov[k]| % 3 == 0
      modifies this
      ensures i <= |iov| && |Flat(iov[..i])| % 3 == 0 && forall k :: 0 <= k < i ==> WellMarked(iov[k])
      ensures ok ==> i == |iov| && writeBuf == old(writeBuf) + Decode(Flat(iov[..i])) && total == 2 * |Flat(iov[..i])|
      ensures !ok ==>
        && i < |iov| && GoodLen(iov[i]) < |iov[i]|
        && writeBuf == old(writeBuf) + Decode(Flat(iov[..i])) + Decode(iov[i][..GoodLen(iov[i])])
        && total == 2 * |Flat(iov[..i])| + |iov[i]| + GoodLen(iov[i])
    {
      total, ok := 0, true;
      ghost var start := writeBuf;
      var v := 0;
      i := 0;
      while v < |iov|
        invariant 0 <= v <= |iov| && |Flat(iov[..v])| % 3 == 0
        invariant forall k :: 0 <= k < v ==> WellMarked(iov[k])
        invariant writeBuf == start + Decode(Flat(iov[..v])) && total == 2 * |Flat(iov[..v])|
      {
        DecodeVectors(iov, v);
        var count;
        total := total + |iov[v]|;
        count, ok := DecodeVector(iov[v]);
        total := total + count;
        if !ok {
          i := v;
          return;
        }
        assert iov[v][..count] == iov[v];
        v := v + 1;
      }
      i := v;
    }

    /** What the loops leave.  An entry without its marker, in vector number bad, ends them:
        the text in front of it has been decoded, and vectors are counted up to that one. */
    method AppendDecoded(iov: seq<seq<Byte>>) returns (total: nat, ok: bool, ghost bad: nat)
      requires forall i :: 0 <= i < |iov| ==> |iov[i]| % 3 == 0
      modifies this
      ensures |Flat(iov)| % 3 == 0
      ensures ok <==> WellMarked(Flat(iov))
      ensures writeBuf == old(writeBuf) + Decode(Flat(iov)[..GoodLen(Flat(iov))])
      ensures ok ==> writeBuf == old(writeBuf) + Decode(Flat(iov)) && total == 2 * |Flat(iov)|
      ensures !ok ==> FaultIn(iov, bad) && total == |Flat(iov[..bad + 1])| + GoodLen(Flat(iov))
    {
      FlatMultiple(iov);
      total, ok, bad := DecodeAll(iov);
      if ok {
        assert iov[..bad] == iov;
        MarkedFlat(iov);
        GoodLenIsAll(Flat(iov));
      } else {
        FlatNext(iov, bad);
        FaultAt(iov, bad);
      }
    }

    /** The l4send of updatetcpout2.c; an invalid entry ends it before anything is sent. */
    method L4Send(iov: seq<seq<Byte>>) returns (total: nat, ghost budget: nat)
      requires forall i :: 0 <= i < |iov| ==> |iov[i]| % 3 == 0
      modifies this, below
      ensures |Flat(iov)| % 3 == 0
      ensures WellMarked(Flat(iov)) || |old(writeBuf)| >= MAX_BLOCK_BUFSIZE ==>
        var dbuf := DecoderTakes(old(writeBuf), Flat(iov));
        && budget <= |dbuf| && writeBuf == dbuf[budget..] && below.sent == old(below.sent) + dbuf[..budget]
        && total == DecoderReturns(old(writeBuf), Flat(iov))
      ensures !WellMarked(Flat(iov)) && |old(writeBuf)| < MAX_BLOCK_BUFSIZE ==>
        && below.sent == old(below.sent)
        && writeBuf == old(writeBuf) + Decode(Flat(iov)[..GoodLen(Flat(iov))])
        && exists bad :: FaultIn(iov, bad) && total == |Flat(iov[..bad + 1])| + GoodLen(Flat(iov))
    {
      total := 0;
      budget := 0;
      FlatMultiple(iov);
      if MAX_BLOCK_BUFSIZE > |writeBuf| {
        var ok;
        ghost var bad;
        total, ok, bad := AppendDecoded(iov);
        if !ok {
          return;
        }
      }
      var written := below.Writev(writeBuf);
      budget := written;
      writeBuf := PopFront(writeBuf, written);
    }
  }

  class Encoder {
    var writeBuf: seq<Byte>
    const below: Decoder

    constructor (below: Decoder)
      ensures writeBuf == [] && this.below == below
    {
      this.writeBuf := [];
      this.below := below;
    }

    ghost function State(accepted: seq<Byte>): Chain
      reads this, below, below.below
    {
      Chain(writeBuf, below.writeBuf, below.below.sent, accepted)
    }

    /** The inner loop of l4send: prints one vector behind what is buffered. */
    method EncodeVector(v: seq<Byte>) returns (count: nat)
      modifies this
      ensures writeBuf == old(writeBuf) + Encode(v) && count == |v|
    {
      count := 0;
      ghost var here := writeBuf;
      var j := 0;
      while j < |v|
        invariant 0 <= j <= |v| && count == j
        invariant writeBuf == here + Encode(v[..j])
      {
        EncodeNext(v, j);
        writeBuf := writeBuf + EncodeByte(v[j]);
        count := count + 1;
        j := j + 1;
      }
      assert v[..j] == v;
    }

    /** Both loops: every vector, its bytes counted. */
    method AppendEncoded(iov: seq<seq<Byte>>) returns (total: nat)
      modifies this
      ensures writeBuf == old(writeBuf) + Encode(Flat(iov)) && total == |Flat(iov)|
    {
      total := 0;
      ghost var start := writeBuf;
      var i := 0;
      while i < |iov|
        invariant 0 <= i <= |iov|
        invariant writeBuf == start + Encode(Flat(iov[..i])) && total == |Flat(iov[..i])|
      {
        FlatNext(iov, i);
        EncodeConcat(Flat(iov[..i]), iov[i]);
        var count := EncodeVector(iov[i]);
        total := total + count;
        i := i + 1;
      }
      assert iov[..i] == iov;
    }

    /** The l4send of updatetcpout1.c: one step of the chain, whatever the socket does. */
    method L4Send(iov: seq<seq<Byte>>, ghost accepted: seq<Byte>) returns (total: nat, ghost budget: nat)
      requires Flow(State(accepted))
      modifies this, below, below.below
      ensures total == EncoderReturns(old(writeBuf), Flat(iov))
      ensures State(accepted + Flat(iov)[..total]) == Send(old(State(accepted)), Flat(iov), budget)
      ensures Flow(State(accepted + Flat(iov)[..total]))
    {
      total := 0;
      ghost var c := State(accepted);
      if MAX_BLOCK_BUFSIZE > |writeBuf| {
        total := AppendEncoded(iov);
      }
      EncoderTakesFlow(c.ebuf, Flat(iov));
      assert writeBuf == EncoderTakes(c.ebuf, Flat(iov));
      assert Flat([writeBuf]) == writeBuf + Flat([]) == writeBuf;
      var written;
      written, budget := below.L4Send([writeBuf]);
      writeBuf := PopFront(writeBuf, written);
      SendKeepsFlow(c, Flat(iov), budget);
    }
  }
}
