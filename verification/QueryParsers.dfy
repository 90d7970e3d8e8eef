/** Two query string parsers: the image dimensions of imgresize.c and the environment
    pairs of testenv.c, each with its printer. */
module QueryParsers {
  import opened Bytes
  import opened Decimals

  const NUL: Byte := 0
  const AMP: Byte := 38       // '&'
  const COLON: Byte := 58     // ':'
  const EQUALS: Byte := 61    // '='
  const LOWER_H: Byte := 104  // 'h'
  const LOWER_W: Byte := 119  // 'w'

  const LS_FAIL := -1

  // ------------------------------------------------------ image dimensions

  /** memchr: where c first stands in s from position from on, or the end of s. */
  function Find(s: seq<Byte>, c: Byte, from: nat): (k: nat)
    requires from <= |s|
    ensures from <= k <= |s| && (k < |s| ==> s[k] == c) && c !in s[from..k]
    decreases |s| - from
  {
    if from == |s| || s[from] == c then from
    else
      var k := Find(s, c, from + 1);
      assert s[from..k] == [s[from]] + s[from + 1..k];
      k
  }

  datatype Dims = Dims(ret: int, width: nat, height: nat)

  /** A width or height counts when none that is not zero came before. */
  function Note(d: Dims, key: Byte, val: nat): Dims {
    if key == LOWER_W && d.width == 0 then d.(width := val)
    else if key == LOWER_H && d.height == 0 then d.(height := val)
    else d
  }

  /** What getReqDimensions makes of the rest of a query; a last byte on its own is not
      looked at. */
  function Dimensions(s: seq<Byte>, d: Dims): Dims
    decreases |s|
  {
    if |s| < 2 then d
    else if (s[0] != LOWER_W && s[0] != LOWER_H) || s[1] != EQUALS then d.(ret := LS_FAIL)
    else
      var end := Find(s, AMP, 2);
      if !AllDigits(s[2..end]) then d.(ret := LS_FAIL)
      else
        var d' := Note(d, s[0], Value(0, s[2..end]));
        if end == |s| then d' else Dimensions(s[end + 1..], d')
  }

  /** The digit loop of getReqDimensions behind the value val0. */
  method ParseDigits(buf: seq<Byte>, start: nat, ptr2: nat, val0: nat) returns (ok: bool, val: nat)
    requires start <= ptr2 <= |buf|
    ensures ok == AllDigits(buf[start..ptr2])
    ensures ok ==> val == Value(val0, buf[start..ptr2])
  {
    val := val0;
    ghost var digits := buf[start..ptr2];
    var parse := start;
    while parse < ptr2
      invariant start <= parse <= ptr2 && AllDigits(digits[..parse - start])
      invariant val == Value(val0, digits[..parse - start])
    {
      assert digits[parse - start] == buf[parse];
      if !IsDigit(buf[parse]) {
        return false, val;
      }
      ghost var before := digits[..parse - start];
      ValueConcat(val0, before, [buf[parse]]);
      assert digits[..parse + 1 - start] == before + [buf[parse]];
      val := val * 10 + DigitValue(buf[parse]);
      parse := parse + 1;
    }
    assert digits[..parse - start] == digits;
    ok := true;
  }

  /** getReqDimensions.  after is the byte behind the query, which the code may look at. */
  method GetReqDimensions(buf: seq<Byte>, after: Byte, width0: nat, height0: nat)
    returns (ret: int, width: nat, height: nat)
    ensures Dims(ret, width, height) == Dimensions(buf, Dims(0, width0, height0))
  {
    ret, width, height := 0, width0, height0;
    var ptr := 0;
    ghost var all := Dimensions(buf, Dims(0, width0, height0));
    assert buf[0..] == buf;
    while ptr < |buf| - 1
      invariant 0 <= ptr <= |buf| + 1 && ret == 0
      invariant all == if ptr <= |buf| then Dimensions(buf[ptr..], Dims(0, width, height))
                       else Dims(0, width, height)
      decreases |buf| + 1 - ptr
    {
      if (buf[ptr] != LOWER_W && buf[ptr] != LOWER_H) || buf[ptr + 1] != EQUALS {
        ret := LS_FAIL;
        return;
      }
      var ptr2 := Find(buf, AMP, ptr + 2);
      DimensionsAt(buf, ptr, Dims(0, width, height));
      var ok, val := ParseDigits(buf, ptr + 2, ptr2, 0);
      if !ok {
        ret := LS_FAIL;
        return;
      }
      if buf[ptr] == LOWER_W && width == 0 {
        width := val;
      } else if buf[ptr] == LOWER_H && height == 0 {
        height := val;
      }
      if (if ptr2 < |buf| then buf[ptr2] else after) != AMP {
        return;
      }
      ptr := ptr2 + 1;
    }
  }

  /** One round of Dimensions, told in offsets of the whole query. */
  lemma DimensionsAt(buf: seq<Byte>, ptr: nat, d: Dims)
    requires ptr + 2 <= |buf| && buf[ptr] in {LOWER_W, LOWER_H} && buf[ptr + 1] == EQUALS
    ensures var ptr2 := Find(buf, AMP, ptr + 2);
      Dimensions(buf[ptr..], d) ==
      if !AllDigits(buf[ptr + 2..ptr2]) then d.(ret := LS_FAIL)
      else
        var d' := Note(d, buf[ptr], Value(0, buf[ptr + 2..ptr2]));
        if ptr2 == |buf| then d' else Dimensions(buf[ptr2 + 1..], d')
  {
    var s, ptr2 := buf[ptr..], Find(buf, AMP, ptr + 2);
    FindShift(buf, AMP, ptr, 2);
    assert s[2..ptr2 - ptr] == buf[ptr + 2..ptr2];
    if ptr2 < |buf| {
      assert s[ptr2 - ptr + 1..] == buf[ptr2 + 1..];
    }
  }

  lemma {:induction false} FindShift(s: seq<Byte>, c: Byte, at: nat, from: nat)
    requires at + from <= |s|
    ensures Find(s[at..], c, from) + at == Find(s, c, at + from)
    decreases |s| - at - from
  {
    if at + from < |s| && s[at + from] != c {
      FindShift(s, c, at, from + 1);
    }
  }

  /** A width or a height with its digits, of which there may be none. */
  datatype Field = Field(wide: bool, digits: seq<Byte>)

  ghost predicate AllFields(fs: seq<Field>) {
    forall i :: 0 <= i < |fs| ==> AllDigits(fs[i].digits)
  }

  function Key(f: Field): Byte {
    if f.wide then LOWER_W else LOWER_H
  }

  function PrintField(f: Field): seq<Byte> {
    [Key(f), EQUALS] + f.digits
  }

  function PrintFields(fs: seq<Field>): seq<Byte>
    requires fs != []
  {
    if |fs| == 1 then PrintField(fs[0]) else PrintField(fs[0]) + [AMP] + PrintFields(fs[1..])
  }

  /** What the parser accepts behind the last field: nothing, a separator, or a separator
      and one byte of any kind. */
  predicate Tail(t: seq<Byte>) {
    t == [] || (t[0] == AMP && |t| <= 2)
  }

  /** The first value that is not zero, or zero. */
  function FirstNonZero(fs: seq<Field>, wide: bool): nat
    requires AllFields(fs)
  {
    if fs == [] then 0
    else if fs[0].wide == wide && Value(0, fs[0].digits) != 0 then Value(0, fs[0].digits)
    else FirstNonZero(fs[1..], wide)
  }

  lemma {:induction false} FindAt(s: seq<Byte>, c: Byte, from: nat, k: nat)
    requires from <= k <= |s| && c !in s[from..k] && (k < |s| ==> s[k] == c)
    ensures Find(s, c, from) == k
    decreases k - from
  {
    if from < k {
      assert s[from] == s[from..k][0];
      assert s[from + 1..k] == s[from..k][1..];
      FindAt(s, c, from + 1, k);
    }
  }

  /** One field is read and the rest of the query is left. */
  lemma OneField(f: Field, rest: seq<Byte>, d: Dims)
    requires AllDigits(f.digits) && (rest == [] || rest[0] == AMP)
    ensures var d' := Note(d, Key(f), Value(0, f.digits));
      Dimensions(PrintField(f) + rest, d) == if rest == [] then d' else Dimensions(rest[1..], d')
  {
    var s, n := PrintField(f) + rest, |PrintField(f)|;
    assert s[2..n] == f.digits;
    FindAt(s, AMP, 2, n);
    if rest != [] {
      assert s[n + 1..] == rest[1..];
    }
  }

  /** Every query made of fields is accepted and gives the first width and the first height
      that are not zero. */
  lemma {:induction false} DimensionsOfFields(fs: seq<Field>, tail: seq<Byte>, d: Dims)
    requires fs != [] && AllFields(fs) && Tail(tail) && d.ret == 0
    ensures Dimensions(PrintFields(fs) + tail, d) ==
            Dims(0, if d.width != 0 then d.width else FirstNonZero(fs, true),
                    if d.height != 0 then d.height else FirstNonZero(fs, false))
    decreases |fs|
  {
    var f := fs[0];
    var d' := Note(d, Key(f), Value(0, f.digits));
    if |fs| == 1 {
      assert fs[1..] == [];
      OneField(f, tail, d);
    } else {
      var more := PrintFields(fs[1..]) + tail;
      assert PrintFields(fs) + tail == PrintField(f) + ([AMP] + more);
      OneField(f, [AMP] + more, d);
      assert ([AMP] + more)[1..] == more;
      DimensionsOfFields(fs[1..], tail, d');
    }
  }

  /** And nothing else of two bytes or more is accepted. */
  lemma {:induction false} AcceptsOnlyFields(s: seq<Byte>, d: Dims) returns (fs: seq<Field>, tail: seq<Byte>)
    requires |s| >= 2 && Dimensions(s, d).ret == 0
    ensures fs != [] && AllFields(fs) && Tail(tail) && s == PrintFields(fs) + tail
    decreases |s|
  {
    var end := Find(s, AMP, 2);
    var f := Field(s[0] == LOWER_W, s[2..end]);
    var rest := s[end..];
    SplitField(s, end);
    if |rest| <= 2 {
      fs, tail := [f], rest;
    } else {
      var more;
      more, tail := AcceptsOnlyFields(s[end + 1..], Note(d, s[0], Value(0, s[2..end])));
      fs := [f] + more;
      JoinField(f, more, tail, rest);
    }
  }

  lemma SplitField(s: seq<Byte>, end: nat)
    requires 2 <= end <= |s| && s[0] in {LOWER_W, LOWER_H} && s[1] == EQUALS
    ensures s == PrintField(Field(s[0] == LOWER_W, s[2..end])) + s[end..]
  {
  }

  lemma JoinField(f: Field, more: seq<Field>, tail: seq<Byte>, rest: seq<Byte>)
    requires more != [] && rest != [] && rest[0] == AMP && rest[1..] == PrintFields(more) + tail
    ensures PrintFields([f] + more) + tail == PrintField(f) + rest
  {
    assert ([f] + more)[1..] == more;
    assert rest == [AMP] + rest[1..];
  }

  /** A query is accepted exactly when it is shorter than two bytes or made of fields. */
  lemma AcceptedIff(s: seq<Byte>, d: Dims)
    requires d.ret == 0
    ensures Dimensions(s, d).ret == 0 <==>
            |s| < 2 || exists fs, tail :: fs != [] && AllFields(fs) && Tail(tail) && s == PrintFields(fs) + tail
  {
    if |s| >= 2 {
      if Dimensions(s, d).ret == 0 {
        var fs, tail := AcceptsOnlyFields(s, d);
      }
      if fs, tail :| fs != [] && AllFields(fs) && Tail(tail) && s == PrintFields(fs) + tail {
        DimensionsOfFields(fs, tail, d);
      }
    }
  }

  /** Two queries that are accepted although they are not made of fields: "x", and "w=1&x". */
  lemma StrayByteIsAccepted(d: Dims)
    requires d.ret == 0
    ensures Dimensions([120], d) == d
    ensures Dimensions([LOWER_W, EQUALS, 49, AMP, 120], d) == Note(d, LOWER_W, 1)
    ensures Dimensions([120, 120], d).ret == LS_FAIL
  {
    var s := [LOWER_W, EQUALS, 49, AMP, 120];
    FindAt(s, AMP, 2, 3);
    assert s[2..3] == [49] && s[4..] == [120];
    assert Value(0, [49]) == Value(1, []) == 1 by {
      assert [49][1..] == [];
    }
  }

  /** A width or a height as a number. */
  datatype Item = Width(value: nat) | Height(value: nat)

  function FieldsOf(xs: seq<Item>): seq<Field> {
    if xs == [] then [] else [Field(xs[0].Width?, Decimal(xs[0].value))] + FieldsOf(xs[1..])
  }

  /** The first value that is not zero, or zero. */
  function FirstItem(xs: seq<Item>, width: bool): nat {
    if xs == [] then 0
    else if xs[0].Width? == width && xs[0].value != 0 then xs[0].value
    else FirstItem(xs[1..], width)
  }

  lemma {:induction false} FieldsOfKeeps(xs: seq<Item>, width: bool)
    ensures |FieldsOf(xs)| == |xs| && AllFields(FieldsOf(xs))
    ensures FirstNonZero(FieldsOf(xs), width) == FirstItem(xs, width)
  {
    if xs != [] {
      FieldsOfKeeps(xs[1..], width);
      ValueOfDecimal(xs[0].value);
      assert FieldsOf(xs)[1..] == FieldsOf(xs[1..]);
    }
  }

  /** The parser inverts the printer. */
  lemma DimensionsOfPrint(xs: seq<Item>)
    requires xs != []
    ensures FieldsOf(xs) != []
    ensures Dimensions(PrintFields(FieldsOf(xs)), Dims(0, 0, 0)) ==
            Dims(0, FirstItem(xs, true), FirstItem(xs, false))
  {
    FieldsOfKeeps(xs, true);
    FieldsOfKeeps(xs, false);
    var fs := FieldsOf(xs);
    DimensionsOfFields(fs, [], Dims(0, 0, 0));
    assert PrintFields(fs) + [] == PrintFields(fs);
  }

  // ------------------------------------------------------ environment pairs

  datatype Option<T> = None | Some(value: T)

  /** strchr from position from on; it gives up at a NUL, and one stands behind s. */
  function StrChr(s: seq<Byte>, c: Byte, from: nat): (r: Option<nat>)
    requires from <= |s|
    ensures r.Some? ==> from <= r.value < |s|
    decreases |s| - from
  {
    if from == |s| || s[from] == NUL then None
    else if s[from] == c then Some(from)
    else StrChr(s, c, from + 1)
  }

  datatype Pair = Pair(name: seq<Byte>, val: seq<Byte>)

  datatype Round = Break | Set(pair: Pair, next: nat)

  /** What one round of the loop of assignHandler reads from position p on. */
  function ReadPair(qs: seq<Byte>, p: nat): (r: Round)
    requires p < |qs|
    ensures r.Set? ==> p < r.next <= |qs|
  {
    match StrChr(qs, COLON, p)
    case None => Break
    case Some(colon) =>
      match StrChr(qs, AMP, colon + 1)
      case None => Set(Pair(qs[p..colon], qs[colon + 1..]), |qs|)
      case Some(amp) => Set(Pair(qs[p..colon], qs[colon + 1..amp]), amp + 1)
  }

  /** What assignHandler sets for the query string from position p on. */
  function Pairs(qs: seq<Byte>, p: nat): seq<Pair>
    requires p <= |qs|
    decreases |qs| - p
  {
    if p == |qs| then []
    else
      var r := ReadPair(qs, p);
      if r.Break? then [] else [r.pair] + Pairs(qs, r.next)
  }

  /** The size of the buffers that a name and a value are copied into. */
  const NAME_SIZE := 128

  /** Name and value fit their buffers, each with its terminator. */
  predicate Fits(x: Pair) {
    |x.name| < NAME_SIZE && |x.val| < NAME_SIZE
  }

  /** The pairs in front of the first one that does not fit. */
  function Fitting(xs: seq<Pair>): (f: seq<Pair>)
    ensures f <= xs && forall i :: 0 <= i < |f| ==> Fits(f[i])
    ensures |f| < |xs| ==> !Fits(xs[|f|])
  {
    if xs == [] || !Fits(xs[0]) then [] else [xs[0]] + Fitting(xs[1..])
  }

  /** memcpy into a buffer and a terminator behind it, or false when they do not fit. */
  method CopyTerminated(buf: array<Byte>, s: seq<Byte>) returns (fits: bool)
    modifies buf
    ensures fits <==> |s| < buf.Length
    ensures fits ==> buf[..|s|] == s && buf[|s|] == NUL
  {
    fits := |s| < buf.Length;
    if fits {
      forall i | 0 <= i < |s| {
        buf[i] := s[i];
      }
      buf[|s|] := NUL;
    }
  }

  /** The body of the loop of assignHandler, which copies into the two buffers and gives
      them to set_req_env; more is false where it breaks. */
  method SetPair(qs: seq<Byte>, nameStart: nat, name: array<Byte>, val: array<Byte>)
    returns (more: bool, fits: bool, pair: Pair, p: nat)
    requires nameStart < |qs| && name != val && name.Length == NAME_SIZE && val.Length == NAME_SIZE
    modifies name, val
    ensures more <==> ReadPair(qs, nameStart).Set?
    ensures more ==> p == ReadPair(qs, nameStart).next
    ensures more ==> (fits <==> Fits(ReadPair(qs, nameStart).pair))
    ensures more && fits ==> pair == ReadPair(qs, nameStart).pair
  {
    more, fits, pair, p := false, true, Pair([], []), |qs|;
    var colon := StrChr(qs, COLON, nameStart);
    if colon.None? {
      return;
    }
    more := true;
    var nameLen := colon.value - nameStart;
    var nameFits := CopyTerminated(name, qs[nameStart..colon.value]);
    var valStart, valEnd := colon.value + 1, |qs|;
    var amp := StrChr(qs, AMP, valStart);
    if amp.Some? {
      valEnd, p := amp.value, amp.value + 1;
    }
    var valFits := CopyTerminated(val, qs[valStart..valEnd]);
    assert ReadPair(qs, nameStart) == Set(Pair(qs[nameStart..colon.value], qs[valStart..valEnd]), p);
    fits := nameFits && valFits;
    if fits {
      pair := Pair(name[..nameLen], val[..valEnd - valStart]);
    }
  }

  /** The loop of assignHandler over the query string; env lists the calls of set_req_env.
      Every round moves strictly forward.  Where the code would write past a buffer, the
      model stops and says so. */
  method AssignHandler(qs: seq<Byte>) returns (env: seq<Pair>, overrun: bool)
    ensures env == Fitting(Pairs(qs, 0))
    ensures overrun <==> env != Pairs(qs, 0)
  {
    env, overrun := [], false;
    var name, val := new Byte[NAME_SIZE](_ => 0), new Byte[NAME_SIZE](_ => 0);
    var p := 0;
    while p < |qs|
      invariant 0 <= p <= |qs|
      invariant env + Pairs(qs, p) == Pairs(qs, 0)
      invariant env + Fitting(Pairs(qs, p)) == Fitting(Pairs(qs, 0))
      decreases |qs| - p
    {
      ghost var r := ReadPair(qs, p);
      var more, fits, pair, next := SetPair(qs, p, name, val);
      if !more {
        break;
      }
      NextPair(env, r.pair, Pairs(qs, next));
      if !fits {
        overrun := true;
        return;
      }
      p, env := next, env + [pair];
    }
  }

  lemma NextPair(env: seq<Pair>, pair: Pair, rest: seq<Pair>)
    ensures env + ([pair] + rest) == env + [pair] + rest
    ensures Fits(pair) ==> env + Fitting([pair] + rest) == env + [pair] + Fitting(rest)
    ensures !Fits(pair) ==> env + Fitting([pair] + rest) == env && env != env + ([pair] + rest)
  {
    assert ([pair] + rest)[1..] == rest;
  }

  function PrintPair(x: Pair): seq<Byte> {
    x.name + [COLON] + x.val
  }

  function PrintPairs(xs: seq<Pair>): seq<Byte> {
    if xs == [] then []
    else if |xs| == 1 then PrintPair(xs[0])
    else PrintPair(xs[0]) + [AMP] + PrintPairs(xs[1..])
  }

  /** The separators cannot be mistaken. */
  predicate Printable(x: Pair) {
    COLON !in x.name && NUL !in x.name && AMP !in x.val && NUL !in x.val
  }

  /** strchr stops at the end of a stretch that has neither c nor NUL. */
  lemma {:induction false} StrChrBehind(before: seq<Byte>, mid: seq<Byte>, rest: seq<Byte>, c: Byte, i: nat)
    requires i <= |mid| && c !in mid && NUL !in mid && (rest == [] || rest[0] == c) && c != NUL
    ensures StrChr(before + mid + rest, c, |before| + i) ==
            if rest == [] then None else Some(|before + mid|)
    decreases |mid| - i
  {
    var s := before + mid + rest;
    if i < |mid| {
      assert s[|before| + i] == mid[i];
      StrChrBehind(before, mid, rest, c, i + 1);
    }
  }

  /** Where the separators of a printed pair are found. */
  lemma Separators(before: seq<Byte>, x: Pair, rest: seq<Byte>, qs: seq<Byte>)
    requires Printable(x) && (rest == [] || rest[0] == AMP) && qs == before + PrintPair(x) + rest
    ensures StrChr(qs, COLON, |before|) == Some(|before| + |x.name|)
    ensures StrChr(qs, AMP, |before| + |x.name| + 1) ==
            if rest == [] then None else Some(|before| + |x.name| + 1 + |x.val|)
  {
    var start := before + x.name + [COLON];
    var behind := [COLON] + x.val + rest;
    assert qs == before + x.name + behind by {
      assert PrintPair(x) + rest == x.name + behind;
    }
    StrChrBehind(before, x.name, behind, COLON, 0);
    assert qs == start + x.val + rest;
    StrChrBehind(start, x.val, rest, AMP, 0);
  }

  lemma Slices(before: seq<Byte>, x: Pair, rest: seq<Byte>, qs: seq<Byte>)
    requires qs == before + PrintPair(x) + rest
    ensures var colon := |before| + |x.name|;
      qs[|before|..colon] == x.name && qs[colon + 1..colon + 1 + |x.val|] == x.val
  {
  }

  /** One pair is read, and the separator behind it is skipped. */
  lemma OnePair(before: seq<Byte>, x: Pair, rest: seq<Byte>, qs: seq<Byte>)
    requires Printable(x) && (rest == [] || rest[0] == AMP) && qs == before + PrintPair(x) + rest
    ensures ReadPair(qs, |before|) ==
            Set(x, if rest == [] then |qs| else |before + PrintPair(x)| + 1)
  {
    Separators(before, x, rest, qs);
    Slices(before, x, rest, qs);
    var val := |before| + |x.name| + 1;
    assert rest == [] ==> qs[val..val + |x.val|] == qs[val..];
  }

  /** The first of several printed pairs is read, and the others are left. */
  lemma FirstPair(before: seq<Byte>, xs: seq<Pair>, upTo: seq<Byte>)
    requires |xs| > 1 && Printable(xs[0]) && upTo == before + PrintPair(xs[0]) + [AMP]
    ensures before + PrintPairs(xs) == upTo + PrintPairs(xs[1..])
    ensures ReadPair(before + PrintPairs(xs), |before|) == Set(xs[0], |upTo|)
  {
    var first, others := PrintPair(xs[0]), PrintPairs(xs[1..]);
    Regroup(before, first, others);
    OnePair(before, xs[0], [AMP] + others, before + PrintPairs(xs));
  }

  lemma Regroup(before: seq<Byte>, first: seq<Byte>, others: seq<Byte>)
    ensures before + (first + [AMP] + others) == before + first + ([AMP] + others)
    ensures before + (first + [AMP] + others) == before + first + [AMP] + others
  {
  }

  /** The parser inverts the printer: exactly the printed pairs are set, in order. */
  lemma {:induction false} PairsOfPrint(before: seq<Byte>, xs: seq<Pair>)
    requires forall i :: 0 <= i < |xs| ==> Printable(xs[i])
    ensures Pairs(before + PrintPairs(xs), |before|) == xs
    decreases |xs|
  {
    if |xs| == 1 {
      assert before + PrintPairs(xs) == before + PrintPair(xs[0]) + [];
      OnePair(before, xs[0], [], before + PrintPairs(xs));
      assert xs == [xs[0]];
    } else if |xs| > 1 {
      var upTo := before + PrintPair(xs[0]) + [AMP];
      FirstPair(before, xs, upTo);
      PairsOfPrint(upTo, xs[1..]);
      assert xs == [xs[0]] + xs[1..];
    }
  }

  lemma {:induction false} StrChrMissing(s: seq<Byte>, c: Byte, from: nat)
    requires from <= |s| && c !in s[from..]
    ensures StrChr(s, c, from) == None
    decreases |s| - from
  {
    if from < |s| {
      assert s[from] == s[from..][0] && s[from + 1..] == s[from..][1..];
      StrChrMissing(s, c, from + 1);
    }
  }

  /** Without a colon nothing is set ... */
  lemma NoColonSetsNothing(qs: seq<Byte>, p: nat)
    requires p <= |qs| && COLON !in qs[p..]
    ensures Pairs(qs, p) == []
  {
    StrChrMissing(qs, COLON, p);
  }

  /** ... nor behind a byte NUL, whatever follows. */
  lemma NulSetsNothing(qs: seq<Byte>, p: nat)
    requires p < |qs| && qs[p] == NUL
    ensures Pairs(qs, p) == []
  {
  }

  /** Behind printed pairs, a rest without a colon ends the list. */
  lemma {:induction false} RestIsIgnored(before: seq<Byte>, xs: seq<Pair>, rest: seq<Byte>)
    requires xs != [] && forall i :: 0 <= i < |xs| ==> Printable(xs[i])
    requires COLON !in rest
    ensures Pairs(before + PrintPairs(xs) + ([AMP] + rest), |before|) == xs
    decreases |xs|
  {
    if |xs| == 1 {
      OneThenRest(before, xs[0], rest, before + PrintPairs(xs) + ([AMP] + rest));
      assert xs == [xs[0]];
    } else {
      var upTo, qs := before + PrintPair(xs[0]) + [AMP], before + PrintPairs(xs) + ([AMP] + rest);
      assert Pairs(qs, |upTo|) == xs[1..] && ReadPair(qs, |before|) == Set(xs[0], |upTo|) by {
        FirstOfMore(before, xs, upTo, [AMP] + rest);
        RestIsIgnored(upTo, xs[1..], rest);
      }
      assert Pairs(qs, |before|) == [xs[0]] + xs[1..];
    }
  }

  lemma OneThenRest(before: seq<Byte>, x: Pair, rest: seq<Byte>, qs: seq<Byte>)
    requires Printable(x) && COLON !in rest && qs == before + PrintPair(x) + ([AMP] + rest)
    ensures Pairs(qs, |before|) == [x]
  {
    var next := |before + PrintPair(x)| + 1;
    assert ReadPair(qs, |before|) == Set(x, next) by {
      OnePair(before, x, [AMP] + rest, qs);
    }
    assert Pairs(qs, next) == [] by {
      LastRest(before + PrintPair(x), rest, qs);
      NoColonSetsNothing(qs, next);
    }
  }

  lemma LastRest(upTo: seq<Byte>, rest: seq<Byte>, qs: seq<Byte>)
    requires qs == upTo + ([AMP] + rest)
    ensures |upTo| + 1 <= |qs| && qs[|upTo| + 1..] == rest
  {
  }

  lemma FirstOfMore(before: seq<Byte>, xs: seq<Pair>, upTo: seq<Byte>, tail: seq<Byte>)
    requires |xs| > 1 && Printable(xs[0]) && upTo == before + PrintPair(xs[0]) + [AMP]
    ensures before + PrintPairs(xs) + tail == upTo + PrintPairs(xs[1..]) + tail
    ensures ReadPair(before + PrintPairs(xs) + tail, |before|) == Set(xs[0], |upTo|)
  {
    var first, others := PrintPair(xs[0]), PrintPairs(xs[1..]);
    RegroupRest(before, first, others, tail);
    OnePair(before, xs[0], [AMP] + (others + tail), before + PrintPairs(xs) + tail);
  }

  lemma RegroupRest(before: seq<Byte>, first: seq<Byte>, others: seq<Byte>, rest: seq<Byte>)
    ensures before + (first + [AMP] + others) + rest == before + first + ([AMP] + (others + rest))
    ensures before + (first + [AMP] + others) + rest == before + first + [AMP] + others + rest
  {
  }

  lemma {:induction false} AllFitting(xs: seq<Pair>)
    requires forall i :: 0 <= i < |xs| ==> Fits(xs[i])
    ensures Fitting(xs) == xs
  {
    if xs != [] {
      AllFitting(xs[1..]);
    }
  }

  /** The buffers take names and values of up to 127 bytes. */
  lemma FitsMeans(x: Pair)
    ensures Fits(x) <==> |x.name| <= 127 && |x.val| <= 127
  {
  }

  lemma Characters()
    ensures [COLON, AMP] == [':' as int, '&' as int]
    ensures [EQUALS, LOWER_W, LOWER_H] == ['=' as int, 'w' as int, 'h' as int]
    ensures NUL == 0 && LS_FAIL == -1
  {
  }

  /** Printed pairs that fit are all set, and no buffer is overrun. */
  lemma PrintedPairsAreSet(xs: seq<Pair>)
    requires forall i :: 0 <= i < |xs| ==> Printable(xs[i]) && Fits(xs[i])
    ensures Fitting(Pairs(PrintPairs(xs), 0)) == Pairs(PrintPairs(xs), 0) == xs
  {
    PairsOfPrint([], xs);
    assert [] + PrintPairs(xs) == PrintPairs(xs);
    AllFitting(xs);
  }
}
