/** Bytes and byte strings, shared by the stream and string modules. */
module Bytes {

  type Byte = b: int | 0 <= b < 256

  function Min(a: int, b: int): int {
    if a < b then a else b
  }

  /** The parts one after the other. */
  function Flat(parts: seq<seq<Byte>>): seq<Byte> {
    if parts == [] then [] else parts[0] + Flat(parts[1..])
  }

  lemma {:induction false} FlatConcat(parts: seq<seq<Byte>>, more: seq<seq<Byte>>)
    ensures Flat(parts + more) == Flat(parts) + Flat(more)
  {
    if parts == [] {
      assert parts + more == more;
    } else {
      assert (parts + more)[1..] == parts[1..] + more;
      FlatConcat(parts[1..], more);
    }
  }
}

/** Decimal numbers as printf writes them. */
module Decimals {
  import opened Bytes

  const ZERO: Byte := 48   // '0'

  predicate IsDigit(c: Byte) { ZERO <= c <= ZERO + 9 }

  /** The decimal digits of n. */
  function Decimal(n: nat): (s: seq<Byte>)
    ensures |s| >= 1 && AllDigits(s)
  {
    if n < 10 then [ZERO + n] else Decimal(n / 10) + [ZERO + n % 10]
  }

  predicate AllDigits(s: seq<Byte>) {
    forall i :: 0 <= i < |s| ==> IsDigit(s[i])
  }

  /** What the digit c adds. */
  function DigitValue(c: Byte): nat
    requires IsDigit(c)
  {
    c - ZERO
  }

  /** A digit is a character of "0123456789", and its value is where it stands there. */
  lemma DigitsAre(c: Byte)
    ensures IsDigit(c) <==> c as char in "0123456789"
    ensures IsDigit(c) ==> DigitValue(c) < 10 && c as char == "0123456789"[DigitValue(c)]
  {
    var digits := "0123456789";
    assert IsDigit(c) ==> digits[c - 48] == c as char;
  }

  /** Reading digits behind the value v. */
  function Value(v: nat, s: seq<Byte>): nat
    requires AllDigits(s)
    decreases |s|
  {
    if s == [] then v else Value(v * 10 + DigitValue(s[0]), s[1..])
  }

  lemma {:induction false} ValueConcat(v: nat, s: seq<Byte>, t: seq<Byte>)
    requires AllDigits(s) && AllDigits(t)
    ensures Value(v, s + t) == Value(Value(v, s), t)
    decreases |s|
  {
    if s == [] {
      assert s + t == t;
    } else {
      assert (s + t)[1..] == s[1..] + t;
      ValueConcat(v * 10 + DigitValue(s[0]), s[1..], t);
    }
  }

  /** Numbers are printed without leading zeros. */
  lemma {:induction false} DecimalStartsNonZero(n: nat)
    requires n > 0
    ensures Decimal(n)[0] != ZERO
  {
    if n >= 10 {
      DecimalStartsNonZero(n / 10);
    }
  }

  lemma {:induction false} ValueOfDecimal(n: nat)
    ensures Value(0, Decimal(n)) == n
  {
    if n >= 10 {
      ValueOfDecimal(n / 10);
      ValueConcat(0, Decimal(n / 10), [ZERO + n % 10]);
    }
  }

  /** Leading zeros do not count. */
  lemma {:induction false} ValueOfZeros(z: seq<Byte>, s: seq<Byte>)
    requires AllDigits(s) && forall i :: 0 <= i < |z| ==> z[i] == ZERO
    ensures AllDigits(z + s) && Value(0, z + s) == Value(0, s)
    decreases |z|
  {
    if z == [] {
      assert z + s == s;
    } else {
      assert (z + s)[1..] == z[1..] + s;
      ValueOfZeros(z[1..], s);
    }
  }

  /** n is printed in at most k digits exactly if it is below ten to the k. */
  lemma {:induction false} DecimalLength(n: nat, k: nat)
    requires k > 0
    ensures |Decimal(n)| <= k <==> n < Pow10(k)
    decreases k
  {
    if k == 1 {
      assert Pow10(1) == 10 * Pow10(0);
    } else if n >= 10 {
      DecimalLength(n / 10, k - 1);
    } else {
      TenUp(k);
    }
  }

  function Pow10(k: nat): nat {
    if k == 0 then 1 else 10 * Pow10(k - 1)
  }

  lemma {:induction false} TenUp(k: nat)
    requires k > 0
    ensures Pow10(k) >= 10
  {
    if k > 1 {
      TenUp(k - 1);
    }
  }
}
