/** Binary numerals of fixed width, most significant digit first.

    The path enumerator walks a binary decision tree depth first, taking the
    "stay" branch (digit 0) before the "advance" branch (digit 1). The i-th path
    it emits therefore follows the choices spelled by the width-`rows` binary
    numeral of i. This module defines those numerals, their inverse, and the
    number of 1-digits of a natural number.
 */
module Binary {

  function Pow2(n: nat): (r: nat)
    ensures r >= 1
  {
    if n == 0 then 1 else 2 * Pow2(n - 1)
  }

  /** Every element is a binary digit. */
  predicate IsBinary(c: seq<int>) {
    forall k :: 0 <= k < |c| ==> c[k] == 0 || c[k] == 1
  }

  /** The width-n numeral of i, most significant digit first. */
  function Bits(i: nat, n: nat): (r: seq<int>)
    requires i < Pow2(n)
    ensures |r| == n
    ensures IsBinary(r)
    decreases n
  {
    if n == 0 then []
    else if i < Pow2(n - 1) then [0] + Bits(i, n - 1)
    else [1] + Bits(i - Pow2(n - 1), n - 1)
  }

  /** The value of a numeral read most significant digit first. */
  function FromBits(c: seq<int>): (r: nat)
    requires IsBinary(c)
    ensures r < Pow2(|c|)
  {
    if |c| == 0 then 0
    else c[0] * Pow2(|c| - 1) + FromBits(c[1..])
  }

  /** Reading back the numeral of i gives i. */
  lemma {:induction false} FromBitsOfBits(i: nat, n: nat)
    requires i < Pow2(n)
    ensures FromBits(Bits(i, n)) == i
    decreases n
  {
    if n > 0 {
      if i < Pow2(n - 1) {
        FromBitsOfBits(i, n - 1);
        assert Bits(i, n)[1..] == Bits(i, n - 1);
      } else {
        FromBitsOfBits(i - Pow2(n - 1), n - 1);
        assert Bits(i, n)[1..] == Bits(i - Pow2(n - 1), n - 1);
      }
    }
  }

  /** Writing out the value of a numeral at its own width gives the numeral back. */
  lemma {:induction false} BitsOfFromBits(c: seq<int>)
    requires IsBinary(c)
    ensures Bits(FromBits(c), |c|) == c
  {
    if |c| > 0 {
      var n := |c|;
      var tail := c[1..];
      var half := Pow2(n - 1);
      var rest := FromBits(tail);
      BitsOfFromBits(tail);
      assert FromBits(c) == c[0] * half + rest;
      if c[0] == 0 {
        assert FromBits(c) == rest < half;
        assert Bits(FromBits(c), n) == [0] + Bits(rest, n - 1);
      } else {
        assert FromBits(c) - half == rest;
        assert Bits(FromBits(c), n) == [1] + Bits(rest, n - 1);
      }
      assert c == [c[0]] + tail;
    }
  }

  /** Distinct numbers have distinct numerals of the same width. */
  lemma BitsInjective(i: nat, j: nat, n: nat)
    requires i < Pow2(n) && j < Pow2(n)
    requires Bits(i, n) == Bits(j, n)
    ensures i == j
  {
    FromBitsOfBits(i, n);
    FromBitsOfBits(j, n);
  }

  /** The number of 1-digits in the binary representation of i. */
  function Ones(i: nat): nat {
    if i == 0 then 0 else i % 2 + Ones(i / 2)
  }

  /** Sum of the elements of a sequence. */
  function Sum(c: seq<int>): int {
    if |c| == 0 then 0 else c[0] + Sum(c[1..])
  }

  /** Setting the bit of weight 2^m, above every bit of j, adds one 1-digit. */
  lemma {:induction false} OnesAddTopBit(m: nat, j: nat)
    requires j < Pow2(m)
    ensures Ones(Pow2(m) + j) == 1 + Ones(j)
  {
    if m == 0 {
      assert j == 0;
      assert Ones(1) == 1 % 2 + Ones(0);
    } else {
      var q := Pow2(m - 1);
      var n := Pow2(m) + j;
      assert n == 2 * q + j;
      assert n % 2 == j % 2;
      assert n / 2 == q + j / 2;
      assert Ones(n) == n % 2 + Ones(n / 2);
      OnesAddTopBit(m - 1, j / 2);
      assert Ones(j) == j % 2 + Ones(j / 2);
    }
  }

  /** The digits of the numeral of i add up to the number of 1-digits of i. */
  lemma {:induction false} SumBitsIsOnes(i: nat, n: nat)
    requires i < Pow2(n)
    ensures Sum(Bits(i, n)) == Ones(i)
    decreases n
  {
    if n > 0 {
      if i < Pow2(n - 1) {
        SumBitsIsOnes(i, n - 1);
        assert Bits(i, n)[1..] == Bits(i, n - 1);
      } else {
        var j := i - Pow2(n - 1);
        SumBitsIsOnes(j, n - 1);
        assert Bits(i, n)[1..] == Bits(j, n - 1);
        OnesAddTopBit(n - 1, j);
      }
    }
  }

  /** Bit b of i: the lowest digit of i shifted right by b places. */
  function Bit(i: nat, b: nat): int {
    if b == 0 then i % 2 else Bit(i / 2, b - 1)
  }

  /** Below 2^(b+1), bit b is set exactly from 2^b on. */
  lemma {:induction false} TopBit(i: nat, b: nat)
    requires i < 2 * Pow2(b)
    ensures Bit(i, b) == if i >= Pow2(b) then 1 else 0
  {
    if b > 0 {
      TopBit(i / 2, b - 1);
    }
  }

  /** Adding 2^m does not change any bit below bit m. */
  lemma {:induction false} BitIgnoresHigher(i: nat, m: nat, b: nat)
    requires b < m
    ensures Bit(i + Pow2(m), b) == Bit(i, b)
  {
    var p := Pow2(m - 1);
    assert i + Pow2(m) == i + 2 * p;
    if b > 0 {
      assert (i + 2 * p) / 2 == i / 2 + p;
      BitIgnoresHigher(i / 2, m - 1, b - 1);
    }
  }

  /** Digit k of the width-n numeral of i is bit n-1-k of i. */
  lemma {:induction false} BitsAreBits(i: nat, n: nat, k: nat)
    requires i < Pow2(n) && k < n
    ensures Bits(i, n)[k] == Bit(i, n - 1 - k)
    decreases n
  {
    var half := Pow2(n - 1);
    if k == 0 {
      TopBit(i, n - 1);
    } else if i < half {
      BitsAreBits(i, n - 1, k - 1);
    } else {
      BitsAreBits(i - half, n - 1, k - 1);
      BitIgnoresHigher(i - half, n - 1, n - 1 - k);
    }
  }
}
