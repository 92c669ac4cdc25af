/** The array lengths the benchmark sweeps over: the even numbers 2..10,
    then the nine multiples 2..10 of each power of ten up to `10^maxPow`. */
module Lengths {
  import opened Seqs

  /** `10^e`. */
  function Pow10(e: nat): (r: nat)
    ensures r >= 1
  {
    if e == 0 then 1 else 10 * Pow10(e - 1)
  }

  /** `10^e` is twice a whole number from `e = 1` on and four times one
      from `e = 2` on. */
  lemma Pow10Factors(e: nat)
    ensures e >= 1 ==> Pow10(e) == 2 * (5 * Pow10(e - 1))
    ensures e >= 2 ==> Pow10(e) == 4 * (25 * Pow10(e - 2))
  {
    if e >= 2 {
      assert Pow10(e - 1) == 10 * Pow10(e - 2);
    }
  }

  /** The small even lengths that always come first. */
  const SmallLengths: seq<nat> := [2, 4, 6, 8, 10]

  /** Entry `k` of the block for exponent `p`: `(k + 2) * 10^(p + 1)`. */
  function DecadeEntry(p: nat, k: nat): nat {
    (k + 2) * Pow10(p + 1)
  }

  /** The block written for loop index `p`: `2..10` scaled by `10^(p + 1)`. */
  function Decade(p: nat): (r: seq<nat>)
    ensures |r| == 9
    ensures forall k :: 0 <= k < 9 ==> r[k] == DecadeEntry(p, k)
  {
    seq(9, k requires 0 <= k < 9 => DecadeEntry(p, k))
  }

  /** Neighbouring entries of a block differ by the block's scale, and the
      next block starts above the end of this one. */
  lemma DecadeSteps(p: nat, k: nat)
    ensures DecadeEntry(p, k + 1) == DecadeEntry(p, k) + Pow10(p + 1)
    ensures DecadeEntry(p + 1, 0) == 2 * DecadeEntry(p, 8)
  {
    var scale := Pow10(p + 1);
    assert Pow10(p + 2) == 10 * scale;
  }

  /** Closed form of the `i`-th length, independent of how the sequence is
      assembled: the `i`-th even number below 12, else the `(i - 5) % 9`-th
      multiple in decade `(i - 5) / 9`. */
  function LengthAt(i: nat): nat {
    if i < 5 then 2 * (i + 1) else DecadeEntry((i - 5) / 9, (i - 5) % 9)
  }

  /** The length array, assembled block by block as the fill loop does. */
  function ArrayLengths(maxPow: nat): (r: seq<nat>)
    requires maxPow >= 1
    ensures |r| == 5 + 9 * (maxPow - 1)
    ensures forall i :: 0 <= i < |r| ==> r[i] == LengthAt(i)
  {
    if maxPow == 1 then SmallLengths
    else
      var prefix := ArrayLengths(maxPow - 1);
      var block := Decade(maxPow - 2);
      var r := prefix + block;
      assert forall i :: |prefix| <= i < |r| ==> r[i] == LengthAt(i) by {
        forall i | |prefix| <= i < |r|
          ensures r[i] == LengthAt(i)
        {
          DecadeIndex(maxPow - 2, i);
        }
      }
      r
  }

  /** Index `i` lies in block `p`, at offset `(i - 5) % 9`. */
  lemma DecadeIndex(p: nat, i: nat)
    requires 5 + 9 * p <= i < 5 + 9 * p + 9
    ensures (i - 5) / 9 == p
    ensures (i - 5) % 9 == i - 5 - 9 * p
  {
  }

  /** Consecutive closed-form lengths increase. */
  lemma LengthAtStep(i: nat)
    ensures LengthAt(i) < LengthAt(i + 1)
  {
    if i == 4 {
      assert LengthAt(5) == DecadeEntry(0, 0) == 2 * Pow10(1);
    } else if i >= 5 {
      var p, k := (i - 5) / 9, (i - 5) % 9;
      DecadeIndex(p, i);
      DecadeSteps(p, k);
      assert LengthAt(i) == DecadeEntry(p, k);
      if k == 8 {
        DecadeIndex(p + 1, i + 1);
        assert LengthAt(i + 1) == DecadeEntry(p + 1, 0);
      } else {
        DecadeIndex(p, i + 1);
        assert LengthAt(i + 1) == DecadeEntry(p, k + 1);
      }
    }
  }

  /** The closed form is strictly increasing over all indices. */
  lemma {:induction false} LengthAtMonotone(i: nat, j: nat)
    requires i < j
    ensures LengthAt(i) < LengthAt(j)
    decreases j - i
  {
    LengthAtStep(i);
    if i + 1 < j {
      LengthAtMonotone(i + 1, j);
    }
  }

  /** Every closed-form length is even and positive. */
  lemma LengthAtEven(i: nat)
    ensures LengthAt(i) % 2 == 0
    ensures LengthAt(i) >= 2
  {
    if i >= 5 {
      DecadeEntryEven((i - 5) / 9, (i - 5) % 9);
    }
  }

  /** Every block entry is a positive even number. */
  lemma DecadeEntryEven(p: nat, k: nat)
    ensures DecadeEntry(p, k) % 2 == 0
    ensures DecadeEntry(p, k) >= 2
  {
    var y := 5 * Pow10(p);
    Pow10Factors(p + 1);
    assert DecadeEntry(p, k) == (k + 2) * (2 * y) == 2 * ((k + 2) * y);
  }


  /** Strictly increasing, so in particular duplicate-free. */
  lemma LengthsIncreasing(maxPow: nat)
    requires maxPow >= 1
    ensures forall i, j :: 0 <= i < j < |ArrayLengths(maxPow)| ==> ArrayLengths(maxPow)[i] < ArrayLengths(maxPow)[j]
    ensures NoDup(ArrayLengths(maxPow))
  {
    var r := ArrayLengths(maxPow);
    forall i, j | 0 <= i < j < |r|
      ensures r[i] < r[j]
    {
      LengthAtMonotone(i, j);
    }
  }

  /** Every length is a positive even number, as median-killer inputs need. */
  lemma LengthsEven(maxPow: nat)
    requires maxPow >= 1
    ensures forall i :: 0 <= i < |ArrayLengths(maxPow)| ==> ArrayLengths(maxPow)[i] % 2 == 0 && ArrayLengths(maxPow)[i] >= 2
  {
    forall i | 0 <= i < |ArrayLengths(maxPow)|
      ensures ArrayLengths(maxPow)[i] % 2 == 0 && ArrayLengths(maxPow)[i] >= 2
    {
      LengthAtEven(i);
    }
  }

  /** The shape promised by the array's documentation: `2, 4, 6, 8, 10`
      first, block `p` at offset `5 + 9p` holding `k * 10^(p+1)` for
      `k = 2..10`, ending with `9 * 10^(maxPow-1), 10^maxPow`. */
  lemma LengthsLayout(maxPow: nat)
    requires maxPow >= 1
    ensures ArrayLengths(maxPow)[..5] == [2, 4, 6, 8, 10]
    ensures forall p, k :: 0 <= p < maxPow - 1 && 0 <= k < 9 ==>
              ArrayLengths(maxPow)[5 + 9 * p + k] == DecadeEntry(p, k)
    ensures ArrayLengths(maxPow)[|ArrayLengths(maxPow)| - 1] == Pow10(maxPow)
    ensures maxPow >= 2 ==> ArrayLengths(maxPow)[|ArrayLengths(maxPow)| - 2] == 9 * Pow10(maxPow - 1)
  {
    var r := ArrayLengths(maxPow);
    assert r[..5] == [2, 4, 6, 8, 10] by {
      assert forall i :: 0 <= i < 5 ==> r[i] == 2 * (i + 1);
    }
    forall p, k | 0 <= p < maxPow - 1 && 0 <= k < 9
      ensures r[5 + 9 * p + k] == DecadeEntry(p, k)
    {
      DecadeIndex(p, 5 + 9 * p + k);
    }
    if maxPow >= 2 {
      DecadeIndex(maxPow - 2, |r| - 1);
      DecadeIndex(maxPow - 2, |r| - 2);
      assert r[|r| - 1] == 10 * Pow10(maxPow - 1);
    }
  }

  /** In block 0 the entries are `20, 30, ..., 100`; the odd multiples of
      ten are the ones that are `2 (mod 4)`. */
  lemma FirstDecadeTwoModFour(k: nat)
    requires k < 9
    ensures (10 * k + 20) % 4 == 2 <==> k % 2 == 1
  {
    var q := k / 2;
    if k % 2 == 0 {
      assert 10 * k + 20 == 4 * (5 * q + 5);
    } else {
      assert 10 * k + 20 == 4 * (5 * q + 7) + 2;
    }
  }

  /** From block 1 on, every entry is a multiple of 100, hence of 4. */
  lemma LaterDecadeMultipleOfFour(p: nat, k: nat)
    requires p >= 1
    ensures DecadeEntry(p, k) % 4 == 0
  {
    var q := 25 * Pow10(p - 1);
    Pow10Factors(p + 1);
    assert DecadeEntry(p, k) == (k + 2) * (4 * q) == 4 * ((k + 2) * q);
  }

  /** A closed-form length is `2 (mod 4)` exactly at the even indices below
      thirteen; from block 1 on every entry is a multiple of 100. */
  lemma LengthAtTwoModFour(i: nat)
    ensures LengthAt(i) % 4 == 2 <==> i < 13 && i % 2 == 0
  {
    if i >= 5 {
      var p, k := (i - 5) / 9, (i - 5) % 9;
      DecadeIndex(p, i);
      if p == 0 {
        assert LengthAt(i) == 10 * k + 20;
        FirstDecadeTwoModFour(k);
      } else {
        LaterDecadeMultipleOfFour(p, k);
      }
    }
  }

  /** The values at the even indices below 13. */
  lemma SmallTwoModFour(i: nat)
    requires i < 13 && i % 2 == 0
    ensures LengthAt(i) in {2, 6, 10, 30, 50, 70, 90}
  {
    if i >= 5 {
      DecadeIndex(0, i);
      assert Pow10(1) == 10;
      assert LengthAt(i) == (i - 3) * 10;
    }
  }

  /** The generated lengths that are `2 (mod 4)` are 2, 6, 10, 30, 50, 70
      and 90, and all of them are generated once `maxPow >= 2`. */
  lemma LengthsTwoModFour(maxPow: nat)
    requires maxPow >= 1
    ensures forall i :: 0 <= i < |ArrayLengths(maxPow)| ==>
              (ArrayLengths(maxPow)[i] % 4 == 2 <==> i < 13 && i % 2 == 0)
    ensures forall n :: n in ArrayLengths(maxPow) && n % 4 == 2 ==> n in {2, 6, 10, 30, 50, 70, 90}
    ensures maxPow >= 2 ==> forall n :: n in {2, 6, 10, 30, 50, 70, 90} ==> n in ArrayLengths(maxPow)
  {
    var r := ArrayLengths(maxPow);
    forall i | 0 <= i < |r|
      ensures r[i] % 4 == 2 <==> i < 13 && i % 2 == 0
    {
      LengthAtTwoModFour(i);
    }
    forall n | n in r && n % 4 == 2
      ensures n in {2, 6, 10, 30, 50, 70, 90}
    {
      var i :| 0 <= i < |r| && r[i] == n;
      LengthAtTwoModFour(i);
      SmallTwoModFour(i);
    }
    if maxPow >= 2 {
      assert r[6] == 30 && r[8] == 50 && r[10] == 70 && r[12] == 90;
      assert r[0] == 2 && r[2] == 6 && r[4] == 10;
    }
  }

  /** The largest value of `numpy.int_`, a signed 64-bit integer. */
  const Int64Max: int := 0x7FFF_FFFF_FFFF_FFFF

  /** The value a signed 64-bit store keeps of `v`: numpy's integer
      arithmetic wraps modulo `2^64` into `-2^63 .. 2^63 - 1`. */
  function ToInt64(v: int): (r: int)
    ensures -Int64Max - 1 <= r <= Int64Max
    ensures (v - r) % 0x1_0000_0000_0000_0000 == 0
    ensures -Int64Max - 1 <= v <= Int64Max ==> r == v
  {
    var m := v % 0x1_0000_0000_0000_0000;
    assert v == 0x1_0000_0000_0000_0000 * (v / 0x1_0000_0000_0000_0000) + m;
    if m > Int64Max then m - 0x1_0000_0000_0000_0000 else m
  }

  /** `10^(a + b) = 10^a * 10^b`. */
  lemma {:induction false} Pow10Sum(a: nat, b: nat)
    ensures Pow10(a + b) == Pow10(a) * Pow10(b)
    decreases b
  {
    if b > 0 {
      Pow10Sum(a, b - 1);
      assert Pow10(a + b) == 10 * Pow10(a + b - 1);
    }
  }

  /** `10^e` grows with `e`. */
  lemma {:induction false} Pow10Monotone(a: nat, b: nat)
    requires a <= b
    ensures Pow10(a) <= Pow10(b)
    decreases b - a
  {
    if a < b {
      Pow10Monotone(a, b - 1);
    }
  }

  /** The two powers of ten around the top of `numpy.int_`. */
  lemma Pow10NearInt64Max()
    ensures Pow10(18) == 1_000_000_000_000_000_000 <= Int64Max
    ensures Pow10(19) == 10_000_000_000_000_000_000 > Int64Max
  {
    Pow10Sum(6, 6);
    Pow10Sum(12, 6);
    assert Pow10(6) == 1_000_000;
  }

  /** `10^19` lies between `2^63` and `2^64`, so a 64-bit store keeps it
      as `10^19 - 2^64`. */
  lemma TenToNineteenWraps()
    ensures ToInt64(10_000_000_000_000_000_000) == -8446744073709551616
  {
    var v := 10_000_000_000_000_000_000;
    assert v == 0x1_0000_0000_0000_0000 * 0 + v;
  }

  /** The last and largest length, `10^maxPow`, fits `numpy.int_`
      exactly when `maxPow <= 18`. */
  lemma LastLengthFits(maxPow: nat)
    requires maxPow >= 1
    ensures ArrayLengths(maxPow)[|ArrayLengths(maxPow)| - 1] <= Int64Max <==> maxPow <= 18
  {
    LengthsLayout(maxPow);
    Pow10NearInt64Max();
    if maxPow <= 18 {
      Pow10Monotone(maxPow, 18);
    } else {
      Pow10Monotone(19, maxPow);
    }
  }

  /** Entry `i` of a length array with `maxPow <= 18` is stored exactly. */
  lemma LengthFitsInt64(maxPow: nat, i: nat)
    requires 1 <= maxPow <= 18
    requires i < |ArrayLengths(maxPow)|
    ensures ToInt64(ArrayLengths(maxPow)[i]) == ArrayLengths(maxPow)[i]
  {
    var r := ArrayLengths(maxPow);
    var last := |r| - 1;
    LastLengthFits(maxPow);
    if i < last {
      LengthAtMonotone(i, last);
    }
  }

  /** The lengths are exact in the script's `numpy.int_` array up to
      `maxPow = 18`. From 19 on the last entry, `10^maxPow`, exceeds the
      type; at 19 the stored value wraps to a negative number. */
  lemma LengthsFitInt64(maxPow: nat)
    requires maxPow >= 1
    ensures maxPow <= 18 ==> forall i :: 0 <= i < |ArrayLengths(maxPow)| ==>
              ToInt64(ArrayLengths(maxPow)[i]) == ArrayLengths(maxPow)[i]
    ensures maxPow >= 19 ==> ArrayLengths(maxPow)[|ArrayLengths(maxPow)| - 1] > Int64Max
    ensures maxPow == 19 ==> ToInt64(ArrayLengths(19)[|ArrayLengths(19)| - 1]) == -8446744073709551616
  {
    if maxPow <= 18 {
      forall i | 0 <= i < |ArrayLengths(maxPow)|
        ensures ToInt64(ArrayLengths(maxPow)[i]) == ArrayLengths(maxPow)[i]
      {
        LengthFitsInt64(maxPow, i);
      }
    } else {
      var r := ArrayLengths(maxPow);
      LastLengthFits(maxPow);
      if maxPow == 19 {
        LengthsLayout(maxPow);
        Pow10NearInt64Max();
        assert r[|r| - 1] == 10_000_000_000_000_000_000;
        TenToNineteenWraps();
      }
    }
  }
}
