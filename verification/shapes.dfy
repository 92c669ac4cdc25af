/** The array shapes fed to the sorts: the identity, the reversal, the
    (broken) shuffle and the median-of-three killer, each applied to the
    ascending array `0, 1, ..., n - 1`. */
module Shapes {
  import opened Seqs

  /** The keys of the generator dictionary, in insertion order. */
  datatype Shape = Sorted | Reversed | Random | MedianKiller

  /** The label a shape carries in the result table's `type` level. */
  function ShapeName(shape: Shape): string {
    match shape
    case Sorted => "sorted"
    case Reversed => "reversed"
    case Random => "random"
    case MedianKiller => "median-killer"
  }

  /** Dictionary order of the generators; also the innermost loop order. */
  const AllShapes: seq<Shape> := [Sorted, Reversed, Random, MedianKiller]

  /** What a generator hands back: an array, Python's `None`, or the
      `ValueError` numpy raises when asked to stack rows of unequal length. */
  datatype Generated<T> =
    | Array(elems: seq<T>)
    | NoArray
    | StackMismatch(lowCount: nat, highCount: nat)

  /** The input every generator receives: `numpy.arange(n)`. */
  function Canonical(n: nat): (r: seq<int>)
    ensures |r| == n
    ensures forall i :: 0 <= i < n ==> r[i] == i
  {
    seq(n, i requires 0 <= i < n => i)
  }

  /** `s[::2]`: every element at an even position. */
  function EveryOther<T>(s: seq<T>): (r: seq<T>)
    ensures |r| == (|s| + 1) / 2
    decreases |s|
  {
    if |s| <= 1 then s else [s[0]] + EveryOther(s[2..])
  }

  /** Element `i` of `s[::2]` is `s[2i]`. */
  lemma {:induction false} EveryOtherAt<T>(s: seq<T>, i: nat)
    requires i < |EveryOther(s)|
    ensures EveryOther(s)[i] == s[2 * i]
    decreases i
  {
    if i > 0 {
      EveryOtherAt(s[2..], i - 1);
    }
  }

  /** `x[start:stop:2]` for non-negative bounds: Python clamps both bounds
      to the length and yields nothing when `start >= stop`. */
  function Slice2<T>(x: seq<T>, start: nat, stop: nat): (r: seq<T>)
    ensures stop <= |x| && start <= stop ==> |r| == (stop - start + 1) / 2
    ensures stop <= start ==> r == []
    ensures |x| <= stop && start <= |x| ==> |r| == (|x| - start + 1) / 2
  {
    var hi := if stop < |x| then stop else |x|;
    var lo := if start < hi then start else hi;
    EveryOther(x[lo..hi])
  }

  /** Element `i` of an in-range `x[start:stop:2]` is `x[start + 2i]`. */
  lemma Slice2At<T>(x: seq<T>, start: nat, stop: nat, i: nat)
    requires start <= stop <= |x|
    requires i < |Slice2(x, start, stop)|
    ensures start + 2 * i < stop
    ensures Slice2(x, start, stop)[i] == x[start + 2 * i]
  {
    EveryOtherAt(x[start..stop], i);
  }

  /** Alternates `a[0], b[0], a[1], b[1], ...` and appends whatever is left
      of the longer one. On equal lengths this is
      `numpy.stack((a, b)).T.ravel()`. */
  function Weave<T>(a: seq<T>, b: seq<T>): (r: seq<T>)
    ensures |r| == |a| + |b|
    decreases |a|
  {
    if |a| == 0 then b
    else if |b| == 0 then a
    else [a[0], b[0]] + Weave(a[1..], b[1..])
  }

  /** Weaving loses and invents nothing. */
  lemma {:induction false} WeavePermutes<T>(a: seq<T>, b: seq<T>)
    ensures multiset(Weave(a, b)) == multiset(a) + multiset(b)
    decreases |a|
  {
    if |a| > 0 && |b| > 0 {
      WeavePermutes(a[1..], b[1..]);
      HeadTail(a);
      HeadTail(b);
      HeadTail(Weave(a, b));
      HeadTail(Weave(a, b)[1..]);
      assert Weave(a, b)[2..] == Weave(a[1..], b[1..]);
    }
  }

  /** While both runs last, `a[i]` sits at `2i` and `b[i]` at `2i + 1`. */
  lemma {:induction false} WeaveAt<T>(a: seq<T>, b: seq<T>, i: nat)
    requires i < |a| && i < |b|
    ensures Weave(a, b)[2 * i] == a[i] && Weave(a, b)[2 * i + 1] == b[i]
    decreases i
  {
    if i > 0 {
      WeaveAt(a[1..], b[1..], i - 1);
    }
  }

  /** `x[::-1]`. */
  function Reverse<T>(x: seq<T>): (r: seq<T>)
    ensures |r| == |x|
    ensures forall i :: 0 <= i < |x| ==> r[i] == x[|x| - 1 - i]
  {
    if |x| == 0 then [] else Reverse(x[1..]) + [x[0]]
  }

  /** Reversing twice gives back the input. */
  lemma ReverseInvolution<T>(x: seq<T>)
    ensures Reverse(Reverse(x)) == x
  {
  }

  /** Reversal is a permutation. */
  lemma {:induction false} ReversePermutes<T>(x: seq<T>)
    ensures multiset(Reverse(x)) == multiset(x)
  {
    if |x| > 0 {
      ReversePermutes(x[1..]);
      assert x == [x[0]] + x[1..];
    }
  }

  /** Position in the input of the `j`-th output element of the median
      killer on `n` elements: the low run `0, 2, ...` below `n / 2` and the
      high run `n / 2, n / 2 + 2, ...` alternate over the first `2m`
      positions, then come the odd positions `1, 3, ...`. */
  function KillerSource(n: nat, j: nat): nat {
    var h := n / 2;
    var m := (h + 1) / 2;
    if j < 2 * m then (if j % 2 == 0 then j else h + j - 1)
    else 2 * (j - 2 * m) + 1
  }

  /** Run lengths for `n` elements as plain arithmetic: the low run has
      `(n/2 + 1) / 2` elements, the high run `(n - n/2 + 1) / 2`. */
  lemma RunCountsArith(n: nat)
    ensures (n / 2 + 1) / 2 != (n - n / 2 + 1) / 2 <==> n % 4 == 1
    ensures n % 2 == 0 ==> 2 * ((n / 2 + 1) / 2) + n / 2 == n + (n / 2) % 2
    ensures n % 4 == 3 ==> 2 * ((n / 2 + 1) / 2) + n / 2 == n
  {
  }

  /** The killer's three runs: `x[0:n//2:2]`, `x[n//2::2]` and `x[1::2]`. */
  function LowRun<T>(x: seq<T>): seq<T> {
    Slice2(x, 0, |x| / 2)
  }

  function HighRun<T>(x: seq<T>): seq<T> {
    Slice2(x, |x| / 2, |x|)
  }

  function OddRun<T>(x: seq<T>): seq<T> {
    Slice2(x, 1, |x|)
  }

  /** The killer's output when the low and high runs stack: their
      interleave, then the odd positions. */
  function KillerLayout<T>(x: seq<T>): seq<T> {
    Weave(LowRun(x), HighRun(x)) + OddRun(x)
  }

  /** The runs of `x[0:n//2:2]`, `x[n//2::2]` and `x[1::2]` differ in
      length between the low and high run exactly when `n % 4 == 1`, which
      is when `numpy.stack` refuses them. Otherwise the interleave-then-odds
      output has `n + (n/2) % 2` elements for even `n` and `n` for
      `n % 4 == 3`. */
  lemma KillerCounts<T>(x: seq<T>)
    ensures |LowRun(x)| == (|x| / 2 + 1) / 2
    ensures |HighRun(x)| == (|x| - |x| / 2 + 1) / 2
    ensures |OddRun(x)| == |x| / 2
    ensures |LowRun(x)| != |HighRun(x)| <==> |x| % 4 == 1
    ensures |x| % 2 == 0 ==> |KillerLayout(x)| == |x| + (|x| / 2) % 2
    ensures |x| % 4 == 3 ==> |KillerLayout(x)| == |x|
  {
    RunCountsArith(|x|);
  }

  /** Inside the woven part, even positions come from the low run and odd
      ones from the high run. */
  lemma KillerSourceWoven(n: nat, i: nat)
    requires i < (n / 2 + 1) / 2
    ensures KillerSource(n, 2 * i) == 2 * i
    ensures KillerSource(n, 2 * i + 1) == n / 2 + 2 * i
  {
    assert (2 * i) % 2 == 0 && (2 * i + 1) % 2 == 1;
  }

  /** Past the woven part, position `2m + k` comes from odd position
      `2k + 1`. */
  lemma KillerSourceOdds(n: nat, k: nat)
    ensures KillerSource(n, 2 * ((n / 2 + 1) / 2) + k) == 2 * k + 1
  {
  }

  /** Low-run element `i` sits at output position `2i`, high-run element
      `i` at `2i + 1`. */
  lemma KillerWovenAt<T>(x: seq<T>, i: nat)
    requires |LowRun(x)| == |HighRun(x)|
    requires i < |LowRun(x)|
    ensures 2 * i < |x| && |x| / 2 + 2 * i < |x|
    ensures KillerLayout(x)[2 * i] == x[2 * i]
    ensures KillerLayout(x)[2 * i + 1] == x[|x| / 2 + 2 * i]
  {
    var n := |x|;
    var w := Weave(LowRun(x), HighRun(x));
    WeaveAt(LowRun(x), HighRun(x), i);
    Slice2At(x, 0, n / 2, i);
    Slice2At(x, n / 2, n, i);
    assert KillerLayout(x)[2 * i] == w[2 * i];
    assert KillerLayout(x)[2 * i + 1] == w[2 * i + 1];
  }

  /** Output positions in the woven part read `KillerSource`. */
  lemma KillerLayoutWoven<T>(x: seq<T>, j: nat)
    requires |LowRun(x)| == |HighRun(x)|
    requires j < 2 * |LowRun(x)|
    ensures KillerSource(|x|, j) < |x| && KillerLayout(x)[j] == x[KillerSource(|x|, j)]
  {
    var n, i := |x|, j / 2;
    assert |LowRun(x)| == (n / 2 + 1) / 2;
    KillerSourceWoven(n, i);
    KillerWovenAt(x, i);
    if j % 2 == 0 {
      assert j == 2 * i;
    } else {
      assert j == 2 * i + 1;
    }
  }

  /** Output positions past the woven part read `KillerSource`: position
      `2m + k` holds odd position `2k + 1`. */
  lemma KillerLayoutOdds<T>(x: seq<T>, j: nat)
    requires |LowRun(x)| == |HighRun(x)|
    requires 2 * |LowRun(x)| <= j < |KillerLayout(x)|
    ensures KillerSource(|x|, j) < |x| && KillerLayout(x)[j] == x[KillerSource(|x|, j)]
  {
    var n := |x|;
    var w := Weave(LowRun(x), HighRun(x));
    var k := j - |w|;
    assert |w| == 2 * |LowRun(x)| && |LowRun(x)| == (n / 2 + 1) / 2;
    KillerSourceOdds(n, k);
    Slice2At(x, 1, n, k);
    assert KillerLayout(x)[j] == OddRun(x)[k];
  }

  /** Every output position of the layout reads `KillerSource`. */
  lemma KillerLayoutAll<T>(x: seq<T>)
    requires |LowRun(x)| == |HighRun(x)|
    ensures forall j :: 0 <= j < |KillerLayout(x)| ==>
              KillerSource(|x|, j) < |x| && KillerLayout(x)[j] == x[KillerSource(|x|, j)]
  {
    forall j | 0 <= j < |KillerLayout(x)|
      ensures KillerSource(|x|, j) < |x| && KillerLayout(x)[j] == x[KillerSource(|x|, j)]
    {
      if j < 2 * |LowRun(x)| {
        KillerLayoutWoven(x, j);
      } else {
        KillerLayoutOdds(x, j);
      }
    }
  }

  /** The `median-killer` generator exactly as written: the interleave of
      `x[0:n//2:2]` with `x[n//2::2]`, followed by `x[1::2]`. numpy refuses
      to stack the two runs when their lengths differ, which happens exactly
      for `n % 4 == 1`. The result has `n + (n/2) % 2` elements for even `n`,
      so it is longer than the input when `n % 4 == 2`. */
  function KillerSequence<T>(x: seq<T>): (r: Generated<T>)
    ensures r.StackMismatch? <==> |x| % 4 == 1
    ensures !r.NoArray?
    ensures r.Array? ==> |r.elems| == 2 * ((|x| / 2 + 1) / 2) + |x| / 2
    ensures r.Array? && |x| % 2 == 0 ==> |r.elems| == |x| + (|x| / 2) % 2
    ensures r.Array? ==> forall j :: 0 <= j < |r.elems| ==>
              KillerSource(|x|, j) < |x| && r.elems[j] == x[KillerSource(|x|, j)]
  {
    KillerCounts(x);
    if |LowRun(x)| != |HighRun(x)| then StackMismatch(|LowRun(x)|, |HighRun(x)|)
    else
      KillerLayoutAll(x);
      Array(KillerLayout(x))
  }

  /** The generator dictionary. `random` hands numpy's in-place shuffle the
      array and returns the shuffle's result, which is `None`. */
  function Generate<T>(shape: Shape, x: seq<T>): (r: Generated<T>)
    ensures r.NoArray? <==> shape == Random
    ensures r.StackMismatch? <==> shape == MedianKiller && |x| % 4 == 1
    ensures shape == Sorted ==> r == Array(x)
    ensures shape == Reversed ==> r.Array? && |r.elems| == |x| && forall i :: 0 <= i < |x| ==> r.elems[i] == x[|x| - 1 - i]
  {
    match shape
    case Sorted => Array(x)
    case Reversed => Array(Reverse(x))
    case Random => NoArray
    case MedianKiller => KillerSequence(x)
  }

  /** Splitting at an even position does not disturb the stride:
      `s[:c][::2] + s[c:][::2] == s[::2]`. */
  lemma {:induction false} EveryOtherSplit<T>(s: seq<T>, c: nat)
    requires c % 2 == 0 && c <= |s|
    ensures EveryOther(s[..c]) + EveryOther(s[c..]) == EveryOther(s)
    decreases c
  {
    if c == 0 {
      assert s[c..] == s;
    } else {
      var t := s[2..];
      EveryOtherSplit(t, c - 2);
      assert s[..c][2..] == t[..c - 2];
      assert s[c..] == t[c - 2..];
      assert EveryOther(s[..c]) == [s[0]] + EveryOther(t[..c - 2]);
      if |s| > 2 {
        assert EveryOther(s) == [s[0]] + EveryOther(t);
      } else {
        assert EveryOther(s) == [s[0]];
      }
    }
  }

  /** Unfolding both strides of `s` by one step each. */
  lemma EveryOtherUnfold<T>(s: seq<T>)
    requires |s| > 2
    ensures EveryOther(s) == [s[0]] + EveryOther(s[2..])
    ensures EveryOther(s[1..]) == [s[1]] + EveryOther(s[2..][1..])
  {
    assert s[1..][2..] == s[2..][1..];
  }

  /** One inductive step of `EvensOdds`: two leading elements more. */
  lemma EvensOddsStep<T>(s: seq<T>)
    requires |s| > 2
    requires multiset(EveryOther(s[2..])) + multiset(EveryOther(s[2..][1..])) == multiset(s[2..])
    ensures multiset(EveryOther(s)) + multiset(EveryOther(s[1..])) == multiset(s)
  {
    var t := s[2..];
    EveryOtherUnfold(s);
    assert multiset(EveryOther(s)) == multiset{s[0]} + multiset(EveryOther(t));
    assert multiset(EveryOther(s[1..])) == multiset{s[1]} + multiset(EveryOther(t[1..]));
    HeadTail(s);
    HeadTail(s[1..]);
    assert s[1..][1..] == t;
  }

  /** The even and the odd positions together hold every element once. */
  lemma {:induction false} EvensOdds<T>(s: seq<T>)
    requires |s| >= 1
    ensures multiset(EveryOther(s)) + multiset(EveryOther(s[1..])) == multiset(s)
    decreases |s|
  {
    if |s| == 2 {
      assert EveryOther(s) == [s[0]];
      assert s == [s[0], s[1]];
    } else if |s| > 2 {
      EvensOdds(s[2..]);
      EvensOddsStep(s);
    }
  }

  /** Interleave `x[0:c:2]` with `x[c::2]`, then append `x[1::2]`; the
      killer as written splits at `c = n // 2`. */
  function SplitLayout<T>(x: seq<T>, c: nat): seq<T> {
    Weave(Slice2(x, 0, c), Slice2(x, c, |x|)) + Slice2(x, 1, |x|)
  }

  /** Weaving the even positions below an even split point with those above
      it, then appending the odd positions, is a permutation. */
  lemma SplitWeavePermutes<T>(x: seq<T>, c: nat)
    requires c % 2 == 0 && c <= |x|
    ensures |SplitLayout(x, c)| == |x|
    ensures multiset(SplitLayout(x, c)) == multiset(x)
  {
    var low, high, odds := Slice2(x, 0, c), Slice2(x, c, |x|), Slice2(x, 1, |x|);
    assert low == EveryOther(x[..c]) by {
      assert x[0..c] == x[..c];
    }
    assert high == EveryOther(x[c..]) by {
      assert x[c..|x|] == x[c..];
    }
    if |x| > 0 {
      assert odds == EveryOther(x[1..]) by {
        assert x[1..|x|] == x[1..];
      }
      EveryOtherSplit(x, c);
      EvensOdds(x);
      WeavePermutes(low, high);
      assert multiset(Weave(low, high)) == multiset(low + high);
    }
  }

  /** When `n` is a multiple of four the killer is a permutation of its
      input, as the dictionary's documentation promises. */
  lemma KillerPermutes<T>(x: seq<T>)
    requires |x| % 4 == 0
    ensures KillerSequence(x).Array?
    ensures |KillerSequence(x).elems| == |x|
    ensures multiset(KillerSequence(x).elems) == multiset(x)
  {
    SplitWeavePermutes(x, |x| / 2);
  }

  /** Source positions of the two copies of the last element when
      `n % 4 == 2`, and the odd-or-too-small sources when `n % 4 == 3`. */
  lemma KillerSourceFacts(n: nat, j: nat)
    ensures n % 4 == 2 ==> KillerSource(n, n / 2) == n - 1 && KillerSource(n, n) == n - 1
    ensures n % 4 == 3 && j < n ==> KillerSource(n, j) != n / 2 + 1
  {
    var q := n / 4;
    if n % 4 == 2 {
      assert n == 4 * q + 2 && n / 2 == 2 * q + 1 && (n / 2 + 1) / 2 == q + 1;
    } else if n % 4 == 3 {
      assert n == 4 * q + 3 && n / 2 == 2 * q + 1 && (n / 2 + 1) / 2 == q + 1;
    }
  }

  /** When `n % 4 == 2` the killer returns `n + 1` elements: the last
      element of the input appears both at the end of the high run and at
      the end of the odd run. */
  lemma KillerOverlong<T>(x: seq<T>)
    requires |x| % 4 == 2
    ensures KillerSequence(x).Array?
    ensures |KillerSequence(x).elems| == |x| + 1
    ensures KillerSequence(x).elems[|x| / 2] == x[|x| - 1]
    ensures KillerSequence(x).elems[|x|] == x[|x| - 1]
    ensures multiset(KillerSequence(x).elems) != multiset(x)
  {
    var n := |x|;
    var r := KillerSequence(x).elems;
    KillerSourceFacts(n, 0);
    assert r[n / 2] == x[KillerSource(n, n / 2)];
    assert r[n] == x[KillerSource(n, n)];
    assert |multiset(r)| == |r| != |x| == |multiset(x)|;
  }

  /** A value present in one sequence and absent from another tells their
      multisets apart. */
  lemma NotPermutation<T>(r: seq<T>, x: seq<T>, v: T)
    requires v !in r && v in x
    ensures multiset(r) != multiset(x)
  {
    assert multiset(r)[v] == 0;
    assert multiset(x)[v] > 0;
  }

  /** Position `j` of the killer on `0..n-1` never holds `n / 2 + 1` when
      `n % 4 == 3`. */
  lemma KillerAvoids(n: nat, j: nat)
    requires n % 4 == 3
    requires KillerSequence(Canonical(n)).Array? && j < |KillerSequence(Canonical(n)).elems|
    ensures KillerSequence(Canonical(n)).elems[j] != n / 2 + 1
  {
    KillerSourceFacts(n, j);
    var x := Canonical(n);
    assert KillerSequence(x).elems[j] == x[KillerSource(n, j)];
  }

  /** When `n % 4 == 3` the killer does not raise and keeps the length. */
  lemma KillerLengthOdd<T>(x: seq<T>)
    requires |x| % 4 == 3
    ensures KillerSequence(x).Array? && |KillerSequence(x).elems| == |x|
  {
    var n, q := |x|, |x| / 4;
    assert n == 4 * q + 3 && n / 2 == 2 * q + 1 && (n / 2 + 1) / 2 == q + 1;
  }

  /** When `n % 4 == 3` the killer has the right length but misses element
      `n / 2 + 1` of the ascending input (and repeats an odd one instead). */
  lemma KillerMissesElement(n: nat)
    requires n % 4 == 3
    ensures KillerSequence(Canonical(n)).Array?
    ensures |KillerSequence(Canonical(n)).elems| == n
    ensures n / 2 + 1 < n
    ensures n / 2 + 1 !in KillerSequence(Canonical(n)).elems
    ensures multiset(KillerSequence(Canonical(n)).elems) != multiset(Canonical(n))
  {
    var x := Canonical(n);
    KillerLengthOdd(x);
    KillerSkips(n);
    assert n / 2 + 1 in x by {
      assert x[n / 2 + 1] == n / 2 + 1;
    }
    NotPermutation(KillerSequence(x).elems, x, n / 2 + 1);
  }

  /** No position of the killer on `0..n-1` holds `n / 2 + 1` when
      `n % 4 == 3`. */
  lemma KillerSkips(n: nat)
    requires n % 4 == 3
    ensures n / 2 + 1 < n
    ensures KillerSequence(Canonical(n)).Array? ==> n / 2 + 1 !in KillerSequence(Canonical(n)).elems
  {
    var r := KillerSequence(Canonical(n));
    if r.Array? {
      forall j | 0 <= j < |r.elems|
        ensures r.elems[j] != n / 2 + 1
      {
        KillerAvoids(n, j);
      }
    }
  }


  /** The smallest failure in the benchmark's own lengths besides `n = 2`:
      `0..5` becomes seven elements, `3` and `5` twice and `4` never. */
  lemma KillerOfSix()
    ensures KillerSequence(Canonical(6)) == Array([0, 3, 2, 5, 1, 3, 5])
  {
    var r := KillerSequence(Canonical(6)).elems;
    assert KillerSource(6, 1) == 3 && KillerSource(6, 3) == 5;
    assert KillerSource(6, 4) == 1 && KillerSource(6, 6) == 5;
    assert r == [0, 3, 2, 5, 1, 3, 5];
  }

  /** The worked example: `0..7` becomes `0, 4, 2, 6, 1, 3, 5, 7`. */
  lemma KillerOfEight()
    ensures KillerSequence(Canonical(8)) == Array([0, 4, 2, 6, 1, 3, 5, 7])
  {
    var r := KillerSequence(Canonical(8)).elems;
    assert KillerSource(8, 1) == 4 && KillerSource(8, 3) == 6;
    assert KillerSource(8, 4) == 1 && KillerSource(8, 7) == 7;
    assert r == [0, 4, 2, 6, 1, 3, 5, 7];
  }

  /** Which generators return a permutation of the ascending input: the
      identity and the reversal always, the killer exactly when `n` is a
      multiple of four, the shuffle never (it returns `None`). */
  lemma GeneratePermutation(shape: Shape, n: nat)
    ensures (Generate(shape, Canonical(n)).Array?
             && multiset(Generate(shape, Canonical(n)).elems) == multiset(Canonical(n)))
            <==> shape in {Sorted, Reversed} || (shape == MedianKiller && n % 4 == 0)
  {
    match shape
    case Sorted =>
    case Reversed => ReversePermutes(Canonical(n));
    case Random =>
    case MedianKiller =>
      if n % 4 == 0 {
        KillerPermutes(Canonical(n));
      } else if n % 4 == 2 {
        KillerOverlong(Canonical(n));
      } else if n % 4 == 3 {
        KillerMissesElement(n);
      }
  }

  /** The corrected split point `n/2` rounded up to even stays in range,
      and equals `n/2` when `n` is a multiple of four. */
  lemma EvenSplitPoint(n: nat)
    ensures (n / 2 + (n / 2) % 2) % 2 == 0
    ensures n / 2 + (n / 2) % 2 <= n
    ensures n % 4 == 0 ==> (n / 2) % 2 == 0
  {
  }

  /** A killer that is a permutation for every `n`: the split point between
      the low and the high run is rounded up to an even position, and the
      weave tolerates one run being one element longer. It agrees with the
      generator as written whenever `n` is a multiple of four. */
  function KillerSequencePermuting<T>(x: seq<T>): (r: seq<T>)
    ensures |r| == |x|
    ensures multiset(r) == multiset(x)
  {
    var h := |x| / 2;
    var c := h + h % 2;
    EvenSplitPoint(|x|);
    SplitWeavePermutes(x, c);
    SplitLayout(x, c)
  }

  /** Where the generator as written is a permutation, the corrected one
      produces the same array. */
  lemma KillerCorrectionAgrees<T>(x: seq<T>)
    requires |x| % 4 == 0
    ensures KillerSequence(x) == Array(KillerSequencePermuting(x))
  {
    var n, q := |x|, |x| / 4;
    assert n == 4 * q && n / 2 == 2 * q && (n / 2) % 2 == 0;
    var h := n / 2;
    assert h + h % 2 == h;
    assert |LowRun(x)| == q == |HighRun(x)|;
    assert KillerSequencePermuting(x) == SplitLayout(x, h);
    assert KillerLayout(x) == SplitLayout(x, h);
  }

  // ---------------------------------------------------------------------
  // The shuffle numpy performs, and a generator table that always hands
  // back a permutation of its input.
  // ---------------------------------------------------------------------

  /** Exchanges the elements at positions `i` and `j`. */
  function Swap<T>(x: seq<T>, i: nat, j: nat): (r: seq<T>)
    requires i < |x| && j < |x|
    ensures |r| == |x|
    ensures r[i] == x[j] && r[j] == x[i]
    ensures forall k :: 0 <= k < |x| && k != i && k != j ==> r[k] == x[k]
  {
    x[i := x[j]][j := x[i]]
  }

  /** A swap loses and invents nothing. */
  lemma SwapPermutes<T>(x: seq<T>, i: nat, j: nat)
    requires i < |x| && j < |x|
    ensures multiset(Swap(x, i, j)) == multiset(x)
  {
    var y := x[i := x[j]];
    assert multiset(y) == multiset(x) - multiset{x[i]} + multiset{x[j]};
  }

  /** The draws a shuffle may use: `picks[k]` is the partner chosen for
      position `k`, somewhere in `0..k`. */
  predicate ValidPicks(picks: seq<nat>, n: nat) {
    |picks| == n && forall k :: 0 <= k < n ==> picks[k] <= k
  }

  /** numpy's in-place Fisher-Yates shuffle of the first `i` positions: for
      `k = i - 1` down to `1`, swap `x[k]` with `x[picks[k]]`. The random
      draws are a parameter. */
  function ShuffleDown<T>(x: seq<T>, picks: seq<nat>, i: nat): (r: seq<T>)
    requires ValidPicks(picks, |x|) && i <= |x|
    ensures |r| == |x|
    ensures forall k :: i <= k < |x| ==> r[k] == x[k]
    decreases i
  {
    if i <= 1 then x else ShuffleDown(Swap(x, i - 1, picks[i - 1]), picks, i - 1)
  }

  /** Shuffling is a permutation. */
  lemma {:induction false} ShufflePermutes<T>(x: seq<T>, picks: seq<nat>, i: nat)
    requires ValidPicks(picks, |x|) && i <= |x|
    ensures multiset(ShuffleDown(x, picks, i)) == multiset(x)
    decreases i
  {
    if i > 1 {
      SwapPermutes(x, i - 1, picks[i - 1]);
      ShufflePermutes(Swap(x, i - 1, picks[i - 1]), picks, i - 1);
    }
  }

  /** The generator table with both defects repaired: `random` returns the
      shuffled array instead of the shuffle's `None`, and the median killer
      splits at an even position. Every entry returns a permutation of its
      input; `sorted`, `reversed` and, for `n % 4 == 0`, `median-killer`
      return what the table as written returns. */
  function GenerateFixed<T>(shape: Shape, x: seq<T>, picks: seq<nat>): (r: seq<T>)
    requires ValidPicks(picks, |x|)
    ensures |r| == |x|
    ensures multiset(r) == multiset(x)
    ensures shape != Random && (shape == MedianKiller ==> |x| % 4 == 0) ==> Generate(shape, x) == Array(r)
  {
    match shape
    case Sorted => x
    case Reversed => ReversePermutes(x); Reverse(x)
    case Random => ShufflePermutes(x, picks, |x|); ShuffleDown(x, picks, |x|)
    case MedianKiller =>
      if |x| % 4 == 0 then KillerCorrectionAgrees(x); KillerSequencePermuting(x)
      else KillerSequencePermuting(x)
  }
}
