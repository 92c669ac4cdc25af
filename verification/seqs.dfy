/** Generic facts about sequences: distinctness, flattening, minimum. */
module Seqs {

  /** No element occurs twice. */
  ghost predicate NoDup<T>(s: seq<T>) {
    forall i, j :: 0 <= i < j < |s| ==> s[i] != s[j]
  }

  /** The set of elements of `s`. */
  ghost function Elems<T>(s: seq<T>): set<T> {
    set x | x in s
  }

  /** Concatenation of a sequence of sequences, in order. */
  function Flatten<T>(ss: seq<seq<T>>): seq<T> {
    if |ss| == 0 then [] else ss[0] + Flatten(ss[1..])
  }

  /** An element occurs in the flattening exactly when it occurs in a block. */
  lemma {:induction false} FlattenMember<T>(ss: seq<seq<T>>, x: T)
    ensures x in Flatten(ss) <==> exists i :: 0 <= i < |ss| && x in ss[i]
  {
    if |ss| > 0 {
      FlattenMember(ss[1..], x);
      if x in Flatten(ss[1..]) {
        var j :| 0 <= j < |ss[1..]| && x in ss[1..][j];
        assert x in ss[j + 1];
      }
      if i :| 1 <= i < |ss| && x in ss[i] {
        assert x in ss[1..][i - 1];
      }
    }
  }

  /** Flattening blocks of a common size `m` yields `|ss| * m` elements. */
  lemma {:induction false} FlattenUniform<T>(ss: seq<seq<T>>, m: nat)
    requires forall i :: 0 <= i < |ss| ==> |ss[i]| == m
    ensures |Flatten(ss)| == |ss| * m
  {
    if |ss| > 0 {
      FlattenUniform(ss[1..], m);
      assert |Flatten(ss)| == m + (|ss| - 1) * m;
    }
  }

  /** A non-empty sequence is its head followed by its tail. */
  lemma HeadTail<T>(s: seq<T>)
    requires |s| > 0
    ensures multiset(s) == multiset{s[0]} + multiset(s[1..])
  {
    assert s == [s[0]] + s[1..];
  }

  /** The elements of a non-empty sequence are its head and those of its
      tail; without duplicates the head is not in the tail. */
  lemma TailFacts<T>(s: seq<T>)
    requires |s| > 0
    ensures Elems(s) == {s[0]} + Elems(s[1..])
    ensures NoDup(s) ==> NoDup(s[1..]) && s[0] !in s[1..]
  {
    assert s == [s[0]] + s[1..];
    if NoDup(s) {
      assert forall i :: 0 <= i < |s[1..]| ==> s[1..][i] == s[i + 1] != s[0];
    }
  }

  /** Appending two duplicate-free sequences with no common element keeps
      the result duplicate-free. */
  lemma NoDupAppend<T>(a: seq<T>, b: seq<T>)
    requires NoDup(a) && NoDup(b)
    requires forall x :: x in a ==> x !in b
    ensures NoDup(a + b)
  {
    forall i, j | 0 <= i < j < |a + b|
      ensures (a + b)[i] != (a + b)[j]
    {
      if j >= |a| && i < |a| {
        assert (a + b)[i] in a;
        assert (a + b)[j] == b[j - |a|];
      }
    }
  }

  /** Blocks that are each duplicate-free and pairwise disjoint flatten to a
      duplicate-free sequence. */
  lemma {:induction false} FlattenNoDup<T>(ss: seq<seq<T>>)
    requires forall i :: 0 <= i < |ss| ==> NoDup(ss[i])
    requires forall i, j, x :: 0 <= i < j < |ss| && x in ss[i] ==> x !in ss[j]
    ensures NoDup(Flatten(ss))
  {
    if |ss| > 0 {
      FlattenNoDup(ss[1..]);
      forall x | x in ss[0]
        ensures x !in Flatten(ss[1..])
      {
        FlattenMember(ss[1..], x);
        assert forall j :: 0 <= j < |ss[1..]| ==> ss[1..][j] == ss[j + 1];
      }
      NoDupAppend(ss[0], Flatten(ss[1..]));
    }
  }

  /** A duplicate-free sequence has as many distinct elements as entries. */
  lemma {:induction false} CardElems<T>(s: seq<T>)
    requires NoDup(s)
    ensures |Elems(s)| == |s|
  {
    if |s| > 0 {
      TailFacts(s);
      CardElems(s[1..]);
    }
  }

  /** The smallest element of a non-empty sequence, as Python's `min`. */
  function Min(xs: seq<real>): (r: real)
    requires |xs| > 0
    ensures r in xs
    ensures forall i :: 0 <= i < |xs| ==> r <= xs[i]
  {
    if |xs| == 1 then xs[0]
    else
      var m := Min(xs[1..]);
      if xs[0] <= m then xs[0] else m
  }
}
