/** Sequence helpers shared by the model: order-preserving filters and flattening. */
module Seqs {

  /** No element occurs twice. */
  predicate Distinct<T(==)>(s: seq<T>) {
    forall i, j :: 0 <= i < j < |s| ==> s[i] != s[j]
  }

  /** Kotlin's `filter`: the elements satisfying `keep`, in their original order. */
  function Filter<T(!new)>(s: seq<T>, keep: T -> bool): (r: seq<T>)
    ensures |r| <= |s|
    ensures forall x :: x in r <==> x in s && keep(x)
  {
    if s == [] then [] else (if keep(s[0]) then [s[0]] else []) + Filter(s[1..], keep)
  }

  /** Filtering distributes over concatenation, so it keeps the relative order of the input. */
  lemma {:induction false} FilterAppend<T(!new)>(a: seq<T>, b: seq<T>, keep: T -> bool)
    ensures Filter(a + b, keep) == Filter(a, keep) + Filter(b, keep)
  {
    if a != [] {
      assert (a + b)[1..] == a[1..] + b;
      FilterAppend(a[1..], b, keep);
    } else {
      assert a + b == b;
    }
  }

  /** A filter of a duplicate-free sequence is duplicate-free. */
  lemma {:induction false} FilterDistinct<T(!new)>(s: seq<T>, keep: T -> bool)
    requires Distinct(s)
    ensures Distinct(Filter(s, keep))
  {
    if s != [] {
      FilterDistinct(s[1..], keep);
    }
  }

  /** The sequence without the elements of `xs` (a LinkedHashMap's key order after removals). */
  function Without<T(==,!new)>(s: seq<T>, xs: set<T>): (r: seq<T>)
    ensures forall x :: x in r <==> x in s && x !in xs
  {
    Filter(s, x => x !in xs)
  }

  /** Removing nothing leaves the sequence as it is. */
  lemma {:induction false} WithoutNothing<T(!new)>(s: seq<T>)
    ensures Without(s, {}) == s
  {
    if s != [] {
      WithoutNothing(s[1..]);
      assert s == [s[0]] + s[1..];
    }
  }

  /** Removing two sets of elements one after the other removes their union. */
  lemma {:induction false} WithoutWithout<T(!new)>(s: seq<T>, xs: set<T>, ys: set<T>)
    ensures Without(Without(s, xs), ys) == Without(s, xs + ys)
  {
    if s != [] {
      WithoutWithout(s[1..], xs, ys);
      if s[0] in xs {
        assert Without(s, xs) == Without(s[1..], xs);
      } else {
        assert Without(s, xs) == [s[0]] + Without(s[1..], xs);
        assert Without(s, xs)[1..] == Without(s[1..], xs);
      }
    }
  }

  /** Without preserves the absence of duplicates. */
  lemma WithoutDistinct<T(!new)>(s: seq<T>, xs: set<T>)
    requires Distinct(s)
    ensures Distinct(Without(s, xs))
  {
    FilterDistinct(s, x => x !in xs);
  }

  /** The concatenation of a sequence of sequences. */
  function Flatten<T>(ss: seq<seq<T>>): seq<T> {
    if ss == [] then [] else ss[0] + Flatten(ss[1..])
  }
}
