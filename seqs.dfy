/**
 * Sequence helpers shared by the bill model: JavaScript's `Array.prototype.filter`
 * and the "no duplicates" property of id lists.
 */
module Seqs {

  /** The elements of `s` that satisfy `keep`, in their original order. */
  function Filter<T(!new)>(s: seq<T>, keep: T -> bool): (r: seq<T>)
    ensures |r| <= |s|
    decreases |s|
  {
    if s == [] then []
    else
      var last := s[|s| - 1];
      assert s == s[..|s| - 1] + [last];
      Filter(s[..|s| - 1], keep) + (if keep(last) then [last] else [])
  }

  /** What is kept: exactly the elements of `s` that satisfy `keep`. */
  lemma {:induction false} FilterMembers<T(!new)>(s: seq<T>, keep: T -> bool)
    ensures forall x :: x in Filter(s, keep) <==> x in s && keep(x)
    decreases |s|
  {
    if s != [] {
      var prefix, last := s[..|s| - 1], s[|s| - 1];
      FilterMembers(prefix, keep);
      assert s == prefix + [last];
    }
  }

  /** Filtering distributes over concatenation: the kept elements stay in their relative order. */
  lemma {:induction false} FilterConcat<T(!new)>(a: seq<T>, b: seq<T>, keep: T -> bool)
    ensures Filter(a + b, keep) == Filter(a, keep) + Filter(b, keep)
    decreases |b|
  {
    if b == [] {
      assert a + b == a;
    } else {
      var b' := b[..|b| - 1];
      var last := b[|b| - 1];
      assert (a + b)[..|a + b| - 1] == a + b';
      assert (a + b)[|a + b| - 1] == last;
      FilterConcat(a, b', keep);
    }
  }

  /** Filtering a singleton keeps it exactly when it satisfies `keep`. */
  lemma FilterSingleton<T(!new)>(x: T, keep: T -> bool)
    ensures Filter([x], keep) == if keep(x) then [x] else []
  {
    assert [x][..0] == [];
  }

  /** A filter that rejects nothing returns its input unchanged. */
  lemma {:induction false} FilterKeepsAll<T(!new)>(s: seq<T>, keep: T -> bool)
    requires forall i :: 0 <= i < |s| ==> keep(s[i])
    ensures Filter(s, keep) == s
    decreases |s|
  {
    if s != [] {
      var prefix, last := s[..|s| - 1], s[|s| - 1];
      forall i | 0 <= i < |prefix| ensures keep(prefix[i]) {
        assert prefix[i] == s[i];
      }
      FilterKeepsAll(prefix, keep);
      FilterSnoc(prefix, last, keep);
      assert prefix + [last] == s;
    }
  }

  /** Filtering a list with one more element at the end. */
  lemma FilterSnoc<T(!new)>(s: seq<T>, x: T, keep: T -> bool)
    ensures Filter(s + [x], keep) == Filter(s, keep) + (if keep(x) then [x] else [])
  {
    assert (s + [x])[..|s|] == s;
  }

  /** No value occurs twice. */
  predicate NoDup<T(==)>(s: seq<T>)
  {
    forall i, j :: 0 <= i < j < |s| ==> s[i] != s[j]
  }

  /** Appending a value that is not yet present keeps a list free of duplicates. */
  lemma AppendNoDup<T>(s: seq<T>, x: T)
    requires NoDup(s) && x !in s
    ensures NoDup(s + [x])
  {
    forall i, j | 0 <= i < j < |s + [x]| ensures (s + [x])[i] != (s + [x])[j] {
      if j == |s| {
        assert s[i] in s;
      }
    }
  }

  /** Filtering never introduces duplicates. */
  lemma {:induction false} FilterNoDup<T(!new)>(s: seq<T>, keep: T -> bool)
    requires NoDup(s)
    ensures NoDup(Filter(s, keep))
    decreases |s|
  {
    if s != [] {
      var prefix, last := s[..|s| - 1], s[|s| - 1];
      assert NoDup(prefix);
      FilterNoDup(prefix, keep);
      if keep(last) {
        FilterMembers(prefix, keep);
        forall k | 0 <= k < |prefix| ensures prefix[k] != last {
          assert s[k] != s[|s| - 1];
        }
        AppendNoDup(Filter(prefix, keep), last);
      } else {
        assert Filter(prefix, keep) + [] == Filter(prefix, keep);
      }
    }
  }

  /** `s` with every occurrence of `x` removed (`s.filter(y => y !== x)`). */
  function Without<T(==,!new)>(s: seq<T>, x: T): (r: seq<T>)
    ensures x !in r
    ensures forall y :: y != x ==> (y in r <==> y in s)
  {
    FilterMembers(s, y => y != x);
    Filter(s, y => y != x)
  }

  /** Removing a value never introduces duplicates. */
  lemma WithoutNoDup<T(!new)>(s: seq<T>, x: T)
    requires NoDup(s)
    ensures NoDup(Without(s, x))
  {
    FilterNoDup(s, y => y != x);
  }

  /** Removing a value that occurs once shortens the list by exactly one. */
  lemma {:induction false} WithoutLength<T(!new)>(s: seq<T>, x: T)
    requires NoDup(s) && x in s
    ensures |Without(s, x)| == |s| - 1
    decreases |s|
  {
    var prefix, last := s[..|s| - 1], s[|s| - 1];
    assert s == prefix + [last];
    assert NoDup(prefix);
    if last == x {
      forall k | 0 <= k < |prefix| ensures prefix[k] != x {
        assert s[k] != s[|s| - 1];
      }
      FilterKeepsAll(prefix, y => y != x);
    } else {
      WithoutLength(prefix, x);
    }
  }

  /** Removing a value just appended to a list without it gives the list back. */
  lemma WithoutAppended<T(!new)>(s: seq<T>, x: T)
    requires x !in s
    ensures Without(s + [x], x) == s
  {
    FilterConcat(s, [x], y => y != x);
    FilterSingleton(x, y => y != x);
    FilterKeepsAll(s, y => y != x);
    assert s + [] == s;
  }

  /** Removing a value that does not occur changes nothing. */
  lemma WithoutAbsent<T(!new)>(s: seq<T>, x: T)
    requires x !in s
    ensures Without(s, x) == s
  {
    FilterKeepsAll(s, y => y != x);
  }
}
