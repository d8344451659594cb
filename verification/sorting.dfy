/** The descending sorts the queries ask the database for
    (`.sort({ createdAt: -1 })`, `{ $sort: { latestStory: -1 } }`), modelled
    as a stable insertion sort on sequences. The database does not promise an
    order among equal keys; this sort keeps the input order among them. */
module Sorting {
  import opened Base

  predicate SortedDesc<T>(xs: seq<T>, key: T -> int) {
    forall i, j | 0 <= i < j < |xs| :: key(xs[i]) >= key(xs[j])
  }

  /** Inserts `x` before the first element whose key is not larger. */
  function Insert<T(==)>(x: T, xs: seq<T>, key: T -> int): (r: seq<T>)
    requires SortedDesc(xs, key)
    ensures SortedDesc(r, key)
    ensures multiset(r) == multiset(xs) + multiset{x}
  {
    if |xs| == 0 || key(x) >= key(xs[0]) then [x] + xs
    else
      var rest := Insert(x, xs[1..], key);
      assert xs == [xs[0]] + xs[1..];
      HeadBoundsRest(xs[0], xs[1..], x, rest, key);
      [xs[0]] + rest
  }

  /** The head of a sorted list bounds any rearrangement of its tail with a
      smaller element added. */
  lemma HeadBoundsRest<T>(h: T, tail: seq<T>, x: T, rest: seq<T>, key: T -> int)
    requires SortedDesc([h] + tail, key) && key(x) < key(h)
    requires multiset(rest) == multiset(tail) + multiset{x}
    requires SortedDesc(rest, key)
    ensures SortedDesc([h] + rest, key)
  {
    forall i | 0 <= i < |rest| ensures key(h) >= key(rest[i]) {
      assert rest[i] in multiset(rest);
      if rest[i] != x {
        assert rest[i] in tail;
        var k :| 0 <= k < |tail| && tail[k] == rest[i];
        assert ([h] + tail)[0] == h && ([h] + tail)[k + 1] == tail[k];
      }
    }
    var r := [h] + rest;
    forall i, j | 0 <= i < j < |r| ensures key(r[i]) >= key(r[j]) {
      if i > 0 {
        assert r[i] == rest[i - 1] && r[j] == rest[j - 1];
      } else {
        assert r[j] == rest[j - 1];
      }
    }
  }

  /** `xs` sorted by descending `key`; a permutation of `xs`. */
  function SortDesc<T(==)>(xs: seq<T>, key: T -> int): (r: seq<T>)
    ensures SortedDesc(r, key)
    ensures multiset(r) == multiset(xs)
  {
    if |xs| == 0 then []
    else
      assert xs == [xs[0]] + xs[1..];
      Insert(xs[0], SortDesc(xs[1..], key), key)
  }

  /** A permutation of a duplicate-free sequence is duplicate-free and has the
      same members. */
  lemma PermutationKeepsNoDup<T>(a: seq<T>, b: seq<T>)
    requires multiset(a) == multiset(b)
    requires NoDup(a)
    ensures NoDup(b)
    ensures forall x :: x in a <==> x in b
  {
    NoDupCounts(a);
    forall i, j | 0 <= i < j < |b| ensures b[i] != b[j] {
      if b[i] == b[j] {
        CountTwo(b, i, j);
      }
    }
    assert forall x :: x in a <==> x in multiset(a);
  }

  lemma {:induction false} NoDupCounts<T>(a: seq<T>)
    requires NoDup(a)
    ensures forall x :: multiset(a)[x] <= 1
    decreases |a|
  {
    if |a| > 0 {
      NoDupCounts(a[1..]);
      assert a == [a[0]] + a[1..];
      assert a[0] !in a[1..];
    }
  }

  lemma {:induction false} CountTwo<T>(b: seq<T>, i: nat, j: nat)
    requires i < j < |b| && b[i] == b[j]
    ensures multiset(b)[b[i]] >= 2
  {
    assert b == b[..j] + [b[j]] + b[j + 1..];
    assert b[i] in b[..j];
    assert multiset(b[..j])[b[i]] >= 1;
  }
}
