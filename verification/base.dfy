/** Shared vocabulary of the backend model: document identifiers, optional
    request fields, the JSON response envelope, and the few list operations
    the database performs on reference arrays (`$push`, `$pull`, `$in`), and
    the orders in which a query may return its matches. */
module Base {

  /** Document identifiers. The store hands them out from an increasing
      counter, so ascending id order is insertion order. */
  type Id = nat

  /** Milliseconds since the epoch, as a JavaScript `Date` holds them. */
  type Time = int

  /** An optional request field: `None` is `undefined`. */
  datatype Option<+T> = None | Some(value: T)

  /** The response envelope every route sends: `success: true` with a status
      code and data, or `success: false` with a status code and a message. */
  datatype Response<+T> = Ok(status: nat, data: T) | Err(status: nat, message: string)

  predicate NoDup<T(==)>(xs: seq<T>) {
    forall i, j | 0 <= i < j < |xs| :: xs[i] != xs[j]
  }

  predicate Increasing(xs: seq<Id>) {
    forall i, j | 0 <= i < j < |xs| :: xs[i] < xs[j]
  }

  lemma IncreasingHasNoDup(xs: seq<Id>)
    requires Increasing(xs)
    ensures NoDup(xs)
  {
  }

  /** `$pull` and MongooseArray `pull`: removes every occurrence of `x`. */
  function Pull<T(==,!new)>(xs: seq<T>, x: T): (r: seq<T>)
    ensures forall y :: y in r <==> y in xs && y != x
    ensures |r| <= |xs|
    ensures x !in xs ==> r == xs
    ensures NoDup(xs) ==> NoDup(r)
    ensures NoDup(xs) && x in xs ==> |r| == |xs| - 1
    decreases |xs|
  {
    if |xs| == 0 then []
    else
      var rest := Pull(xs[1..], x);
      assert NoDup(xs) ==> xs[0] !in xs[1..];
      if xs[0] == x then rest else [xs[0]] + rest
  }

  /** `$pull` undoes a `$push` of an element that was absent. */
  lemma {:induction false} PullUndoesPush<T(!new)>(xs: seq<T>, x: T)
    requires x !in xs
    ensures Pull(xs + [x], x) == xs
    decreases |xs|
  {
    if |xs| > 0 {
      assert (xs + [x])[1..] == xs[1..] + [x];
      PullUndoesPush(xs[1..], x);
      assert [xs[0]] + xs[1..] == xs;
    } else {
      assert [x][1..] == [];
    }
  }

  /** The ids below `n` that satisfy `p`, in ascending (insertion) order: the
      order the model takes for a `find` with filter `p` and no explicit sort. */
  function Select(n: nat, p: Id -> bool): (r: seq<Id>)
    ensures forall x: Id :: x in r <==> x < n && p(x)
    ensures Increasing(r)
    ensures |r| <= n
  {
    if n == 0 then []
    else
      var prefix := Select(n - 1, p);
      assert forall i | 0 <= i < |prefix| :: prefix[i] in prefix;
      if p(n - 1) then prefix + [n - 1] else prefix
  }

  /** `Select` depends only on the values of `p` below `n`. */
  lemma {:induction false} SelectSame(n: nat, p: Id -> bool, q: Id -> bool)
    requires forall x: Id | x < n :: p(x) == q(x)
    ensures Select(n, p) == Select(n, q)
  {
    if n > 0 {
      SelectSame(n - 1, p, q);
    }
  }

  /** The lowest id below `n` that satisfies `p`: the match the model takes
      for a `findOne` with filter `p`. */
  function FirstBelow(n: nat, p: Id -> bool): (r: Option<Id>)
    ensures r.Some? ==> r.value < n && p(r.value) && forall y: Id | y < r.value :: !p(y)
    ensures r.None? ==> forall y: Id | y < n :: !p(y)
  {
    if n == 0 then None
    else
      match FirstBelow(n - 1, p)
      case Some(x) => Some(x)
      case None => if p(n - 1) then Some(n - 1) else None
  }

  /** The elements of `xs` that satisfy `p`, in their original order. */
  function Filter<T(!new)>(xs: seq<T>, p: T -> bool): (r: seq<T>)
    ensures forall x :: x in r <==> x in xs && p(x)
    ensures |r| <= |xs|
    ensures forall i | 0 <= i < |r| :: p(r[i])
  {
    if |xs| == 0 then []
    else
      var rest := Filter(xs[1..], p);
      assert forall x :: x in xs <==> x == xs[0] || x in xs[1..];
      if p(xs[0]) then [xs[0]] + rest else rest
  }

  /** Filtering keeps a duplicate-free list duplicate-free. */
  lemma {:induction false} FilterNoDup<T(!new)>(xs: seq<T>, p: T -> bool)
    requires NoDup(xs)
    ensures NoDup(Filter(xs, p))
    decreases |xs|
  {
    if |xs| > 0 {
      FilterNoDup(xs[1..], p);
      assert xs[0] !in xs[1..];
    }
  }

  /** `Filter` depends only on the values of `p` on the elements of `xs`. */
  lemma {:induction false} FilterSame<T(!new)>(xs: seq<T>, p: T -> bool, q: T -> bool)
    requires forall x | x in xs :: p(x) == q(x)
    ensures Filter(xs, p) == Filter(xs, q)
    decreases |xs|
  {
    if |xs| > 0 {
      assert forall x | x in xs[1..] :: x in xs;
      FilterSame(xs[1..], p, q);
    }
  }

  /** `x` occurs in `xs` at a position before one where `y` occurs. */
  ghost predicate Before<T>(xs: seq<T>, x: T, y: T) {
    exists i, j :: 0 <= i < j < |xs| && xs[i] == x && xs[j] == y
  }

  /** `ys` lists its elements in the order they have in `xs`. */
  ghost predicate InOrderOf<T>(ys: seq<T>, xs: seq<T>) {
    forall i, j | 0 <= i < j < |ys| :: Before(xs, ys[i], ys[j])
  }

  lemma BeforeInTail<T>(xs: seq<T>, x: T, y: T)
    requires |xs| > 0 && Before(xs[1..], x, y)
    ensures Before(xs, x, y)
  {
    var i, j :| 0 <= i < j < |xs[1..]| && xs[1..][i] == x && xs[1..][j] == y;
    assert xs[i + 1] == x && xs[j + 1] == y;
  }

  lemma BeforeHead<T>(xs: seq<T>, y: T)
    requires |xs| > 0 && y in xs[1..]
    ensures Before(xs, xs[0], y)
  {
    var m :| 0 <= m < |xs[1..]| && xs[1..][m] == y;
    assert xs[m + 1] == y;
  }

  /** Filtering keeps the order of the list filtered. */
  lemma {:induction false} FilterInOrder<T(!new)>(xs: seq<T>, p: T -> bool)
    ensures InOrderOf(Filter(xs, p), xs)
    decreases |xs|
  {
    if |xs| > 0 {
      var rest := Filter(xs[1..], p);
      var r := Filter(xs, p);
      FilterInOrder(xs[1..], p);
      forall i, j | 0 <= i < j < |r| ensures Before(xs, r[i], r[j]) {
        if p(xs[0]) {
          assert r == [xs[0]] + rest;
          if i == 0 {
            assert r[j] == rest[j - 1] && rest[j - 1] in rest;
            BeforeHead(xs, r[j]);
          } else {
            assert r[i] == rest[i - 1] && r[j] == rest[j - 1];
            BeforeInTail(xs, r[i], r[j]);
          }
        } else {
          BeforeInTail(xs, r[i], r[j]);
        }
      }
    }
  }

  /** A list in the order of a duplicate-free list has no duplicates. */
  lemma InOrderNoDup<T>(ys: seq<T>, xs: seq<T>)
    requires NoDup(xs) && InOrderOf(ys, xs)
    ensures NoDup(ys)
  {
    forall i, j | 0 <= i < j < |ys| ensures ys[i] != ys[j] {
      assert Before(xs, ys[i], ys[j]);
    }
  }

  /** The elements of `xs`, each once, in order of first appearance. */
  function Dedup<T(==,!new)>(xs: seq<T>): (r: seq<T>)
    ensures forall x :: x in r <==> x in xs
    ensures NoDup(r)
    ensures |r| <= |xs|
  {
    if |xs| == 0 then []
    else
      var prefix := Dedup(xs[..|xs| - 1]);
      assert forall x :: x in xs <==> x in xs[..|xs| - 1] || x == xs[|xs| - 1];
      if xs[|xs| - 1] in prefix then prefix else prefix + [xs[|xs| - 1]]
  }

  /** The window `[skip, skip + limit)` of `xs`, cut at its end: what
      `.skip(skip).limit(limit)` returns. */
  function Window<T>(xs: seq<T>, skip: nat, limit: nat): (r: seq<T>)
    ensures |r| <= limit
    ensures skip <= |xs| ==> |r| == if |xs| - skip < limit then |xs| - skip else limit
    ensures skip >= |xs| ==> r == []
    ensures forall i | 0 <= i < |r| :: skip + i < |xs| && r[i] == xs[skip + i]
  {
    if skip >= |xs| then []
    else if skip + limit <= |xs| then xs[skip..skip + limit]
    else xs[skip..]
  }
}
