/**
 * The document-store queries the handlers issue, over a collection held as a
 * map from ids to documents: enumerating in insertion order, `find` with a
 * filter, `findOne`, and `sort({ createdAt: -1 })`.
 */
module Documents {
  import opened JsValues
  import opened ObjectIds

  predicate Increasing(ids: seq<ObjectId>) {
    forall i, j :: 0 <= i < j < |ids| ==> ids[i].n < ids[j].n
  }

  /** The ids of `m` below `n`, oldest first: the collection's natural order. */
  function IdsBelow<V>(m: map<ObjectId, V>, n: nat): (r: seq<ObjectId>)
    ensures forall id :: id in r <==> id in m && id.n < n
    ensures Increasing(r)
  {
    if n == 0 then []
    else
      var prefix := IdsBelow(m, n - 1);
      var r := prefix + (if ObjectId(n - 1) in m then [ObjectId(n - 1)] else []);
      assert forall k :: 0 <= k < |prefix| ==> r[k] == prefix[k] && prefix[k] in prefix;
      r
  }

  /** No element occurs twice. */
  predicate Distinct<T(==)>(xs: seq<T>) {
    forall i, j :: 0 <= i < j < |xs| ==> xs[i] != xs[j]
  }

  /** No two ids of `m` hold the same document, as when each document carries its own id. */
  predicate Injective<V(==)>(m: map<ObjectId, V>) {
    forall x, y :: x in m && y in m && m[x] == m[y] ==> x == y
  }

  /**
   * The documents at `ids` that satisfy `p`, in the order of `ids`: a `find`
   * with the filter `p`. Over distinct ids of an injective collection, each
   * match is returned once.
   */
  function Select<V(==)>(ids: seq<ObjectId>, m: map<ObjectId, V>, p: V -> bool): (r: seq<V>)
    ensures |r| <= |ids|
    ensures forall v :: v in r ==> p(v) && v in m.Values
    ensures forall v :: v in r ==> exists id :: id in ids && id in m && m[id] == v
    ensures forall id :: id in ids && id in m && p(m[id]) ==> m[id] in r
    ensures Increasing(ids) && Injective(m) ==> Distinct(r)
  {
    if ids == [] then []
    else
      var rest := Select(ids[1..], m, p);
      assert forall id :: id in ids && id != ids[0] ==> id in ids[1..];
      assert forall id :: id in ids[1..] ==> id in ids;
      assert Increasing(ids) ==> Increasing(ids[1..]) by {
        assert forall k :: 0 <= k < |ids[1..]| ==> ids[1..][k] == ids[k + 1];
      }
      if ids[0] in m && p(m[ids[0]]) then
        assert Increasing(ids) && Injective(m) ==> Distinct([m[ids[0]]] + rest) by {
          if Increasing(ids) && Injective(m) {
            HeadNotRepeated(ids, m, rest);
            ConsDistinct(m[ids[0]], rest);
          }
        }
        [m[ids[0]]] + rest
      else rest
  }

  /** The first of increasing ids holds a document that none of the later ids holds. */
  lemma HeadNotRepeated<V>(ids: seq<ObjectId>, m: map<ObjectId, V>, rest: seq<V>)
    requires ids != [] && ids[0] in m && Increasing(ids) && Injective(m)
    requires forall v :: v in rest ==> exists id :: id in ids[1..] && id in m && m[id] == v
    ensures m[ids[0]] !in rest
  {
    forall v | v in rest ensures v != m[ids[0]] {
      var id :| id in ids[1..] && id in m && m[id] == v;
      var k :| 0 <= k < |ids[1..]| && ids[1..][k] == id;
      assert ids[k + 1] == id && ids[0].n < id.n;
    }
  }

  lemma ConsDistinct<T>(h: T, rest: seq<T>)
    requires Distinct(rest) && h !in rest
    ensures Distinct([h] + rest)
  {
    var r := [h] + rest;
    assert forall i :: 0 < i < |r| ==> r[i] == rest[i - 1];
  }

  /** A sequence without repeats holds each value at most once. */
  lemma {:induction false} DistinctCount<T>(xs: seq<T>, x: T)
    requires Distinct(xs)
    ensures multiset(xs)[x] <= 1
  {
    if xs != [] {
      assert xs == [xs[0]] + xs[1..];
      assert forall k :: 0 <= k < |xs[1..]| ==> xs[1..][k] == xs[k + 1];
      DistinctCount(xs[1..], x);
      assert xs[0] !in xs[1..];
    }
  }

  /** Two equal elements at different places make the value occur twice. */
  lemma RepeatCount<T>(xs: seq<T>, i: nat, j: nat)
    requires i < j < |xs|
    ensures xs[i] == xs[j] ==> multiset(xs)[xs[i]] >= 2
  {
    assert xs == xs[..j] + xs[j..];
    assert xs[i] == xs[..j][i] && xs[j] == xs[j..][0];
    assert multiset(xs) == multiset(xs[..j]) + multiset(xs[j..]);
  }

  /** Reordering keeps a sequence free of repeats. */
  lemma DistinctPermutation<T>(a: seq<T>, b: seq<T>)
    requires multiset(a) == multiset(b) && Distinct(a)
    ensures Distinct(b)
  {
    forall i, j | 0 <= i < j < |b| ensures b[i] != b[j] {
      RepeatCount(b, i, j);
      DistinctCount(a, b[i]);
    }
  }

  /** The first document at `ids` that satisfies `p`: a `findOne` with the filter `p`. */
  function FindFirst<V>(ids: seq<ObjectId>, m: map<ObjectId, V>, p: V -> bool): (r: Option<ObjectId>)
    ensures r.Some? ==> r.value in ids && r.value in m && p(m[r.value])
    ensures r.None? ==> forall id :: id in ids && id in m ==> !p(m[id])
  {
    if ids == [] then None
    else if ids[0] in m && p(m[ids[0]]) then Some(ids[0])
    else
      assert forall id :: id in ids && id != ids[0] ==> id in ids[1..];
      FindFirst(ids[1..], m, p)
  }

  /** `xs` is ordered by `time`, newest first. */
  predicate NewestFirst<T>(xs: seq<T>, time: T -> nat) {
    forall i, j :: 0 <= i < j < |xs| ==> time(xs[i]) >= time(xs[j])
  }

  function InsertByTime<T>(x: T, xs: seq<T>, time: T -> nat): (r: seq<T>)
    requires NewestFirst(xs, time)
    ensures multiset(r) == multiset(xs) + multiset{x}
    ensures NewestFirst(r, time)
  {
    if xs == [] then [x]
    else if time(x) >= time(xs[0]) then [x] + xs
    else
      var rest := InsertByTime(x, xs[1..], time);
      assert xs == [xs[0]] + xs[1..];
      HeadDominates(x, xs, rest, time);
      ConsNewestFirst(xs[0], rest, time);
      [xs[0]] + rest
  }

  /** The newest of a list that is newer than `x` is at least as new as everything in the list with `x` inserted. */
  lemma HeadDominates<T>(x: T, xs: seq<T>, rest: seq<T>, time: T -> nat)
    requires xs != [] && NewestFirst(xs, time) && time(x) < time(xs[0])
    requires multiset(rest) == multiset(xs[1..]) + multiset{x}
    ensures forall k :: 0 <= k < |rest| ==> time(xs[0]) >= time(rest[k])
  {
    forall k | 0 <= k < |rest| ensures time(xs[0]) >= time(rest[k]) {
      assert rest[k] in multiset(rest);
      if rest[k] != x {
        assert rest[k] in multiset(xs[1..]);
        var j :| 0 <= j < |xs[1..]| && xs[1..][j] == rest[k];
        assert xs[1 + j] == rest[k];
      }
    }
  }

  lemma ConsNewestFirst<T>(h: T, rest: seq<T>, time: T -> nat)
    requires NewestFirst(rest, time) && forall k :: 0 <= k < |rest| ==> time(h) >= time(rest[k])
    ensures NewestFirst([h] + rest, time)
  {
    var r := [h] + rest;
    assert forall i :: 0 < i < |r| ==> r[i] == rest[i - 1];
  }

  /** `sort({ createdAt: -1 })`: the same documents, newest first. */
  function SortNewestFirst<T>(xs: seq<T>, time: T -> nat): (r: seq<T>)
    ensures multiset(r) == multiset(xs)
    ensures NewestFirst(r, time)
  {
    if xs == [] then []
    else
      assert xs == [xs[0]] + xs[1..];
      InsertByTime(xs[0], SortNewestFirst(xs[1..], time), time)
  }
}
