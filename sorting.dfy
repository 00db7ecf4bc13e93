/** Stream sorting as the services use it: `sorted(comparator)` is a stable
    sort, here an insertion sort by a "less than or equal" relation, and
    String.compareTo is the lexicographic order on characters. */
module Sorting {

  /** Every pair is related one way or the other, and the relation chains. */
  ghost predicate TotalPreorder<T(!new)>(le: (T, T) -> bool)
  {
    && (forall a, b :: le(a, b) || le(b, a))
    && (forall a, b, c :: le(a, b) && le(b, c) ==> le(a, c))
  }

  predicate SortedBy<T>(xs: seq<T>, le: (T, T) -> bool)
  {
    forall i, j :: 0 <= i < j < |xs| ==> le(xs[i], xs[j])
  }

  /** Puts x in front of the first element it is not greater than. */
  function InsertBy<T>(x: T, xs: seq<T>, le: (T, T) -> bool): (r: seq<T>)
    ensures multiset(r) == multiset(xs) + multiset{x}
    ensures |r| == |xs| + 1
  {
    if xs == [] || le(x, xs[0]) then [x] + xs
    else
      assert xs == [xs[0]] + xs[1..];
      [xs[0]] + InsertBy(x, xs[1..], le)
  }

  /** List.sort / Stream.sorted: a stable sort; an element is placed before
      the later elements that compare equal to it. */
  function SortBy<T>(xs: seq<T>, le: (T, T) -> bool): (r: seq<T>)
    ensures multiset(r) == multiset(xs)
    ensures |r| == |xs|
  {
    if xs == [] then []
    else
      assert xs == [xs[0]] + xs[1..];
      InsertBy(xs[0], SortBy(xs[1..], le), le)
  }

  lemma {:induction false} InsertBySorted<T(!new)>(x: T, xs: seq<T>, le: (T, T) -> bool)
    requires TotalPreorder(le)
    requires SortedBy(xs, le)
    ensures SortedBy(InsertBy(x, xs, le), le)
  {
    if xs == [] || le(x, xs[0]) {
    } else {
      var tail := InsertBy(x, xs[1..], le);
      InsertBySorted(x, xs[1..], le);
      assert le(xs[0], x);
      forall y | y in multiset(tail) ensures le(xs[0], y) {
        assert y in multiset(xs[1..]) + multiset{x};
        if y != x {
          var k :| 0 <= k < |xs[1..]| && xs[1..][k] == y;
          assert xs[k + 1] == y;
        }
      }
      var r := [xs[0]] + tail;
      forall i, j | 0 <= i < j < |r| ensures le(r[i], r[j]) {
        if i == 0 {
          assert r[j] == tail[j - 1];
          assert r[j] in multiset(tail);
        }
      }
    }
  }

  /** The sort's result is ordered and, by the ensures of SortBy, a permutation. */
  lemma {:induction false} SortBySorted<T(!new)>(xs: seq<T>, le: (T, T) -> bool)
    requires TotalPreorder(le)
    ensures SortedBy(SortBy(xs, le), le)
  {
    if xs != [] {
      SortBySorted(xs[1..], le);
      InsertBySorted(xs[0], SortBy(xs[1..], le), le);
    }
  }

  /** The elements of xs that compare equal to e both ways, in their order
      in xs. */
  function EquivalentTo<T>(xs: seq<T>, e: T, le: (T, T) -> bool): seq<T>
  {
    if xs == [] then []
    else (if le(xs[0], e) && le(e, xs[0]) then [xs[0]] else []) + EquivalentTo(xs[1..], e, le)
  }

  /** Inserting x keeps the order of the elements equal to e, with x in
      front of them when it is one of them: x only passes elements strictly
      smaller than itself. */
  lemma {:induction false} InsertByKeepsEquivalents<T(!new)>(x: T, xs: seq<T>, e: T, le: (T, T) -> bool)
    requires TotalPreorder(le)
    ensures EquivalentTo(InsertBy(x, xs, le), e, le) == EquivalentTo([x] + xs, e, le)
  {
    assert ([x] + xs)[1..] == xs;
    if xs != [] && !le(x, xs[0]) {
      var r := InsertBy(x, xs, le);
      assert r == [xs[0]] + InsertBy(x, xs[1..], le);
      assert r[1..] == InsertBy(x, xs[1..], le);
      InsertByKeepsEquivalents(x, xs[1..], e, le);
      assert ([x] + xs[1..])[1..] == xs[1..];
      assert xs == [xs[0]] + xs[1..];
    }
  }

  /** The sort is stable: the elements that compare equal to any e come out
      in the order they went in. */
  lemma {:induction false} SortByIsStable<T(!new)>(xs: seq<T>, e: T, le: (T, T) -> bool)
    requires TotalPreorder(le)
    ensures EquivalentTo(SortBy(xs, le), e, le) == EquivalentTo(xs, e, le)
  {
    if xs != [] {
      SortByIsStable(xs[1..], e, le);
      InsertByKeepsEquivalents(xs[0], SortBy(xs[1..], le), e, le);
      assert ([xs[0]] + SortBy(xs[1..], le))[1..] == SortBy(xs[1..], le);
    }
  }

  /** Java's String.compareTo(a, b) <= 0: character by character, a proper
      prefix first. */
  function StringLe(a: string, b: string): bool
  {
    if a == [] then true
    else if b == [] then false
    else if a[0] != b[0] then a[0] < b[0]
    else StringLe(a[1..], b[1..])
  }

  lemma {:induction false} StringLeTotal(a: string, b: string)
    ensures StringLe(a, b) || StringLe(b, a)
  {
    if a != [] && b != [] && a[0] == b[0] {
      StringLeTotal(a[1..], b[1..]);
    }
  }

  lemma {:induction false} StringLeTransitive(a: string, b: string, c: string)
    requires StringLe(a, b) && StringLe(b, c)
    ensures StringLe(a, c)
  {
    if a != [] && b != [] && c != [] && a[0] == b[0] && b[0] == c[0] {
      StringLeTransitive(a[1..], b[1..], c[1..]);
    }
  }
}
