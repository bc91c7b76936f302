/** Generic sequence facts: Array.prototype.filter, pairwise invariants and
    the insertion order of a JavaScript Set built from an array. */
module Seqs {

  /** The elements of s that satisfy keep, in their original order. */
  function Filter<T>(s: seq<T>, keep: T -> bool): (r: seq<T>)
    ensures |r| <= |s|
    ensures forall i :: 0 <= i < |r| ==> r[i] in s && keep(r[i])
    ensures forall i :: 0 <= i < |s| && keep(s[i]) ==> s[i] in r
  {
    if s == [] then []
    else if keep(s[0]) then [s[0]] + Filter(s[1..], keep)
    else Filter(s[1..], keep)
  }

  /** Filtering distributes over concatenation: the relative order of kept elements is preserved. */
  lemma {:induction false} FilterConcat<T>(a: seq<T>, b: seq<T>, keep: T -> bool)
    ensures Filter(a + b, keep) == Filter(a, keep) + Filter(b, keep)
  {
    if a == [] {
      assert a + b == b;
    } else {
      assert (a + b)[0] == a[0];
      assert (a + b)[1..] == a[1..] + b;
      FilterConcat(a[1..], b, keep);
    }
  }

  /** When every element is kept, filtering changes nothing. */
  lemma {:induction false} FilterKeepsAll<T>(s: seq<T>, keep: T -> bool)
    requires forall i :: 0 <= i < |s| ==> keep(s[i])
    ensures Filter(s, keep) == s
  {
    if s != [] {
      FilterKeepsAll(s[1..], keep);
    }
  }

  /** When no element is kept, filtering yields the empty sequence. */
  lemma {:induction false} FilterDropsAll<T>(s: seq<T>, keep: T -> bool)
    requires forall i :: 0 <= i < |s| ==> !keep(s[i])
    ensures Filter(s, keep) == []
  {
    if s != [] {
      FilterDropsAll(s[1..], keep);
    }
  }

  /** When exactly the element at k fails the test, filtering removes just that position. */
  lemma {:induction false} FilterRemovesAt<T>(s: seq<T>, keep: T -> bool, k: nat)
    requires k < |s| && !keep(s[k])
    requires forall i :: 0 <= i < |s| && i != k ==> keep(s[i])
    ensures Filter(s, keep) == s[..k] + s[k + 1..]
  {
    var t := s[1..];
    if k == 0 {
      assert forall i :: 0 <= i < |t| ==> keep(t[i]) by {
        forall i | 0 <= i < |t| ensures keep(t[i]) {
          assert t[i] == s[i + 1];
        }
      }
      FilterKeepsAll(t, keep);
      assert s[..0] + s[1..] == t;
    } else {
      assert t[k - 1] == s[k];
      assert forall i :: 0 <= i < |t| && i != k - 1 ==> keep(t[i]) by {
        forall i | 0 <= i < |t| && i != k - 1 ensures keep(t[i]) {
          assert t[i] == s[i + 1];
        }
      }
      FilterRemovesAt(t, keep, k - 1);
      assert [s[0]] + (t[..k - 1] + t[k..]) == s[..k] + s[k + 1..];
    }
  }

  lemma FilterIdempotent<T>(s: seq<T>, keep: T -> bool)
    ensures Filter(Filter(s, keep), keep) == Filter(s, keep)
  {
    var r := Filter(s, keep);
    FilterKeepsAll(r, keep);
  }

  /** rel holds of every pair of elements, taken in sequence order. */
  ghost predicate Pairwise<T>(s: seq<T>, rel: (T, T) -> bool) {
    forall i, j :: 0 <= i < j < |s| ==> rel(s[i], s[j])
  }

  lemma PairwiseTail<T>(s: seq<T>, rel: (T, T) -> bool)
    requires s != [] && Pairwise(s, rel)
    ensures Pairwise(s[1..], rel)
    ensures forall x :: x in s[1..] ==> rel(s[0], x)
  {
    var t := s[1..];
    forall i, j | 0 <= i < j < |t| ensures rel(t[i], t[j]) {
      assert t[i] == s[i + 1] && t[j] == s[j + 1];
    }
    forall x | x in t ensures rel(s[0], x) {
      var k :| 0 <= k < |t| && t[k] == x;
      assert x == s[k + 1];
    }
  }

  /** Removing elements cannot break a pairwise invariant. */
  lemma {:induction false} FilterPairwise<T>(s: seq<T>, keep: T -> bool, rel: (T, T) -> bool)
    requires Pairwise(s, rel)
    ensures Pairwise(Filter(s, keep), rel)
  {
    if s != [] {
      PairwiseTail(s, rel);
      FilterPairwise(s[1..], keep, rel);
      var t := Filter(s[1..], keep);
      if keep(s[0]) {
        var r := Filter(s, keep);
        assert r == [s[0]] + t;
        forall i, j | 0 <= i < j < |r| ensures rel(r[i], r[j]) {
          assert r[j] == t[j - 1] && t[j - 1] in s[1..];
          if i > 0 {
            assert r[i] == t[i - 1];
          }
        }
      }
    }
  }

  /** No value occurs twice. */
  predicate Distinct<T(==)>(s: seq<T>) {
    forall i, j :: 0 <= i < j < |s| ==> s[i] != s[j]
  }

  /** Position of the first occurrence of x in s. */
  function FirstIndex<T(==)>(s: seq<T>, x: T): (k: nat)
    requires x in s
    ensures k < |s| && s[k] == x && x !in s[..k]
  {
    if s[0] == x then 0 else 1 + FirstIndex(s[1..], x)
  }

  /** The values of s not in seen, once each, in the order they first occur:
      what iterating `new Set(s)` yields when seen starts empty. */
  function FirstOccurrences<T(==)>(s: seq<T>, seen: set<T>): (r: seq<T>)
    ensures forall i :: 0 <= i < |r| ==> r[i] in s && r[i] !in seen
    ensures forall i :: 0 <= i < |s| && s[i] !in seen ==> s[i] in r
    ensures Distinct(r)
  {
    if s == [] then []
    else if s[0] in seen then FirstOccurrences(s[1..], seen)
    else [s[0]] + FirstOccurrences(s[1..], seen + {s[0]})
  }

  lemma FirstIndexTail<T>(s: seq<T>, x: T)
    requires s != [] && x in s[1..] && x != s[0]
    ensures FirstIndex(s, x) == 1 + FirstIndex(s[1..], x)
  {
  }

  /** Every value of r occurs in s, and values earlier in r first occur earlier in s. */
  ghost predicate InFirstOccurrenceOrder<T>(s: seq<T>, r: seq<T>) {
    && (forall k :: 0 <= k < |r| ==> r[k] in s)
    && (forall i, j :: 0 <= i < j < |r| ==> FirstIndex(s, r[i]) < FirstIndex(s, r[j]))
  }

  /** Prepending s[0] to s shifts the first index of every other value by one. */
  lemma OrderShift<T>(s: seq<T>, rest: seq<T>)
    requires s != [] && InFirstOccurrenceOrder(s[1..], rest)
    requires forall k :: 0 <= k < |rest| ==> rest[k] != s[0]
    ensures InFirstOccurrenceOrder(s, rest)
    ensures InFirstOccurrenceOrder(s, [s[0]] + rest)
  {
    forall k | 0 <= k < |rest| ensures FirstIndex(s, rest[k]) == 1 + FirstIndex(s[1..], rest[k]) {
      FirstIndexTail(s, rest[k]);
    }
    var r := [s[0]] + rest;
    forall i, j | 0 <= i < j < |r| ensures FirstIndex(s, r[i]) < FirstIndex(s, r[j]) {
      assert r[j] == rest[j - 1];
      if i > 0 {
        assert r[i] == rest[i - 1];
      }
    }
  }

  /** Earlier in the result means first seen earlier in the input. */
  lemma {:induction false} FirstOccurrencesOrder<T>(s: seq<T>, seen: set<T>)
    ensures InFirstOccurrenceOrder(s, FirstOccurrences(s, seen))
  {
    if s != [] {
      var seen' := if s[0] in seen then seen else seen + {s[0]};
      var rest := FirstOccurrences(s[1..], seen');
      FirstOccurrencesOrder(s[1..], seen');
      forall k | 0 <= k < |rest| ensures rest[k] != s[0] {
        assert rest[k] !in seen';
      }
      OrderShift(s, rest);
    }
  }
}
