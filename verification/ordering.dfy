/**
 * The deterministic order in which receivables and credits are consumed:
 * Python's stable `sorted` over a key of two dates (as day numbers) and a
 * document name.
 */
module Ordering {
  import opened Common

  /** (first date, second date, name), compared left to right. */
  datatype SortKey = SortKey(day: int, tieDay: int, name: string)

  predicate KeyLe(a: SortKey, b: SortKey)
  {
    a.day < b.day
    || (a.day == b.day && (a.tieDay < b.tieDay || (a.tieDay == b.tieDay && LexLe(a.name, b.name))))
  }

  lemma KeyLeTotal(a: SortKey, b: SortKey)
    ensures KeyLe(a, b) || KeyLe(b, a)
  {
    LexLeTotal(a.name, b.name);
  }

  lemma KeyLeTransitive(a: SortKey, b: SortKey, c: SortKey)
    requires KeyLe(a, b) && KeyLe(b, c)
    ensures KeyLe(a, c)
  {
    if a.day == b.day == c.day && a.tieDay == b.tieDay == c.tieDay {
      LexLeTransitive(a.name, b.name, c.name);
    }
  }

  predicate SortedBy<T>(xs: seq<T>, key: T -> SortKey)
  {
    forall i, j :: 0 <= i < j < |xs| ==> KeyLe(key(xs[i]), key(xs[j]))
  }

  /** Places `x` before the first element it does not follow, so that among
      equal keys the earlier input stays first (stability). */
  function Insert<T>(x: T, xs: seq<T>, key: T -> SortKey): (r: seq<T>)
    requires SortedBy(xs, key)
    ensures multiset(r) == multiset(xs) + multiset{x}
    ensures SortedBy(r, key)
  {
    if |xs| == 0 then [x]
    else if KeyLe(key(x), key(xs[0])) then
      forall j | 0 <= j < |xs| ensures KeyLe(key(x), key(xs[j])) {
        if j > 0 { KeyLeTransitive(key(x), key(xs[0]), key(xs[j])); }
      }
      SortedCons(x, xs, key);
      [x] + xs
    else
      var tail := xs[1..];
      var rest := Insert(x, tail, key);
      KeyLeTotal(key(x), key(xs[0]));
      forall j | 0 <= j < |tail| ensures KeyLe(key(xs[0]), key(tail[j])) {
        assert tail[j] == xs[j + 1];
      }
      BoundBelow(xs[0], rest, x, tail, key);
      SortedCons(xs[0], rest, key);
      assert xs == [xs[0]] + tail;
      [xs[0]] + rest
  }

  /** A sorted list stays sorted with a head that no element precedes. */
  lemma SortedCons<T>(h: T, xs: seq<T>, key: T -> SortKey)
    requires SortedBy(xs, key)
    requires forall j :: 0 <= j < |xs| ==> KeyLe(key(h), key(xs[j]))
    ensures SortedBy([h] + xs, key)
  {
    var r := [h] + xs;
    forall i, j | 0 <= i < j < |r| ensures KeyLe(key(r[i]), key(r[j])) {
      assert r[j] == xs[j - 1];
      if i > 0 { assert r[i] == xs[i - 1]; }
    }
  }

  /** A bound below every element of `tail` and below `x` is below every
      element of a permutation of `tail` plus `x`. */
  lemma BoundBelow<T>(h: T, rest: seq<T>, x: T, tail: seq<T>, key: T -> SortKey)
    requires multiset(rest) == multiset(tail) + multiset{x}
    requires KeyLe(key(h), key(x))
    requires forall j :: 0 <= j < |tail| ==> KeyLe(key(h), key(tail[j]))
    ensures forall j :: 0 <= j < |rest| ==> KeyLe(key(h), key(rest[j]))
  {
    forall j | 0 <= j < |rest| ensures KeyLe(key(h), key(rest[j])) {
      assert rest[j] in multiset(rest);
      if rest[j] != x {
        assert rest[j] in multiset(tail);
        var k :| 0 <= k < |tail| && tail[k] == rest[j];
      }
    }
  }

  /** Stable insertion sort by `key`. */
  function SortBy<T>(xs: seq<T>, key: T -> SortKey): (r: seq<T>)
    ensures multiset(r) == multiset(xs)
    ensures |r| == |xs|
    ensures SortedBy(r, key)
  {
    if |xs| == 0 then []
    else
      assert xs == [xs[0]] + xs[1..];
      var r := Insert(xs[0], SortBy(xs[1..], key), key);
      assert |r| == |multiset(r)|;
      r
  }

  lemma {:induction false} InsertBeforeSorted<T>(x: T, xs: seq<T>, key: T -> SortKey)
    requires SortedBy(xs, key)
    requires |xs| > 0 ==> KeyLe(key(x), key(xs[0]))
    ensures Insert(x, xs, key) == [x] + xs
  {
  }

  /** Sorting an already sorted list changes nothing, so sorting twice by
      the same key is the same as sorting once. */
  lemma {:induction false} SortOfSorted<T>(xs: seq<T>, key: T -> SortKey)
    requires SortedBy(xs, key)
    ensures SortBy(xs, key) == xs
  {
    if |xs| > 0 {
      assert SortedBy(xs[1..], key);
      SortOfSorted(xs[1..], key);
      assert xs == [xs[0]] + xs[1..];
      if |xs| > 1 {
        assert KeyLe(key(xs[0]), key(xs[1]));
      }
      InsertBeforeSorted(xs[0], xs[1..], key);
    }
  }

  lemma SortIdempotent<T>(xs: seq<T>, key: T -> SortKey)
    ensures SortBy(SortBy(xs, key), key) == SortBy(xs, key)
  {
    SortOfSorted(SortBy(xs, key), key);
  }

  ghost predicate InjectiveOn<T, U>(xs: seq<T>, f: T -> U)
  {
    forall i, j :: 0 <= i < j < |xs| ==> f(xs[i]) != f(xs[j])
  }

  lemma {:induction false} InsertKeepsInjective<T, U>(x: T, xs: seq<T>, key: T -> SortKey, f: T -> U)
    requires SortedBy(xs, key)
    requires InjectiveOn(xs, f)
    requires forall k :: 0 <= k < |xs| ==> f(xs[k]) != f(x)
    ensures InjectiveOn(Insert(x, xs, key), f)
    decreases |xs|
  {
    if |xs| > 0 && !KeyLe(key(x), key(xs[0])) {
      var rest := Insert(x, xs[1..], key);
      InsertKeepsInjective(x, xs[1..], key, f);
      assert xs == [xs[0]] + xs[1..];
      forall j | 0 <= j < |rest| ensures f(rest[j]) != f(xs[0]) {
        assert rest[j] in multiset(rest);
        if rest[j] != x {
          assert rest[j] in multiset(xs[1..]);
          var k :| 0 <= k < |xs[1..]| && xs[1..][k] == rest[j];
          assert xs[k + 1] == rest[j];
        }
      }
    }
  }

  /** Sorting keeps a projection injective: unique names stay unique. */
  lemma {:induction false} SortKeepsInjective<T, U>(xs: seq<T>, key: T -> SortKey, f: T -> U)
    requires InjectiveOn(xs, f)
    ensures InjectiveOn(SortBy(xs, key), f)
    decreases |xs|
  {
    if |xs| > 0 {
      var sorted := SortBy(xs[1..], key);
      SortKeepsInjective(xs[1..], key, f);
      forall k | 0 <= k < |sorted| ensures f(sorted[k]) != f(xs[0]) {
        assert sorted[k] in multiset(xs[1..]);
        var m :| 0 <= m < |xs[1..]| && xs[1..][m] == sorted[k];
        assert xs[m + 1] == sorted[k];
      }
      InsertKeepsInjective(xs[0], sorted, key, f);
    }
  }
}
