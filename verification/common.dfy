/**
 * Shared vocabulary for the point-of-sale model: an optional value, the
 * whitespace/case helpers that both the Python back end (`str.strip`,
 * `str.lower`) and the JavaScript front end (`String.trim`,
 * `toLowerCase`) rely on, and lexicographic string order as Python's
 * `sorted` uses it.
 */
module Common {

  datatype Option<+T> = None | Some(value: T) {
    function GetOr(default: T): T
    {
      match this
      case Some(v) => v
      case None => default
    }
  }

  function Min(a: int, b: int): int
  {
    if a <= b then a else b
  }

  function Max(a: int, b: int): int
  {
    if a >= b then a else b
  }

  function Abs(a: int): int
  {
    if a < 0 then -a else a
  }

  /** `abs` on decimal quantities. */
  function RAbs(x: real): (r: real)
    ensures r >= 0.0 && (r == x || r == -x)
  {
    if x < 0.0 then -x else x
  }

  /** The whitespace characters removed by `strip()` / `trim()`. */
  predicate IsSpace(c: char)
  {
    c == ' ' || c == '\t' || c == '\n' || c == '\r' || c == '\U{000B}' || c == '\U{000C}'
  }

  function TrimStart(s: string): (r: string)
    ensures |r| <= |s| && r == s[|s| - |r|..]
    ensures |r| > 0 ==> !IsSpace(r[0])
    ensures forall i :: 0 <= i < |s| - |r| ==> IsSpace(s[i])
  {
    if |s| > 0 && IsSpace(s[0]) then
      var r := TrimStart(s[1..]);
      assert s[1..][|s| - 1 - |r|..] == s[|s| - |r|..];
      assert forall i :: 1 <= i < |s| - |r| ==> s[i] == s[1..][i - 1];
      r
    else s
  }

  function TrimEnd(s: string): (r: string)
    ensures |r| <= |s| && r == s[..|r|]
    ensures |r| > 0 ==> !IsSpace(r[|r| - 1])
    ensures forall i :: |r| <= i < |s| ==> IsSpace(s[i])
  {
    if |s| > 0 && IsSpace(s[|s| - 1]) then
      var r := TrimEnd(s[..|s| - 1]);
      assert s[..|s| - 1][..|r|] == s[..|r|];
      assert forall i :: |r| <= i < |s| - 1 ==> s[i] == s[..|s| - 1][i];
      r
    else s
  }

  /** `s.strip()` in Python, `s.trim()` in JavaScript. */
  function Trim(s: string): (r: string)
    ensures |r| <= |s|
    ensures |r| > 0 ==> !IsSpace(r[0]) && !IsSpace(r[|r| - 1])
  {
    TrimEnd(TrimStart(s))
  }

  /** A string with no surrounding whitespace is its own trim. */
  lemma TrimOfTrimmed(s: string)
    requires |s| > 0 ==> !IsSpace(s[0]) && !IsSpace(s[|s| - 1])
    ensures Trim(s) == s
  {
  }

  lemma TrimIdempotent(s: string)
    ensures Trim(Trim(s)) == Trim(s)
  {
    TrimOfTrimmed(Trim(s));
  }

  /** A string is blank exactly when it trims to the empty string. */
  lemma TrimEmptyIffBlank(s: string)
    ensures Trim(s) == [] <==> forall i :: 0 <= i < |s| ==> IsSpace(s[i])
  {
    if forall i :: 0 <= i < |s| ==> IsSpace(s[i]) {
      BlankTrimStart(s);
    }
  }

  lemma BlankTrimStart(s: string)
    requires forall i :: 0 <= i < |s| ==> IsSpace(s[i])
    ensures TrimStart(s) == []
  {
  }

  function LowerChar(c: char): char
  {
    if 'A' <= c <= 'Z' then (c as int + 32) as char else c
  }

  /** `lower()` / `toLowerCase()`, on the ASCII letters. */
  function Lower(s: string): (r: string)
    ensures |r| == |s|
    ensures forall i :: 0 <= i < |s| ==> r[i] == LowerChar(s[i])
  {
    seq(|s|, i requires 0 <= i < |s| => LowerChar(s[i]))
  }

  lemma LowerIdempotent(s: string)
    ensures Lower(Lower(s)) == Lower(s)
  {
  }

  lemma LowerKeepsSpace(s: string)
    ensures forall i :: 0 <= i < |s| ==> (IsSpace(Lower(s)[i]) <==> IsSpace(s[i]))
  {
  }

  /** `needle` occurs in `haystack` starting at position `k`. */
  predicate InfixAt(needle: string, haystack: string, k: int)
  {
    0 <= k <= |haystack| - |needle| && haystack[k..k + |needle|] == needle
  }

  /** `needle in haystack` for strings (`includes` in JavaScript). */
  predicate IsInfix(needle: string, haystack: string)
  {
    exists k | 0 <= k <= |haystack| :: InfixAt(needle, haystack, k)
  }

  /** Python's string order: code point by code point, a proper prefix first. */
  predicate LexLe(a: string, b: string)
  {
    if |a| == 0 then true
    else if |b| == 0 then false
    else if a[0] != b[0] then a[0] < b[0]
    else LexLe(a[1..], b[1..])
  }

  lemma {:induction false} LexLeTotal(a: string, b: string)
    ensures LexLe(a, b) || LexLe(b, a)
  {
    if |a| > 0 && |b| > 0 && a[0] == b[0] {
      LexLeTotal(a[1..], b[1..]);
    }
  }

  lemma {:induction false} LexLeTransitive(a: string, b: string, c: string)
    requires LexLe(a, b) && LexLe(b, c)
    ensures LexLe(a, c)
  {
    if |a| > 0 && |b| > 0 && |c| > 0 && a[0] == b[0] && b[0] == c[0] {
      LexLeTransitive(a[1..], b[1..], c[1..]);
    }
  }

  lemma {:induction false} LexLeAntisymmetric(a: string, b: string)
    requires LexLe(a, b) && LexLe(b, a)
    ensures a == b
  {
    if |a| > 0 && |b| > 0 {
      LexLeAntisymmetric(a[1..], b[1..]);
      assert a == [a[0]] + a[1..];
      assert b == [b[0]] + b[1..];
    }
  }

  /** Every element appears once. */
  predicate Distinct<T(==)>(xs: seq<T>)
  {
    forall i, j :: 0 <= i < j < |xs| ==> xs[i] != xs[j]
  }

  /** `s` without the element at `k`. */
  function RemoveAt<T>(s: seq<T>, k: nat): (r: seq<T>)
    requires k < |s|
    ensures |r| == |s| - 1
    ensures multiset(s) == multiset{s[k]} + multiset(r)
  {
    assert s == s[..k] + [s[k]] + s[k + 1..];
    s[..k] + s[k + 1..]
  }

  /** The position of the first `x` in `xs`. */
  function FirstPos<T(==)>(xs: seq<T>, x: T): (r: nat)
    requires x in xs
    ensures r < |xs| && xs[r] == x && x !in xs[..r]
  {
    if xs[0] == x then 0
    else
      assert x in xs[1..] by { assert xs == [xs[0]] + xs[1..]; }
      var k := FirstPos(xs[1..], x);
      assert xs[..k + 1] == [xs[0]] + xs[1..][..k];
      k + 1
  }

  /**
   * The elements of `xs` that are not in `seen`, each kept at its first
   * occurrence: the "seen set" de-duplication loop that Python and
   * JavaScript code writes by hand.
   */
  function Dedup<T(==)>(xs: seq<T>, seen: set<T>): seq<T>
    decreases |xs|
  {
    if xs == [] then []
    else if xs[0] in seen then Dedup(xs[1..], seen)
    else [xs[0]] + Dedup(xs[1..], seen + {xs[0]})
  }

  lemma FirstPosTail<T>(xs: seq<T>, y: T)
    requires |xs| > 0 && y in xs[1..] && y != xs[0]
    ensures FirstPos(xs, y) == FirstPos(xs[1..], y) + 1
  {
  }

  /** De-duplication keeps each new element exactly once, and in the order
      of first occurrence. */
  lemma DedupFacts<T>(xs: seq<T>, seen: set<T>)
    ensures Distinct(Dedup(xs, seen))
    ensures forall x :: x in Dedup(xs, seen) ==> x in xs && x !in seen
    ensures forall x :: x in xs && x !in seen ==> x in Dedup(xs, seen)
    ensures forall i, j :: 0 <= i < j < |Dedup(xs, seen)| ==>
              FirstPos(xs, Dedup(xs, seen)[i]) < FirstPos(xs, Dedup(xs, seen)[j])
  {
    DedupSound(xs, seen);
    DedupComplete(xs, seen);
    DedupOrdered(xs, seen);
  }

  /** Every kept element is a new element of `xs`. */
  lemma {:induction false} DedupSound<T>(xs: seq<T>, seen: set<T>)
    ensures forall x :: x in Dedup(xs, seen) ==> x in xs && x !in seen
    decreases |xs|
  {
    if xs != [] {
      var x0 := xs[0];
      var tail := xs[1..];
      assert forall y :: y in tail ==> y in xs;
      if x0 in seen {
        DedupSound(tail, seen);
      } else {
        DedupSound(tail, seen + {x0});
        assert Dedup(xs, seen) == [x0] + Dedup(tail, seen + {x0});
      }
    }
  }

  /** Every new element of `xs` is kept. */
  lemma {:induction false} DedupComplete<T>(xs: seq<T>, seen: set<T>)
    ensures forall x :: x in xs && x !in seen ==> x in Dedup(xs, seen)
    decreases |xs|
  {
    if xs != [] {
      var x0 := xs[0];
      var tail := xs[1..];
      assert forall y :: y in xs ==> y == x0 || y in tail by {
        assert xs == [x0] + tail;
      }
      if x0 in seen {
        DedupComplete(tail, seen);
      } else {
        DedupComplete(tail, seen + {x0});
        assert Dedup(xs, seen) == [x0] + Dedup(tail, seen + {x0});
      }
    }
  }

  /** The kept elements are distinct and in order of first occurrence. */
  lemma {:induction false} DedupOrdered<T>(xs: seq<T>, seen: set<T>)
    ensures forall x :: x in Dedup(xs, seen) ==> x in xs
    ensures Distinct(Dedup(xs, seen))
    ensures forall i, j :: 0 <= i < j < |Dedup(xs, seen)| ==>
              FirstPos(xs, Dedup(xs, seen)[i]) < FirstPos(xs, Dedup(xs, seen)[j])
    decreases |xs|
  {
    DedupSound(xs, seen);
    if xs != [] {
      var x0 := xs[0];
      var tail := xs[1..];
      if x0 in seen {
        var r := Dedup(tail, seen);
        DedupOrdered(tail, seen);
        DedupSound(tail, seen);
        forall y | y in r ensures FirstPos(xs, y) == FirstPos(tail, y) + 1 {
          FirstPosTail(xs, y);
        }
      } else {
        var rest := Dedup(tail, seen + {x0});
        DedupOrdered(tail, seen + {x0});
        DedupSound(tail, seen + {x0});
        var r := [x0] + rest;
        assert Dedup(xs, seen) == r;
        forall y | y in rest ensures FirstPos(xs, y) == FirstPos(tail, y) + 1 {
          FirstPosTail(xs, y);
        }
        forall i, j | 0 <= i < j < |r| ensures r[i] != r[j] && FirstPos(xs, r[i]) < FirstPos(xs, r[j]) {
          assert r[j] == rest[j - 1];
          if i > 0 { assert r[i] == rest[i - 1]; }
        }
      }
    }
  }

  /** One element of the de-duplication loop: a seen element is skipped,
      a new one is appended and seen from then on; either way the result
      collected so far plus what the rest contributes stays `total`. */
  lemma DedupStep<T>(xs: seq<T>, i: nat, seen: set<T>, acc: seq<T>, total: seq<T>)
    requires i < |xs| && acc + Dedup(xs[i..], seen) == total
    ensures xs[i] in seen ==> acc + Dedup(xs[i + 1..], seen) == total
    ensures xs[i] !in seen ==> (acc + [xs[i]]) + Dedup(xs[i + 1..], seen + {xs[i]}) == total
  {
    assert xs[i..][1..] == xs[i + 1..];
    if xs[i] !in seen {
      assert acc + ([xs[i]] + Dedup(xs[i + 1..], seen + {xs[i]})) == (acc + [xs[i]]) + Dedup(xs[i + 1..], seen + {xs[i]});
    }
  }

  lemma {:induction false} DedupShorter<T>(xs: seq<T>, seen: set<T>)
    ensures |Dedup(xs, seen)| <= |xs|
    decreases |xs|
  {
    if xs != [] {
      DedupShorter(xs[1..], seen);
      DedupShorter(xs[1..], seen + {xs[0]});
    }
  }

  /** Nothing is kept when every element has been seen already. */
  lemma {:induction false} DedupAllSeen<T>(xs: seq<T>, seen: set<T>)
    requires forall k :: 0 <= k < |xs| ==> xs[k] in seen
    ensures Dedup(xs, seen) == []
    decreases |xs|
  {
    if xs != [] {
      DedupAllSeen(xs[1..], seen);
    }
  }

  /** De-duplicating one more element keeps it exactly when it is new. */
  lemma {:induction false} DedupSnoc<T>(xs: seq<T>, x: T, seen: set<T>)
    ensures Dedup(xs + [x], seen) == if x in xs || x in seen then Dedup(xs, seen) else Dedup(xs, seen) + [x]
    decreases |xs|
  {
    if xs == [] {
      assert [x][1..] == [];
    } else {
      var y := xs[0];
      var tail := xs[1..];
      assert (xs + [x])[1..] == tail + [x];
      assert x in xs <==> x == y || x in tail by {
        assert xs == [y] + tail;
      }
      if y in seen {
        DedupSnoc(tail, x, seen);
      } else {
        DedupSnoc(tail, x, seen + {y});
      }
    }
  }

  /** A sequence repeats nothing exactly when no element occurs twice in
      its multiset. */
  lemma {:induction false} DistinctIffSingleCounts<T>(xs: seq<T>)
    ensures Distinct(xs) <==> forall x :: multiset(xs)[x] <= 1
    decreases |xs|
  {
    if xs != [] {
      var h := xs[0];
      var tail := xs[1..];
      assert xs == [h] + tail;
      DistinctIffSingleCounts(tail);
      assert multiset(xs) == multiset{h} + multiset(tail);
      if Distinct(xs) {
        assert Distinct(tail) by {
          forall i, j | 0 <= i < j < |tail| ensures tail[i] != tail[j] {
            assert tail[i] == xs[i + 1] && tail[j] == xs[j + 1];
          }
        }
        assert h !in tail by {
          forall j | 0 <= j < |tail| ensures tail[j] != h {
            assert tail[j] == xs[j + 1];
          }
        }
      } else {
        var i, j :| 0 <= i < j < |xs| && xs[i] == xs[j];
        if i == 0 {
          assert xs[j] == tail[j - 1];
          assert multiset(xs)[h] >= 2;
        } else {
          assert xs[i] == tail[i - 1] && xs[j] == tail[j - 1];
          assert !Distinct(tail);
          var x :| multiset(tail)[x] > 1;
          assert multiset(xs)[x] > 1;
        }
      }
    }
  }

  /** Repeating nothing survives any reordering. */
  lemma DistinctPermutation<T>(xs: seq<T>, ys: seq<T>)
    requires multiset(xs) == multiset(ys) && Distinct(xs)
    ensures Distinct(ys)
  {
    DistinctIffSingleCounts(xs);
    DistinctIffSingleCounts(ys);
  }

  /** The elements that pass `keep`, in order: JavaScript's `filter`. */
  function Keep<T>(xs: seq<T>, keep: T -> bool): seq<T>
  {
    if xs == [] then []
    else (if keep(xs[0]) then [xs[0]] else []) + Keep(xs[1..], keep)
  }

  /** Every kept element is an element of the input that passes. */
  lemma {:induction false} KeepSound<T>(xs: seq<T>, keep: T -> bool)
    ensures |Keep(xs, keep)| <= |xs|
    ensures forall x :: x in Keep(xs, keep) ==> x in xs && keep(x)
  {
    if xs != [] {
      KeepSound(xs[1..], keep);
      assert forall x :: x in xs[1..] ==> x in xs;
    }
  }

  lemma {:induction false} KeepAppend<T>(a: seq<T>, b: seq<T>, keep: T -> bool)
    ensures Keep(a + b, keep) == Keep(a, keep) + Keep(b, keep)
    decreases |a|
  {
    if a == [] {
      assert a + b == b;
    } else {
      var head := if keep(a[0]) then [a[0]] else [];
      KeepAppend(a[1..], b, keep);
      assert (a + b)[0] == a[0];
      assert (a + b)[1..] == a[1..] + b;
      assert Keep(a + b, keep) == head + Keep(a[1..] + b, keep);
      assert Keep(a, keep) == head + Keep(a[1..], keep);
    }
  }

  /** Every element of the input that passes is kept. */
  lemma {:induction false} KeepComplete<T>(xs: seq<T>, keep: T -> bool)
    ensures forall x :: x in xs && keep(x) ==> x in Keep(xs, keep)
  {
    if xs != [] {
      KeepComplete(xs[1..], keep);
      assert forall x :: x in xs ==> x == xs[0] || x in xs[1..] by {
        assert xs == [xs[0]] + xs[1..];
      }
    }
  }

  /** A relation that holds between every earlier and later element still
      holds after filtering: filtering keeps the relative order. */
  lemma {:induction false} KeepPairs<T>(xs: seq<T>, keep: T -> bool, rel: (T, T) -> bool)
    requires forall i, j :: 0 <= i < j < |xs| ==> rel(xs[i], xs[j])
    ensures forall i, j :: 0 <= i < j < |Keep(xs, keep)| ==> rel(Keep(xs, keep)[i], Keep(xs, keep)[j])
  {
    if xs != [] {
      var tail := xs[1..];
      KeepPairs(tail, keep, rel);
      KeepSound(tail, keep);
      var rest := Keep(tail, keep);
      if keep(xs[0]) {
        var r := [xs[0]] + rest;
        forall i, j | 0 <= i < j < |r| ensures rel(r[i], r[j]) {
          assert r[j] == rest[j - 1];
          if i == 0 {
            assert rest[j - 1] in tail;
            var k :| 0 <= k < |tail| && tail[k] == rest[j - 1];
            assert xs[k + 1] == tail[k];
          } else {
            assert r[i] == rest[i - 1];
          }
        }
      }
    }
  }

  /** De-duplicating from scratch keeps exactly the elements. */
  lemma DedupMembers<T>(xs: seq<T>)
    ensures forall x :: x in Dedup(xs, {}) <==> x in xs
  {
    DedupSound(xs, {});
    DedupComplete(xs, {});
  }

  /** Filtering a sequence that repeats nothing repeats nothing. */
  lemma KeepDistinct<T>(xs: seq<T>, keep: T -> bool)
    requires Distinct(xs)
    ensures Distinct(Keep(xs, keep))
  {
    KeepPairs(xs, keep, (a, b) => a != b);
  }

  /** Two sequences that repeat nothing and share nothing join into one
      that repeats nothing. */
  lemma DistinctConcat<T>(a: seq<T>, b: seq<T>)
    requires Distinct(a) && Distinct(b)
    requires forall x :: x in a ==> x !in b
    ensures Distinct(a + b)
  {
    var r := a + b;
    forall i, j | 0 <= i < j < |r| ensures r[i] != r[j] {
      if j < |a| {
        assert r[i] == a[i] && r[j] == a[j];
      } else if i < |a| {
        assert r[i] == a[i] && r[j] == b[j - |a|];
        assert a[i] in a && b[j - |a|] in b;
      } else {
        assert r[i] == b[i - |a|] && r[j] == b[j - |a|];
      }
    }
  }
}
