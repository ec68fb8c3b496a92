/**
 * The start-up progress of frontend/src/posapp/utils/loading.js: named
 * sources report a percentage each; the overall progress is the rounded
 * mean. Sources are kept in insertion order, as a JavaScript object
 * keeps its keys. The progress animation and the completion timers are
 * not part of this model: the progress is the animation's end value.
 */
module LoadingProgress {
  import opened Common

  datatype Source = Source(name: string, value: int)

  datatype State = State(sources: seq<Source>, sourceCount: nat, completedSum: int, isCompleting: bool,
                         progress: int, active: bool)

  function Names(sources: seq<Source>): (r: seq<string>)
    ensures |r| == |sources|
    ensures forall k :: 0 <= k < |sources| ==> r[k] == sources[k].name
  {
    seq(|sources|, k requires 0 <= k < |sources| => sources[k].name)
  }

  function Sum(sources: seq<Source>): int
  {
    if sources == [] then 0 else sources[0].value + Sum(sources[1..])
  }

  /** `Math.round(a / n)` for a non-negative `a` and positive `n`. */
  function RoundDiv(a: int, n: int): int
    requires n > 0
  {
    (2 * a + n) / (2 * n)
  }

  lemma RoundDivBounds(a: int, n: int)
    requires n > 0 && 0 <= a <= 100 * n
    ensures 0 <= RoundDiv(a, n) <= 100
  {
    var d := 2 * n;
    var x := 2 * a + n;
    var q := x / d;
    assert q * d + x % d == x;
    if q >= 101 {
      MulMono(101, q, d);
      assert false;
    }
  }

  lemma MulMono(a: int, b: int, d: int)
    requires a <= b && d > 0
    ensures a * d <= b * d
  {
  }

  /** A sum of 100 per source rounds to exactly 100. */
  lemma RoundDivFull(n: int)
    requires n > 0
    ensures RoundDiv(100 * n, n) == 100
  {
    DivUnique(2 * (100 * n) + n, 2 * n, 100, n);
  }

  lemma DivUnique(x: int, d: int, q: int, rest: int)
    requires d > 0 && x == q * d + rest && 0 <= rest < d
    ensures x / d == q
  {
    var q' := x / d;
    assert q' * d + x % d == x;
    if q' > q {
      MulMono(q + 1, q', d);
    } else if q' < q {
      MulMono(q' + 1, q, d);
    }
  }

  /** What holds of the state between calls: each source appears once,
      values are percentages, and the running sum is their total. */
  predicate Valid(s: State)
  {
    && Distinct(Names(s.sources))
    && (forall k :: 0 <= k < |s.sources| ==> 0 <= s.sources[k].value <= 100)
    && s.completedSum == Sum(s.sources)
    && |s.sources| <= s.sourceCount
    && 0 <= s.progress <= 100
  }

  function Zeroed(names: seq<string>): (r: seq<Source>)
    ensures |r| == |names|
    ensures forall k :: 0 <= k < |r| ==> r[k] == Source(names[k], 0)
    ensures Sum(r) == 0
  {
    if names == [] then [] else [Source(names[0], 0)] + Zeroed(names[1..])
  }

  /**
   * `initLoadingSources`: every listed source at 0 and the counters
   * reset; the loading is active only for a non-empty list. (The source
   * count is the list's length.)
   */
  function InitLoadingSources(list: seq<string>, s: State): (r: State)
    ensures r.sourceCount == |list| && r.completedSum == 0 && !r.isCompleting
    ensures forall k :: 0 <= k < |r.sources| ==> r.sources[k].value == 0
    ensures forall n :: n in Names(r.sources) <==> n in list
    ensures list != [] ==> r.progress == 0 && r.active
    ensures list == [] ==> r.sources == [] && r.active == s.active
    ensures Valid(s) || list != [] ==> Valid(r)
  {
    if list == [] then s.(sources := [], sourceCount := 0, completedSum := 0, isCompleting := false)
    else
      var names := Dedup(list, {});
      DedupFacts(list, {});
      DedupShorter(list, {});
      var sources := Zeroed(names);
      assert Names(sources) == names;
      State(sources, |list|, 0, false, 0, true)
  }

  function IndexOf(sources: seq<Source>, name: string): (r: Option<nat>)
    ensures r.Some? ==> r.value < |sources| && sources[r.value].name == name
    ensures r.None? ==> forall k :: 0 <= k < |sources| ==> sources[k].name != name
  {
    if sources == [] then None
    else if sources[0].name == name then Some(0)
    else
      var rest := IndexOf(sources[1..], name);
      assert forall k :: 1 <= k < |sources| ==> sources[k] == sources[1..][k - 1];
      if rest.Some? then Some(rest.value + 1) else None
  }

  lemma {:induction false} SumUpdate(sources: seq<Source>, k: nat, v: int)
    requires k < |sources|
    ensures Sum(sources[k := sources[k].(value := v)]) == Sum(sources) - sources[k].value + v
    decreases k
  {
    if k > 0 {
      SumUpdate(sources[1..], k - 1, v);
      assert sources[k := sources[k].(value := v)][1..] == sources[1..][k - 1 := sources[k].(value := v)];
    }
  }

  lemma {:induction false} SumBound(sources: seq<Source>)
    requires forall k :: 0 <= k < |sources| ==> 0 <= sources[k].value <= 100
    ensures 0 <= Sum(sources) <= 100 * |sources|
    decreases |sources|
  {
    if sources != [] {
      SumBound(sources[1..]);
    }
  }

  /**
   * `setSourceProgress`: nothing happens for an unknown source, while
   * completing, or without sources. Otherwise the value is clamped to
   * [0, 100] and never lowered; an increase adds exactly the difference
   * to the running sum, sets the progress to the rounded mean, and starts
   * completing at 100.
   */
  function SetSourceProgress(s: State, name: string, value: int): (r: State)
    requires Valid(s)
    ensures Valid(r)
  {
    var idx := IndexOf(s.sources, name);
    if idx.None? || s.isCompleting || s.sourceCount == 0 then s
    else
      var k := idx.value;
      var updated := Max(s.sources[k].value, Max(0, Min(100, value)));
      RaiseValid(s, k, updated);
      Raise(s, k, updated)
  }

  /** Source `k` moved up to `updated`, and the mean recomputed when the
      sum grew. */
  function Raise(s: State, k: nat, updated: int): State
    requires k < |s.sources| && s.sourceCount > 0
  {
    var previous := s.sources[k].value;
    var sources := s.sources[k := s.sources[k].(value := updated)];
    if updated > previous then
      var sum := s.completedSum + (updated - previous);
      var mean := RoundDiv(sum, s.sourceCount);
      if mean >= 100 then s.(sources := sources, completedSum := sum, progress := 100, isCompleting := true)
      else s.(sources := sources, completedSum := sum, progress := mean)
    else s.(sources := sources)
  }

  lemma RaiseValid(s: State, k: nat, updated: int)
    requires Valid(s) && k < |s.sources| && s.sourceCount > 0
    requires s.sources[k].value <= updated <= 100
    ensures Valid(Raise(s, k, updated))
  {
    var sources := s.sources[k := s.sources[k].(value := updated)];
    var r := Raise(s, k, updated);
    assert r.sources == sources && r.sourceCount == s.sourceCount;
    assert Names(sources) == Names(s.sources);
    assert forall j :: 0 <= j < |sources| ==> 0 <= sources[j].value <= 100;
    SumUpdate(s.sources, k, updated);
    assert r.completedSum == Sum(sources);
    if updated > s.sources[k].value {
      SumBound(sources);
      RoundDivBounds(r.completedSum, s.sourceCount);
    }
    assert 0 <= r.progress <= 100;
  }

  /** The effect of `setSourceProgress` on the sources: nothing happens for
      an unknown source, while completing, or without sources; otherwise
      only the named source moves, never down, to its clamped report; and
      when the sum grew the progress is its rounded mean, completing at
      100. */
  lemma SetSourceProgressEffect(s: State, name: string, value: int)
    requires Valid(s)
    ensures var r := SetSourceProgress(s, name, value);
      && (IndexOf(s.sources, name).None? || s.isCompleting || s.sourceCount == 0 ==> r == s)
      && Names(r.sources) == Names(s.sources)
      && (forall k :: 0 <= k < |s.sources| && s.sources[k].name != name ==> r.sources[k] == s.sources[k])
      && (forall k :: 0 <= k < |s.sources| ==> r.sources[k].value >= s.sources[k].value)
      && (forall k :: 0 <= k < |s.sources| && s.sources[k].name == name && !s.isCompleting && s.sourceCount > 0 ==>
            r.sources[k].value == Max(s.sources[k].value, Max(0, Min(100, value))))
      && r.completedSum >= s.completedSum
      && (r.completedSum > s.completedSum ==>
            r.progress == (if RoundDiv(r.completedSum, s.sourceCount) >= 100 then 100 else RoundDiv(r.completedSum, s.sourceCount))
            && (r.isCompleting <==> RoundDiv(r.completedSum, s.sourceCount) >= 100))
  {
    var idx := IndexOf(s.sources, name);
    if idx.Some? && !s.isCompleting && s.sourceCount > 0 {
      var k := idx.value;
      forall j | 0 <= j < |s.sources| && s.sources[j].name == name ensures j == k {
        assert Names(s.sources)[j] == Names(s.sources)[k];
      }
      var updated := Max(s.sources[k].value, Max(0, Min(100, value)));
      var r := Raise(s, k, updated);
      assert Names(r.sources) == Names(s.sources);
    }
  }

  /** Once every source reports 100 the loading completes. */
  lemma AllLoadedCompletes(s: State, name: string)
    requires Valid(s) && !s.isCompleting && s.sourceCount == |s.sources|
    requires IndexOf(s.sources, name).Some?
    requires forall k :: 0 <= k < |s.sources| && s.sources[k].name != name ==> s.sources[k].value == 100
    requires s.sources[IndexOf(s.sources, name).value].value < 100
    ensures SetSourceProgress(s, name, 100).isCompleting
    ensures SetSourceProgress(s, name, 100).progress == 100
  {
    var r := SetSourceProgress(s, name, 100);
    var k := IndexOf(s.sources, name).value;
    assert r.sources[k].value == 100;
    assert forall j :: 0 <= j < |r.sources| ==> r.sources[j].value == 100;
    AllFull(r.sources);
    RoundDivFull(s.sourceCount);
  }

  lemma {:induction false} AllFull(sources: seq<Source>)
    requires forall k :: 0 <= k < |sources| ==> sources[k].value == 100
    ensures Sum(sources) == 100 * |sources|
    decreases |sources|
  {
    if sources != [] {
      AllFull(sources[1..]);
    }
  }
}
