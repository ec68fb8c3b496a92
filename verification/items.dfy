/**
 * The item search of posawesome/posawesome/api/items.py: how a search
 * value becomes lower-cased search words, when the word filter is active,
 * how a row is matched against the words, how the page length and start
 * are chosen, and how the paged query collects its result. The database
 * pages are inputs.
 */
module ItemSearch {
  import opened Common

  // ---------------------------------------------------------------------
  // Integer arguments (items.py:317-324)

  /** `_to_positive_int`: `None` when the argument does not convert to an
      integer (`None` here too) or converts to a negative one. */
  function ToPositiveInt(value: Option<int>): (r: Option<nat>)
    ensures r.Some? <==> value.Some? && value.value >= 0
    ensures r.Some? ==> r.value == value.value
  {
    if value.Some? && value.value >= 0 then Some(value.value) else None
  }

  lemma ToPositiveIntIdempotent(value: Option<int>)
    ensures var once := ToPositiveInt(value);
            ToPositiveInt(if once.Some? then Some(once.value as int) else None) == once
  {
  }

  // ---------------------------------------------------------------------
  // Search words (items.py:374-386, 461)

  /** The length of the run of non-space characters that starts `s`. */
  function RunLength(s: string): (n: nat)
    ensures n <= |s|
    ensures forall i :: 0 <= i < n ==> !IsSpace(s[i])
    ensures n < |s| ==> IsSpace(s[n])
  {
    if s == [] || IsSpace(s[0]) then 0 else 1 + RunLength(s[1..])
  }

  /** `re.split(r"\s+", s.strip())` with the empty pieces dropped: the
      maximal runs of non-space characters, in order. */
  function Tokens(s: string): (r: seq<string>)
    ensures forall k :: 0 <= k < |r| ==> r[k] != [] && forall i :: 0 <= i < |r[k]| ==> !IsSpace(r[k][i])
    decreases |s|
  {
    if s == [] then []
    else if IsSpace(s[0]) then Tokens(s[1..])
    else
      var n := RunLength(s);
      var rest := Tokens(s[n..]);
      var r := [s[..n]] + rest;
      assert forall k :: 1 <= k < |r| ==> r[k] == rest[k - 1];
      r
  }

  function Concat(ws: seq<string>): string
  {
    if ws == [] then [] else ws[0] + Concat(ws[1..])
  }

  /** The characters of `s` that are not whitespace, in order. */
  function Ink(s: string): string
  {
    if s == [] then [] else (if IsSpace(s[0]) then [] else [s[0]]) + Ink(s[1..])
  }

  lemma {:induction false} InkOfRun(s: string, n: nat)
    requires n <= |s| && forall i :: 0 <= i < n ==> !IsSpace(s[i])
    ensures Ink(s) == s[..n] + Ink(s[n..])
    decreases n
  {
    if n > 0 {
      InkOfRun(s[1..], n - 1);
      assert s[1..][n - 1..] == s[n..];
      assert s[..n] == [s[0]] + s[1..][..n - 1];
    }
  }

  /** Tokenising loses only whitespace: the tokens spell out every other
      character of the input, in order. */
  lemma {:induction false} TokensKeepText(s: string)
    ensures Concat(Tokens(s)) == Ink(s)
    decreases |s|
  {
    if s != [] {
      if IsSpace(s[0]) {
        TokensKeepText(s[1..]);
      } else {
        var n := RunLength(s);
        TokensKeepText(s[n..]);
        InkOfRun(s, n);
        var r := [s[..n]] + Tokens(s[n..]);
        assert Tokens(s) == r;
        assert r[1..] == Tokens(s[n..]);
      }
    }
  }

  /** The first token longer than every token before it, starting from
      `longest`. */
  function Longest(tokens: seq<string>, longest: string): (r: string)
    ensures |r| >= |longest|
    ensures forall k :: 0 <= k < |tokens| ==> |tokens[k]| <= |r|
    ensures r == longest || r in tokens
    ensures (forall k :: 0 <= k < |tokens| ==> |tokens[k]| <= |longest|) ==> r == longest
    ensures (exists k :: 0 <= k < |tokens| && |tokens[k]| > |longest|) ==>
              exists i :: 0 <= i < |tokens| && r == tokens[i] && forall j :: 0 <= j < i ==> |tokens[j]| < |r|
  {
    if tokens == [] then longest
    else
      var next := if |tokens[0]| > |longest| then tokens[0] else longest;
      var r := Longest(tokens[1..], next);
      LongestStep(tokens, longest, r);
      r
  }

  /** One step of `Longest`: what the scan of the later tokens, started
      from the longer of `longest` and the first token, says about all
      of them. */
  lemma LongestStep(tokens: seq<string>, longest: string, r: string)
    requires tokens != []
    requires var next := if |tokens[0]| > |longest| then tokens[0] else longest;
             var rest := tokens[1..];
             |r| >= |next|
             && (forall k :: 0 <= k < |rest| ==> |rest[k]| <= |r|)
             && (r == next || r in rest)
             && ((forall k :: 0 <= k < |rest| ==> |rest[k]| <= |next|) ==> r == next)
             && ((exists k :: 0 <= k < |rest| && |rest[k]| > |next|) ==>
                   exists i :: 0 <= i < |rest| && r == rest[i] && forall j :: 0 <= j < i ==> |rest[j]| < |r|)
    ensures |r| >= |longest|
    ensures forall k :: 0 <= k < |tokens| ==> |tokens[k]| <= |r|
    ensures r == longest || r in tokens
    ensures (forall k :: 0 <= k < |tokens| ==> |tokens[k]| <= |longest|) ==> r == longest
    ensures (exists k :: 0 <= k < |tokens| && |tokens[k]| > |longest|) ==>
              exists i :: 0 <= i < |tokens| && r == tokens[i] && forall j :: 0 <= j < i ==> |tokens[j]| < |r|
  {
    var next := if |tokens[0]| > |longest| then tokens[0] else longest;
    var rest := tokens[1..];
    assert forall k :: 1 <= k < |tokens| ==> tokens[k] == rest[k - 1];
    if exists k :: 0 <= k < |rest| && |rest[k]| > |next| {
      var i :| 0 <= i < |rest| && r == rest[i] && forall j :: 0 <= j < i ==> |rest[j]| < |r|;
      var k :| 0 <= k < |rest| && |rest[k]| > |next|;
      assert |r| > |next| >= |tokens[0]|;
      assert tokens[i + 1] == r;
    } else {
      assert r == next;
      if |tokens[0]| > |longest| {
        assert r == tokens[0];
      }
    }
  }

  function LowerAll(ws: seq<string>): (r: seq<string>)
    ensures |r| == |ws|
    ensures forall k :: 0 <= k < |ws| ==> r[k] == Lower(ws[k])
  {
    seq(|ws|, k requires 0 <= k < |ws| => Lower(ws[k]))
  }

  /** `search_words`: the lower-cased tokens, each once, in the order they
      are first seen. */
  function SearchWords(searchValue: string): (r: seq<string>)
  {
    Dedup(LowerAll(Tokens(Trim(searchValue))), {})
  }

  lemma SearchWordsFacts(searchValue: string)
    ensures var r := SearchWords(searchValue);
            var tokens := Tokens(Trim(searchValue));
            && Distinct(r)
            && (forall k :: 0 <= k < |r| ==> exists t :: t in tokens && r[k] == Lower(t))
            && (forall t :: t in tokens ==> Lower(t) in r)
            && (forall k :: 0 <= k < |r| ==> r[k] != [] && Lower(r[k]) == r[k])
  {
    var tokens := Tokens(Trim(searchValue));
    var lowered := LowerAll(tokens);
    DedupSound(lowered, {});
    DedupComplete(lowered, {});
    DedupOrdered(lowered, {});
    var r := SearchWords(searchValue);
    forall k | 0 <= k < |r| ensures (exists t :: t in tokens && r[k] == Lower(t)) && r[k] != [] && Lower(r[k]) == r[k] {
      LoweredWord(tokens, r[k]);
    }
    forall t | t in tokens ensures Lower(t) in r {
      LoweredToken(tokens, t);
    }
  }

  /** A lowered token is the lower case of a non-empty token, and stays
      as it is when lowered again. */
  lemma LoweredWord(tokens: seq<string>, w: string)
    requires forall k :: 0 <= k < |tokens| ==> tokens[k] != []
    requires w in LowerAll(tokens)
    ensures exists t :: t in tokens && w == Lower(t)
    ensures w != [] && Lower(w) == w
  {
    var lowered := LowerAll(tokens);
    var j :| 0 <= j < |lowered| && lowered[j] == w;
    assert tokens[j] in tokens;
    LowerIdempotent(tokens[j]);
  }

  lemma LoweredToken(tokens: seq<string>, t: string)
    requires t in tokens
    ensures Lower(t) in LowerAll(tokens)
  {
    var j :| 0 <= j < |tokens| && tokens[j] == t;
    assert LowerAll(tokens)[j] == Lower(t);
  }

  /** `" ".join(words)`. */
  function JoinSpace(ws: seq<string>): string
  {
    if ws == [] then []
    else if |ws| == 1 then ws[0]
    else ws[0] + " " + JoinSpace(ws[1..])
  }

  function TotalLength(ws: seq<string>): nat
  {
    if ws == [] then 0 else |ws[0]| + TotalLength(ws[1..])
  }

  lemma {:induction false} JoinSpaceLength(ws: seq<string>)
    requires ws != []
    ensures |JoinSpace(ws)| == TotalLength(ws) + |ws| - 1
    decreases |ws|
  {
    if |ws| > 1 {
      JoinSpaceLength(ws[1..]);
    }
  }

  /** `word_filter_active`: the joined search words have at least three
      characters. */
  predicate WordFilterActive(words: seq<string>)
  {
    var normalized := JoinSpace(words);
    normalized != [] && |normalized| >= 3
  }

  /** For non-empty words the filter is active exactly when there are at
      least two words, or one of at least three characters. */
  lemma WordFilterActiveIff(words: seq<string>)
    requires forall k :: 0 <= k < |words| ==> words[k] != []
    ensures WordFilterActive(words) <==> |words| >= 2 || (|words| == 1 && |words[0]| >= 3)
  {
    if words != [] {
      JoinSpaceLength(words);
      if |words| >= 2 {
        assert TotalLength(words) >= 2 by {
          assert TotalLength(words) == |words[0]| + |words[1]| + TotalLength(words[2..]) by {
            assert words[1..][1..] == words[2..];
          }
        }
      }
    }
  }

  // ---------------------------------------------------------------------
  // Matching a row (items.py:483-547)

  /** A searchable value as `_collect_searchable_values` keeps it. */
  function Normalize(u: string): string
  {
    Lower(Trim(u))
  }

  /** `_collect_searchable_values` after the raw values are gathered: the
      non-blank values, trimmed and lower-cased. */
  function Searchable(values: seq<string>): seq<string>
  {
    if values == [] then []
    else (if Trim(values[0]) != [] then [Normalize(values[0])] else []) + Searchable(values[1..])
  }

  /** Some non-blank raw value has `word` in its normalised form. */
  predicate FoundIn(word: string, values: seq<string>)
  {
    exists u :: u in values && Trim(u) != [] && IsInfix(word, Normalize(u))
  }

  /** Some value has `word` in it. */
  predicate Occurs(word: string, values: seq<string>)
  {
    exists v :: v in values && IsInfix(word, v)
  }

  lemma {:induction false} SearchableHas(u: string, values: seq<string>)
    requires u in values && Trim(u) != []
    ensures Normalize(u) in Searchable(values)
    decreases |values|
  {
    if u != values[0] {
      assert u in values[1..] by { assert values == [values[0]] + values[1..]; }
      SearchableHas(u, values[1..]);
    }
  }

  lemma {:induction false} SearchableSource(v: string, values: seq<string>) returns (u: string)
    requires v in Searchable(values)
    ensures u in values && Trim(u) != [] && v == Normalize(u)
    decreases |values|
  {
    var keepHead := Trim(values[0]) != [];
    var head := if keepHead then [Normalize(values[0])] else [];
    assert Searchable(values) == head + Searchable(values[1..]);
    if v in head {
      u := values[0];
    } else {
      u := SearchableSource(v, values[1..]);
      assert u in values[1..];
    }
  }

  lemma SearchableFinds(word: string, values: seq<string>)
    ensures Occurs(word, Searchable(values)) <==> FoundIn(word, values)
  {
    if FoundIn(word, values) {
      var u :| u in values && Trim(u) != [] && IsInfix(word, Normalize(u));
      SearchableHas(u, values);
    }
    if Occurs(word, Searchable(values)) {
      var v :| v in Searchable(values) && IsInfix(word, v);
      var u := SearchableSource(v, values);
    }
  }

  function ContainedIn(word: string, values: seq<string>): (r: bool)
    ensures r <==> Occurs(word, values)
  {
    if values == [] then false
    else
      assert forall v :: v in values <==> v == values[0] || v in values[1..] by {
        assert values == [values[0]] + values[1..];
      }
      IsInfix(word, values[0]) || ContainedIn(word, values[1..])
  }

  function AllContained(words: seq<string>, values: seq<string>): (r: bool)
    ensures r <==> forall w :: w in words ==> Occurs(w, values)
  {
    if words == [] then true
    else
      assert forall w :: w in words <==> w == words[0] || w in words[1..] by {
        assert words == [words[0]] + words[1..];
      }
      ContainedIn(words[0], values) && AllContained(words[1..], values)
  }

  /** `_matches_search_words`: with the filter off, or without words, every
      row matches; otherwise every word must occur in some non-blank
      value, trimmed and lower-cased. */
  function MatchesSearchWords(values: seq<string>, words: seq<string>, active: bool): (r: bool)
    ensures r <==> !active || words == [] || forall w :: w in words ==> FoundIn(w, values)
  {
    if !active || words == [] then true
    else
      var searchable := Searchable(values);
      assert forall w :: Occurs(w, searchable) <==> FoundIn(w, values) by {
        forall w ensures Occurs(w, searchable) <==> FoundIn(w, values) {
          SearchableFinds(w, values);
        }
      }
      AllContained(words, searchable)
  }

  /** More searchable text never loses a match. */
  lemma MatchesMonotone(values: seq<string>, more: seq<string>, words: seq<string>, active: bool)
    requires MatchesSearchWords(values, words, active)
    ensures MatchesSearchWords(values + more, words, active)
  {
    if active && words != [] {
      forall w | w in words ensures FoundIn(w, values + more) {
        var u :| u in values && Trim(u) != [] && IsInfix(w, Normalize(u));
        assert u in values + more;
      }
    }
  }

  // ---------------------------------------------------------------------
  // Paging (items.py:419-436, 458-459)

  const DefaultSearchLimit: nat := 500
  const DefaultPageSize: nat := 100

  datatype Paging = Paging(searchLimit: nat, limitPageLength: Option<nat>, limitStart: Option<nat>,
                           initialPageStart: nat, pageSize: nat)

  function Truthy(n: Option<nat>): bool
  {
    n.Some? && n.value != 0
  }

  /** The page length, start and size `_build_search_plan` chooses. */
  function PlanPaging(useLimitSearch: bool, rawSearchLimit: Option<int>, rawLimit: Option<int>, rawOffset: Option<int>,
                      startAfter: bool, forceReload: bool, hasSearchValue: bool): (r: Paging)
    ensures useLimitSearch && Truthy(ToPositiveInt(rawSearchLimit)) ==> r.searchLimit == rawSearchLimit.value
    ensures useLimitSearch && !Truthy(ToPositiveInt(rawSearchLimit)) ==> r.searchLimit == DefaultSearchLimit
    ensures ToPositiveInt(rawLimit).Some? ==> r.limitPageLength == ToPositiveInt(rawLimit)
    ensures ToPositiveInt(rawLimit).None? && useLimitSearch && !forceReload ==> r.limitPageLength == Some(r.searchLimit)
    ensures ToPositiveInt(rawLimit).None? && (!useLimitSearch || forceReload) ==> r.limitPageLength.None?
    ensures r.limitStart.Some? <==> ToPositiveInt(rawLimit).Some? && Truthy(ToPositiveInt(rawOffset)) && !startAfter
    ensures r.limitStart.Some? ==> r.limitStart == ToPositiveInt(rawOffset) && r.initialPageStart == r.limitStart.value
    ensures r.limitStart.None? ==> r.initialPageStart == 0
    ensures r.pageSize > 0
    ensures Truthy(r.limitPageLength) ==> r.pageSize == r.limitPageLength.value
    ensures !Truthy(r.limitPageLength) ==> r.pageSize == DefaultPageSize
  {
    var searchLimit := if useLimitSearch then
                         (var s := ToPositiveInt(rawSearchLimit); if Truthy(s) then s.value else DefaultSearchLimit)
                       else 0;
    var limit := ToPositiveInt(rawLimit);
    var offset := ToPositiveInt(rawOffset);
    var lpl0: Option<nat> := if limit.Some? then limit
                             else if useLimitSearch && !forceReload then Some(searchLimit)
                             else None;
    var start: Option<nat> := if limit.Some? && Truthy(offset) && !startAfter then offset else None;
    var lpl := if hasSearchValue && !useLimitSearch && limit.None? then None else lpl0;
    Paging(searchLimit, lpl, start, if start.Some? then start.value else 0,
           if Truthy(lpl) then lpl.value else DefaultPageSize)
  }

  // ---------------------------------------------------------------------
  // Collecting the result (items.py:587-653)

  function Flatten<T>(pages: seq<seq<T>>): seq<T>
  {
    if pages == [] then [] else pages[0] + Flatten(pages[1..])
  }

  lemma {:induction false} FlattenSnoc<T>(pages: seq<seq<T>>, p: seq<T>)
    ensures Flatten(pages + [p]) == Flatten(pages) + p
    decreases |pages|
  {
    if pages == [] {
      assert Flatten([p]) == p + Flatten([]);
    } else {
      FlattenSnoc(pages[1..], p);
      assert (pages + [p])[1..] == pages[1..] + [p];
    }
  }

  predicate IsPrefix<T(==)>(a: seq<T>, b: seq<T>)
  {
    |a| <= |b| && b[..|a|] == a
  }

  /** The rows of one page kept by the row filter, stopping once `limit`
      rows are collected in all. */
  method CollectPage<T(==)>(result: seq<T>, page: seq<T>, keep: T -> bool, limit: nat) returns (out: seq<T>)
    requires limit > 0 ==> |result| < limit
    ensures IsPrefix(result, out) && IsPrefix(out, result + Keep(page, keep))
    ensures limit > 0 ==> |out| <= limit
    ensures (limit == 0 || |result + Keep(page, keep)| <= limit) ==> out == result + Keep(page, keep)
    ensures limit > 0 && |result + Keep(page, keep)| > limit ==> |out| == limit
  {
    out := result;
    var i := 0;
    var full := false;
    assert page[..0] == [];
    while i < |page| && !full
      invariant 0 <= i <= |page|
      invariant out == result + Keep(page[..i], keep)
      invariant limit > 0 ==> |out| <= limit
      invariant full <==> limit > 0 && |out| >= limit
      decreases |page| - i, !full
    {
      KeepSnoc(page, i, keep);
      if keep(page[i]) {
        out := out + [page[i]];
        full := limit > 0 && |out| >= limit;
      }
      i := i + 1;
    }
    CollectPageExit(result, page, keep, limit, i, out);
  }

  /** Extending the scanned part of a page by one row keeps that row when
      the filter does. */
  lemma KeepSnoc<T>(page: seq<T>, i: nat, keep: T -> bool)
    requires i < |page|
    ensures Keep(page[..i + 1], keep) == Keep(page[..i], keep) + (if keep(page[i]) then [page[i]] else [])
  {
    KeepAppend(page[..i], [page[i]], keep);
    assert page[..i + 1] == page[..i] + [page[i]];
  }

  /** Where the scan of a page stops, the collected rows are the whole
      kept page or, once the limit is reached, a prefix of it of that
      length. */
  lemma CollectPageExit<T>(result: seq<T>, page: seq<T>, keep: T -> bool, limit: nat, i: nat, out: seq<T>)
    requires limit > 0 ==> |result| < limit
    requires i <= |page| && out == result + Keep(page[..i], keep)
    requires limit > 0 ==> |out| <= limit
    requires i == |page| || (limit > 0 && |out| >= limit)
    ensures IsPrefix(result, out) && IsPrefix(out, result + Keep(page, keep))
    ensures limit > 0 ==> |out| <= limit
    ensures (limit == 0 || |result + Keep(page, keep)| <= limit) ==> out == result + Keep(page, keep)
    ensures limit > 0 && |result + Keep(page, keep)| > limit ==> |out| == limit
  {
    KeepAppend(page[..i], page[i..], keep);
    assert page[..i] + page[i..] == page;
    var whole := result + Keep(page, keep);
    assert whole == out + Keep(page[i..], keep);
    assert whole[..|out|] == out;
    assert out[..|result|] == result;
  }

  /** The pages the loop reads: up to the first empty page (not read),
      or up to and including the first page shorter than the page size. */
  function PagesRead<T>(pages: seq<seq<T>>, pageSize: nat): seq<seq<T>>
  {
    if pages == [] || pages[0] == [] then []
    else if |pages[0]| < pageSize then [pages[0]]
    else [pages[0]] + PagesRead(pages[1..], pageSize)
  }

  /**
   * `_run_item_query` with the database pages given in the order they
   * are fetched (a 0 `limit` standing for no limit): the rows the filter
   * keeps from every page read, in page order, cut at the limit.
   */
  method RunItemQuery<T(==)>(pages: seq<seq<T>>, keep: T -> bool, pageSize: nat, limit: nat) returns (result: seq<T>)
    ensures result == TruncateResult(Keep(Flatten(PagesRead(pages, pageSize)), keep), Some(limit))
  {
    result := [];
    var n := 0;
    var done := false;
    assert pages[..0] == [] && pages[0..] == pages;
    while n < |pages| && !done
      invariant 0 <= n <= |pages|
      invariant !done ==> Scanning(pages, pageSize, keep, limit, n, result)
      invariant done ==> result == TruncateResult(Keep(Flatten(PagesRead(pages, pageSize)), keep), Some(limit))
      decreases |pages| - n, !done
    {
      var page := pages[n];
      if page == [] {
        ScanEnds(pages, pageSize, keep, limit, n, result);
        done := true;
      } else {
        var before := result;
        result := CollectPage(result, page, keep, limit);
        PageStep(pages, pageSize, keep, limit, n, before, result);
        done := (limit > 0 && |result| >= limit) || |page| < pageSize;
        n := n + 1;
      }
    }
    if !done {
      ScanEnds(pages, pageSize, keep, limit, n, result);
    }
  }

  /** The loop has read `pages[..n]` in full, all of them pages the query
      reads, and collected every kept row of them, fewer than the limit. */
  ghost predicate Scanning<T>(pages: seq<seq<T>>, pageSize: nat, keep: T -> bool, limit: nat, n: nat, result: seq<T>)
  {
    && n <= |pages|
    && PagesRead(pages, pageSize) == pages[..n] + PagesRead(pages[n..], pageSize)
    && result == Keep(Flatten(pages[..n]), keep)
    && (limit > 0 ==> |result| < limit)
  }

  /** No page left, or an empty one: what is collected is the answer. */
  lemma ScanEnds<T>(pages: seq<seq<T>>, pageSize: nat, keep: T -> bool, limit: nat, n: nat, result: seq<T>)
    requires Scanning(pages, pageSize, keep, limit, n, result)
    requires n == |pages| || pages[n] == []
    ensures result == TruncateResult(Keep(Flatten(PagesRead(pages, pageSize)), keep), Some(limit))
  {
    if n < |pages| {
      PagesReadAt(pages, n, pageSize);
    } else {
      assert pages[n..] == [];
    }
    assert pages[..n] + [] == pages[..n];
  }

  /** Reading a non-empty page: the answer when the limit is reached or the
      page is short, and otherwise one more page scanned. */
  lemma PageStep<T>(pages: seq<seq<T>>, pageSize: nat, keep: T -> bool, limit: nat, n: nat, before: seq<T>, out: seq<T>)
    requires Scanning(pages, pageSize, keep, limit, n, before)
    requires n < |pages| && pages[n] != []
    requires IsPrefix(before, out) && IsPrefix(out, before + Keep(pages[n], keep))
    requires (limit == 0 || |before + Keep(pages[n], keep)| <= limit) ==> out == before + Keep(pages[n], keep)
    requires limit > 0 && |before + Keep(pages[n], keep)| > limit ==> |out| == limit
    ensures (limit > 0 && |out| >= limit) || |pages[n]| < pageSize ==>
              out == TruncateResult(Keep(Flatten(PagesRead(pages, pageSize)), keep), Some(limit))
    ensures !((limit > 0 && |out| >= limit) || |pages[n]| < pageSize) ==> Scanning(pages, pageSize, keep, limit, n + 1, out)
  {
    var page := pages[n];
    var all := Keep(Flatten(PagesRead(pages, pageSize)), keep);
    var whole := Keep(Flatten(pages[..n + 1]), keep);
    var rest := if |page| < pageSize then [] else PagesRead(pages[n + 1..], pageSize);
    KeptThrough(pages, keep, n);
    ReadThrough(pages, pageSize, n);
    KeepFlattenAppend(pages[..n + 1], rest, keep);
    if limit > 0 && |out| >= limit {
      CutOfPrefix(out, whole, all, limit);
    } else if |page| < pageSize {
      var none: seq<seq<T>> := [];
      assert rest == none && Flatten(none) == [];
      assert all == whole + [];
    }
  }

  /** The rows kept from the first `n + 1` pages. */
  lemma KeptThrough<T>(pages: seq<seq<T>>, keep: T -> bool, n: nat)
    requires n < |pages|
    ensures Keep(Flatten(pages[..n + 1]), keep) == Keep(Flatten(pages[..n]), keep) + Keep(pages[n], keep)
  {
    FlattenSnoc(pages[..n], pages[n]);
    assert pages[..n + 1] == pages[..n] + [pages[n]];
    KeepAppend(Flatten(pages[..n]), pages[n], keep);
  }

  /** With the first `n` pages read and page `n` non-empty, the pages read
      are the first `n + 1` and, after a full page, those read from `n + 1`. */
  lemma ReadThrough<T>(pages: seq<seq<T>>, pageSize: nat, n: nat)
    requires n < |pages| && pages[n] != []
    requires PagesRead(pages, pageSize) == pages[..n] + PagesRead(pages[n..], pageSize)
    ensures PagesRead(pages, pageSize)
            == pages[..n + 1] + (if |pages[n]| < pageSize then [] else PagesRead(pages[n + 1..], pageSize))
  {
    PagesReadAt(pages, n, pageSize);
    SnocJoin(pages[..n], pages[n], if |pages[n]| < pageSize then [] else PagesRead(pages[n + 1..], pageSize),
             pages[..n + 1], PagesRead(pages[n..], pageSize));
  }

  /** Moving one element across a join. */
  lemma SnocJoin<T>(head: seq<T>, x: T, tail: seq<T>, head1: seq<T>, rest: seq<T>)
    requires head1 == head + [x] && rest == [x] + tail
    ensures head + rest == head1 + tail
  {
  }

  /** The pages read from position `n` on, one step unfolded. */
  lemma PagesReadAt<T>(pages: seq<seq<T>>, n: nat, pageSize: nat)
    requires n < |pages|
    ensures pages[n] == [] ==> PagesRead(pages[n..], pageSize) == []
    ensures pages[n] != [] ==>
              PagesRead(pages[n..], pageSize)
              == [pages[n]] + (if |pages[n]| < pageSize then [] else PagesRead(pages[n + 1..], pageSize))
  {
    assert pages[n..][0] == pages[n];
    assert pages[n..][1..] == pages[n + 1..];
  }

  /** Keeping rows distributes over joined page lists. */
  lemma KeepFlattenAppend<T>(a: seq<seq<T>>, b: seq<seq<T>>, keep: T -> bool)
    ensures Keep(Flatten(a + b), keep) == Keep(Flatten(a), keep) + Keep(Flatten(b), keep)
  {
    FlattenSplit(a + b, |a|);
    assert (a + b)[..|a|] == a && (a + b)[|a|..] == b;
    KeepAppend(Flatten(a), Flatten(b), keep);
  }

  /** `limit` rows taken from the front of a prefix of `all` are `all` cut
      at the limit. */
  lemma CutOfPrefix<T>(result: seq<T>, whole: seq<T>, all: seq<T>, limit: nat)
    requires limit > 0 && |result| == limit
    requires IsPrefix(result, whole) && IsPrefix(whole, all)
    ensures result == TruncateResult(all, Some(limit))
  {
    assert all[..limit] == whole[..limit];
  }

  lemma {:induction false} FlattenSplit<T>(pages: seq<seq<T>>, n: nat)
    requires n <= |pages|
    ensures Flatten(pages) == Flatten(pages[..n]) + Flatten(pages[n..])
    decreases n
  {
    if n > 0 {
      FlattenSplit(pages[1..], n - 1);
      assert pages[1..][..n - 1] == pages[..n][1..];
      assert pages[1..][n - 1..] == pages[n..];
    } else {
      assert pages[..0] == [];
      assert pages[0..] == pages;
    }
  }

  /** The final `result[:limit_page_length]`: never longer than a set
      length, and a prefix of the collected rows. */
  function TruncateResult<T(==)>(result: seq<T>, limitPageLength: Option<nat>): (r: seq<T>)
    ensures IsPrefix(r, result)
    ensures Truthy(limitPageLength) ==> |r| == Min(|result|, limitPageLength.value)
    ensures !Truthy(limitPageLength) ==> r == result
  {
    if Truthy(limitPageLength) && |result| > limitPageLength.value then result[..limitPageLength.value] else result
  }
}
