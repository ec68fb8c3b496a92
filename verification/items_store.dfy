/**
 * The item list of frontend/src/posapp/stores/itemsStore.js: the page size
 * of limited searches, the group filter, the local search, how a page of
 * items is appended, the key of a cached search, and the eviction of the
 * in-memory search cache. Server calls, the persistent cache and the
 * clock are left out; "now" is a parameter.
 */
module ItemsStore {
  import opened Common
  import opened Numerals

  /** Page size when limited search is off. */
  const DefaultPageSize: nat := 200
  /** Page size of a limited search without a usable limit. */
  const LimitSearchFallback: nat := 500
  /** The group that stands for every group. */
  const AllGroups := "ALL"

  /** The texts that switch a setting of this store on. */
  const TrueWords: seq<string> := ["1", "true", "yes"]

  /**
   * `normalizeBooleanSetting`: text is on iff its trimmed, lower-cased
   * form is "1", "true" or "yes"; a number iff it is 1; anything else by
   * its truthiness.
   */
  function NormalizeBooleanSetting(v: JsValue): (r: bool)
    ensures v.JsText? ==> (r <==> Lower(Trim(v.s)) in TrueWords)
    ensures v.JsNumber? ==> (r <==> v.x == 1.0)
    ensures v.JsNull? || v.JsNaN? || v.JsInfinity? ==> !r
    ensures v.JsBool? ==> r == v.b
    ensures v.JsObject? ==> r
  {
    match v
    case JsText(s) => Lower(Trim(s)) in TrueWords
    case JsNumber(x) => x == 1.0
    case JsNaN => false
    case JsInfinity => false
    case _ => Truthy(v)
  }

  // ---------------------------------------------------------------------
  // resolveLimitSearchSize (itemsStore.js:64-82)

  /** `Number.parseInt(value, 10)` on the values a profile holds: text is
      read as an integer numeral, a number is truncated toward zero, and
      anything else is NaN (`None`). */
  function ParseInt(v: JsValue): (r: Option<int>)
    ensures v.JsText? ==> r == ParseFloat(v.s)
    ensures v.JsNumber? && v.x >= 0.0 ==> r == Some(v.x.Floor)
    ensures v.JsNumber? && v.x < 0.0 ==> r == Some(-((-v.x).Floor))
    ensures !v.JsText? && !v.JsNumber? ==> r.None?
  {
    match v
    case JsText(s) => ParseFloat(s)
    case JsNumber(x) => if x >= 0.0 then Some(x.Floor) else Some(-((-x).Floor))
    case _ => None
  }

  /** Limited search is on by `posa_use_limit_search`, or by
      `pose_use_limit_search` when the first is missing. */
  predicate LimitSearchEnabled(useLimit: JsValue, useLimitOld: JsValue)
  {
    NormalizeBooleanSetting(if useLimit.JsNull? then useLimitOld else useLimit)
  }

  /**
   * `resolveLimitSearchSize`: 200 when limited search is off; otherwise
   * the profile's search limit when it parses to a positive integer, and
   * 500 when it does not.
   */
  function ResolveLimitSearchSize(useLimit: JsValue, useLimitOld: JsValue, searchLimit: JsValue): (r: nat)
    ensures r > 0
    ensures !LimitSearchEnabled(useLimit, useLimitOld) ==> r == DefaultPageSize
    ensures LimitSearchEnabled(useLimit, useLimitOld) ==>
              r == (if ParseInt(searchLimit).Some? && ParseInt(searchLimit).value > 0 then ParseInt(searchLimit).value
                    else LimitSearchFallback)
  {
    if !LimitSearchEnabled(useLimit, useLimitOld) then DefaultPageSize
    else
      var parsed := ParseInt(searchLimit);
      if parsed.Some? && parsed.value > 0 then parsed.value else LimitSearchFallback
  }

  /** A limit written as a positive decimal numeral is the page size of a
      limited search. */
  lemma LimitFromNumeral(useLimit: JsValue, useLimitOld: JsValue, n: nat)
    requires LimitSearchEnabled(useLimit, useLimitOld) && n > 0
    ensures ResolveLimitSearchSize(useLimit, useLimitOld, JsText(Decimal(n))) == n
  {
    ParseFloatDecimal(n, []);
    assert Decimal(n) + [] == Decimal(n);
  }

  /** A limit that is not positive falls back to 500. */
  lemma NonPositiveLimitFallsBack(useLimit: JsValue, useLimitOld: JsValue, x: real)
    requires LimitSearchEnabled(useLimit, useLimitOld) && x < 1.0
    ensures ResolveLimitSearchSize(useLimit, useLimitOld, JsNumber(x)) == LimitSearchFallback
  {
  }

  // ---------------------------------------------------------------------
  // filterItemsByGroup (itemsStore.js:761-766)

  /** The fields of an item the store searches and groups by; an empty
      text is a missing field. */
  datatype Item = Item(code: string, name: string, barcode: string, description: string,
                       itemBarcodes: seq<string>, barcodes: seq<string>,
                       serials: seq<string>, batches: seq<string>, group: string)

  /** `filterItemsByGroup`: "ALL" keeps the list; any other group keeps
      the items of exactly that group, in order. */
  function FilterByGroup(list: seq<Item>, group: string): (r: seq<Item>)
    ensures group == AllGroups ==> r == list
    ensures |r| <= |list|
    ensures forall x :: x in r <==> x in list && (group == AllGroups || x.group == group)
  {
    if group == AllGroups || list == [] then list
    else
      var rest := FilterByGroup(list[1..], group);
      assert list == [list[0]] + list[1..];
      if list[0].group == group then [list[0]] + rest else rest
  }

  /** Filtering by the same group twice is filtering once. */
  lemma {:induction false} FilterByGroupIdempotent(list: seq<Item>, group: string)
    ensures FilterByGroup(FilterByGroup(list, group), group) == FilterByGroup(list, group)
  {
    if group != AllGroups && list != [] {
      FilterByGroupIdempotent(list[1..], group);
      var rest := FilterByGroup(list[1..], group);
      if list[0].group == group {
        assert ([list[0]] + rest)[1..] == rest;
      }
    }
  }

  // ---------------------------------------------------------------------
  // performLocalSearch (itemsStore.js:694-759)

  /** The texts searched for an item: code, name, barcode, description,
      its barcode rows and extra barcodes, then its serial and batch
      numbers when the profile searches those. */
  function SearchFields(x: Item, includeSerial: bool, includeBatch: bool): (r: seq<string>)
    ensures x.code in r && x.name in r && x.barcode in r && x.description in r
    ensures forall f :: f in x.itemBarcodes || f in x.barcodes ==> f in r
    ensures forall f :: f in r ==> f in [x.code, x.name, x.barcode, x.description] || f in x.itemBarcodes || f in x.barcodes
                                    || (includeSerial && f in x.serials) || (includeBatch && f in x.batches)
  {
    [x.code, x.name, x.barcode, x.description] + x.itemBarcodes + x.barcodes
      + (if includeSerial then x.serials else []) + (if includeBatch then x.batches else [])
  }

  /** Some present field contains the term, both lower-cased. */
  predicate ItemMatches(x: Item, term: string, includeSerial: bool, includeBatch: bool)
  {
    exists f :: f in SearchFields(x, includeSerial, includeBatch) && f != [] && IsInfix(Lower(term), Lower(f))
  }

  function SearchList(list: seq<Item>, term: string, includeSerial: bool, includeBatch: bool): (r: seq<Item>)
    ensures |r| <= |list|
    ensures forall x :: x in r <==> x in list && ItemMatches(x, term, includeSerial, includeBatch)
  {
    if list == [] then []
    else
      var rest := SearchList(list[1..], term, includeSerial, includeBatch);
      assert list == [list[0]] + list[1..];
      if ItemMatches(list[0], term, includeSerial, includeBatch) then [list[0]] + rest else rest
  }

  /**
   * `performLocalSearch`: an empty term lists the current group; any
   * other term keeps, in order and whatever their group, the items one of
   * whose searched fields contains it, ignoring case.
   */
  function PerformLocalSearch(term: string, list: seq<Item>, group: string, searchSerial: JsValue, searchBatch: JsValue): (r: seq<Item>)
    ensures term == [] ==> r == FilterByGroup(list, group)
    ensures term != [] ==> forall x :: x in r <==> (x in list
              && ItemMatches(x, term, NormalizeBooleanSetting(searchSerial), NormalizeBooleanSetting(searchBatch)))
  {
    if term == [] then FilterByGroup(list, group)
    else SearchList(list, term, NormalizeBooleanSetting(searchSerial), NormalizeBooleanSetting(searchBatch))
  }

  /** An item is found by any text contained in its code, whatever the
      case of either. */
  lemma SearchFindsByCode(x: Item, list: seq<Item>, term: string, group: string, searchSerial: JsValue, searchBatch: JsValue)
    requires x in list && term != [] && IsInfix(Lower(term), Lower(x.code))
    ensures x in PerformLocalSearch(term, list, group, searchSerial, searchBatch)
  {
    var fields := SearchFields(x, NormalizeBooleanSetting(searchSerial), NormalizeBooleanSetting(searchBatch));
    assert x.code in fields;
    var k :| 0 <= k <= |Lower(x.code)| && InfixAt(Lower(term), Lower(x.code), k);
    assert x.code != [];
  }

  /** Searching serial and batch numbers as well never loses an item. */
  lemma SerialSearchWidens(x: Item, term: string, includeSerial: bool, includeBatch: bool)
    requires ItemMatches(x, term, false, false)
    ensures ItemMatches(x, term, includeSerial, includeBatch)
  {
    var f :| f in SearchFields(x, false, false) && f != [] && IsInfix(Lower(term), Lower(f));
    assert f in SearchFields(x, includeSerial, includeBatch);
  }

  /** A serial number is found only when the profile searches serials. */
  lemma SerialFoundOnlyWhenSearched(x: Item, term: string)
    requires term != []
    requires forall f :: (f in [x.code, x.name, x.barcode, x.description] || f in x.itemBarcodes || f in x.barcodes
                          || f in x.batches) ==> !IsInfix(Lower(term), Lower(f))
    ensures !ItemMatches(x, term, false, true)
  {
  }

  // ---------------------------------------------------------------------
  // setItems and the code index (itemsStore.js:601-632, 664-692, 476-478)

  /** The non-empty codes of `items`: what `updateIndexes` adds to the
      code index for them. */
  function Codes(items: seq<Item>): (r: set<string>)
    ensures forall c :: c in r <==> c != [] && exists x :: x in items && x.code == c
  {
    set x | x in items && x.code != [] :: x.code
  }

  /** The items of a page that are added: those with a code that is not
      indexed yet. The index is not updated while the page is read. */
  function Additions(page: seq<Item>, indexed: set<string>): (r: seq<Item>)
    ensures |r| <= |page|
    ensures forall x :: x in r <==> x in page && x.code != [] && x.code !in indexed
  {
    if page == [] then []
    else
      var rest := Additions(page[1..], indexed);
      assert page == [page[0]] + page[1..];
      if page[0].code != [] && page[0].code !in indexed then [page[0]] + rest else rest
  }

  /** The list, the item count, the list shown, and the codes of the
      `itemsMap` index. */
  datatype Store = Store(items: seq<Item>, total: int, filtered: seq<Item>, indexed: set<string>)

  /** Every listed item's code is indexed. */
  predicate IndexCovers(st: Store)
  {
    Codes(st.items) <= st.indexed
  }

  /**
   * `setItems`: without appending the page replaces the list (an
   * absent page empties it) and the index is rebuilt from it; when
   * appending, the page's items whose code is not indexed are added at
   * the end and indexed. The count is the given total, else the list's
   * length after a replacement; without a search term the shown list is
   * the current group's part of the list.
   */
  function SetItems(st: Store, page: Option<seq<Item>>, append: bool, totalOverride: Option<int>,
                    searchTerm: string, group: string): (r: Store)
    ensures !append ==> r.items == page.GetOr([]) && r.indexed == Codes(r.items)
    ensures append ==> r.items == st.items + Additions(page.GetOr([]), st.indexed)
    ensures append ==> st.indexed <= r.indexed && Codes(page.GetOr([])) <= r.indexed
    ensures IndexCovers(st) || !append ==> IndexCovers(r)
    ensures totalOverride.Some? ==> r.total == totalOverride.value
    ensures totalOverride.None? ==> r.total == (if append then st.total else |r.items|)
    ensures searchTerm == [] ==> r.filtered == FilterByGroup(r.items, if group == [] then AllGroups else group)
    ensures searchTerm != [] ==> r.filtered == st.filtered
  {
    var added := Additions(page.GetOr([]), st.indexed);
    var items := if !append then page.GetOr([]) else st.items + added;
    var indexed := if !append then Codes(items) else st.indexed + Codes(added);
    var total := if totalOverride.Some? then totalOverride.value else if !append then |items| else st.total;
    var filtered := if searchTerm == [] then FilterByGroup(items, if group == [] then AllGroups else group) else st.filtered;
    Store(items, total, filtered, indexed)
  }

  /** An indexed search (itemsStore.js:476-478) indexes its results
      without listing them. */
  function IndexResults(st: Store, results: seq<Item>): (r: Store)
    ensures r.items == st.items && Codes(results) <= r.indexed && st.indexed <= r.indexed
    ensures IndexCovers(st) ==> IndexCovers(r)
  {
    st.(indexed := st.indexed + Codes(results))
  }

  /** Appending a page adds only items whose code was not indexed, and
      appending the same page again adds nothing. */
  lemma AppendTwiceAddsNothing(st: Store, page: seq<Item>, searchTerm: string, group: string)
    ensures var once := SetItems(st, Some(page), true, None, searchTerm, group);
            SetItems(once, Some(page), true, None, searchTerm, group).items == once.items
  {
    var once := SetItems(st, Some(page), true, None, searchTerm, group);
    forall x | x in page && x.code != [] ensures x.code in once.indexed {
      assert x.code in Codes(page);
    }
    AdditionsNone(page, once.indexed);
  }

  lemma {:induction false} AdditionsNone(page: seq<Item>, indexed: set<string>)
    requires forall x :: x in page && x.code != [] ==> x.code in indexed
    ensures Additions(page, indexed) == []
  {
    if page != [] {
      assert page[0] in page;
      forall x | x in page[1..] && x.code != [] ensures x.code in indexed {
        assert x in page;
      }
      AdditionsNone(page[1..], indexed);
    }
  }

  /** The index is consulted as it was before the page: an item listed
      twice in one page is appended twice. */
  lemma PageDuplicatesBothAppended(x: Item)
    requires x.code != []
    ensures SetItems(Store([], 0, [], {}), Some([x, x]), true, None, [], AllGroups).items == [x, x]
  {
    assert [x, x][1..] == [x];
  }

  /** An item an indexed search has already indexed is not appended by a
      later page, although it is not in the list. */
  lemma SearchIndexedNotAppended(st: Store, results: seq<Item>, x: Item, searchTerm: string, group: string)
    requires x in results && x.code != []
    ensures SetItems(IndexResults(st, results), Some([x]), true, None, searchTerm, group).items == st.items
  {
    assert x.code in Codes(results);
    AdditionsNone([x], IndexResults(st, results).indexed);
  }

  // ---------------------------------------------------------------------
  // generateCacheKey (itemsStore.js:768-770)

  const Underscore := '_'

  /** `generateCacheKey`: `items_<search>_<group>_<price list>`, with
      "all" for no search and "default" for no price list. */
  function CacheKey(search: string, group: string, priceList: string): (r: string)
    ensures |r| > 6 && r[..6] == "items_"
  {
    "items_" + (if search == [] then "all" else search) + [Underscore] + group + [Underscore]
      + (if priceList == [] then "default" else priceList)
  }

  lemma {:induction false} SeparatedPrefix(a: string, b: string, x: string, y: string)
    requires Underscore !in a && Underscore !in b
    requires a + [Underscore] + x == b + [Underscore] + y
    ensures a == b && x == y
  {
    var s := a + [Underscore] + x;
    var t := b + [Underscore] + y;
    if a != [] {
      assert s[0] == a[0];
    }
    if b != [] {
      assert t[0] == b[0];
    }
    if a == [] && b == [] {
      assert s[1..] == x && t[1..] == y;
    } else if a == [] {
      assert false;
    } else if b == [] {
      assert false;
    } else {
      assert s[1..] == a[1..] + [Underscore] + x;
      assert t[1..] == b[1..] + [Underscore] + y;
      SeparatedPrefix(a[1..], b[1..], x, y);
      assert a == [a[0]] + a[1..] && b == [b[0]] + b[1..];
    }
  }

  /** What follows "items_" in a key. */
  lemma KeyTail(a: string, g: string, c: string)
    ensures ("items_" + a + [Underscore] + g + [Underscore] + c)[6..] == a + [Underscore] + (g + [Underscore] + c)
  {
    var tail := a + [Underscore] + (g + [Underscore] + c);
    assert "items_" + a + [Underscore] + g + [Underscore] + c == "items_" + tail;
  }

  /** Searches whose texts hold no underscore share a key only when they
      search the same text in the same group and price list (an absent
      search or price list reading as "all" or "default"). */
  lemma CacheKeyInjective(s1: string, g1: string, p1: string, s2: string, g2: string, p2: string)
    requires Underscore !in s1 && Underscore !in g1 && Underscore !in s2 && Underscore !in g2
    requires CacheKey(s1, g1, p1) == CacheKey(s2, g2, p2)
    ensures (if s1 == [] then "all" else s1) == (if s2 == [] then "all" else s2)
    ensures g1 == g2
    ensures (if p1 == [] then "default" else p1) == (if p2 == [] then "default" else p2)
  {
    var a1 := if s1 == [] then "all" else s1;
    var a2 := if s2 == [] then "all" else s2;
    var c1 := if p1 == [] then "default" else p1;
    var c2 := if p2 == [] then "default" else p2;
    KeyTail(a1, g1, c1);
    KeyTail(a2, g2, c2);
    assert Underscore !in a1 && Underscore !in a2;
    SeparatedPrefix(a1, a2, g1 + [Underscore] + c1, g2 + [Underscore] + c2);
    SeparatedPrefix(g1, g2, c1, c2);
  }

  /** The unfiltered list and a search for the text "all" share a key. */
  lemma CacheKeyAllCollides(group: string, priceList: string)
    ensures CacheKey([], group, priceList) == CacheKey("all", group, priceList)
  {
  }

  // ---------------------------------------------------------------------
  // cleanupMemoryCache (itemsStore.js:1295-1310)

  /** Most search results the memory cache keeps. */
  const MaxSize: nat := 500
  /** How long a cached search result stays valid, in milliseconds. */
  const Ttl: int := 5 * 60 * 1000

  /** A cached search: its key and the time it was stored. */
  datatype Entry = Entry(key: string, timestamp: int)

  predicate Expired(e: Entry, now: int)
  {
    now - e.timestamp > Ttl
  }

  /** The entries that have not expired, in order. */
  function FreshEntries(entries: seq<Entry>, now: int): (r: seq<Entry>)
    ensures |r| <= |entries|
    ensures forall e :: e in r <==> e in entries && !Expired(e, now)
  {
    if entries == [] then []
    else
      var rest := FreshEntries(entries[1..], now);
      assert entries == [entries[0]] + entries[1..];
      if Expired(entries[0], now) then rest else [entries[0]] + rest
  }

  /** The first of the oldest entries, the one a stable sort by time puts
      first. */
  function OldestIndex(entries: seq<Entry>): (r: nat)
    requires entries != []
    ensures r < |entries|
    ensures forall j :: 0 <= j < |entries| ==> entries[r].timestamp <= entries[j].timestamp
    ensures forall j :: 0 <= j < r ==> entries[j].timestamp > entries[r].timestamp
  {
    if |entries| == 1 then 0
    else
      var k := OldestIndex(entries[1..]) + 1;
      if entries[0].timestamp <= entries[k].timestamp then 0 else k
  }

  /** The entries kept and the entries evicted. */
  datatype Eviction = Eviction(kept: seq<Entry>, evicted: seq<Entry>)

  /** Evict the `count` oldest entries, ties going to the earlier entry:
      the first `count` of the entries sorted stably by time. */
  function EvictOldest(entries: seq<Entry>, count: nat): (r: Eviction)
    requires count <= |entries|
    ensures |r.evicted| == count && |r.kept| == |entries| - count
    ensures multiset(r.kept) + multiset(r.evicted) == multiset(entries)
    ensures forall a, b :: a in r.evicted && b in r.kept ==> a.timestamp <= b.timestamp
    decreases count
  {
    if count == 0 then Eviction(entries, [])
    else
      var k := OldestIndex(entries);
      var rest := EvictOldest(RemoveAt(entries, k), count - 1);
      EvictOldestStep(entries, k, rest);
      Eviction(rest.kept, [entries[k]] + rest.evicted)
  }

  /** Evicting the oldest entry ahead of the rest of an eviction keeps
      every evicted entry no newer than every kept one. */
  lemma EvictOldestStep(entries: seq<Entry>, k: nat, rest: Eviction)
    requires k < |entries|
    requires forall j :: 0 <= j < |entries| ==> entries[k].timestamp <= entries[j].timestamp
    requires multiset(rest.kept) + multiset(rest.evicted) == multiset(RemoveAt(entries, k))
    requires forall a, b :: a in rest.evicted && b in rest.kept ==> a.timestamp <= b.timestamp
    ensures multiset(rest.kept) + multiset([entries[k]] + rest.evicted) == multiset(entries)
    ensures forall a, b :: a in [entries[k]] + rest.evicted && b in rest.kept ==> a.timestamp <= b.timestamp
  {
    forall b | b in rest.kept ensures entries[k].timestamp <= b.timestamp {
      assert b in multiset(rest.kept);
      assert b in multiset(RemoveAt(entries, k));
      assert b in multiset(entries);
    }
  }

  /**
   * `cleanupMemoryCache`: expired entries are dropped; if more than 500
   * remain, the oldest fifth of them (rounded down) is dropped as well.
   * The multiplication by 0.2 in floating point is exact enough that its
   * floor is the integer division by 5.
   */
  function CleanupMemoryCache(entries: seq<Entry>, now: int): (r: seq<Entry>)
    ensures forall e :: e in r ==> e in entries && !Expired(e, now)
    ensures |FreshEntries(entries, now)| <= MaxSize ==> r == FreshEntries(entries, now)
    ensures |FreshEntries(entries, now)| > MaxSize ==>
              var live := FreshEntries(entries, now);
              |r| == |live| - |live| / 5
              && multiset(r) <= multiset(live)
              && forall a, b :: a in live && a !in r && b in r ==> a.timestamp <= b.timestamp
  {
    var live := FreshEntries(entries, now);
    if |live| <= MaxSize then live
    else
      var ev := EvictOldest(live, |live| / 5);
      forall e | e in ev.kept ensures e in live {
        assert e in multiset(ev.kept);
        assert e in multiset(live);
      }
      forall a, b | a in live && a !in ev.kept && b in ev.kept ensures a.timestamp <= b.timestamp {
        assert a in multiset(live);
        assert a !in multiset(ev.kept);
        assert a in multiset(ev.evicted);
      }
      ev.kept
  }

  /** An oversized cache comes out at least 100 entries smaller and
      without expired entries; one within the limit only loses expired
      entries. */
  lemma CleanupShrinks(entries: seq<Entry>, now: int)
    ensures var r := CleanupMemoryCache(entries, now);
            var live := FreshEntries(entries, now);
            (|live| > MaxSize ==> |r| <= |live| - 100)
            && (forall e :: e in entries && !Expired(e, now) && |live| <= MaxSize ==> e in r)
  {
  }
}
