/**
 * The offline side of frontend/src/offline.js: the local stock cache that
 * offline sales draw down, the stock check an offline invoice must pass
 * before it is queued, the queue of offline invoices, and the cached
 * customer balances that expire after a day. Persistence, the JSON copy
 * of a queued entry and timestamps of cache entries are left out; the
 * clock is a parameter.
 */
module Offline {
  import opened Common

  /** The cached `actual_qty` per item code. */
  type StockCache = map<string, real>

  /** An invoice line; `qty` is `None` when missing. */
  datatype Line = Line(itemCode: string, itemName: string, qty: Option<real>)

  /** `Math.abs(item.qty || 0)`. */
  function Sold(l: Line): (r: real)
    ensures r >= 0.0
    ensures l.qty.Some? ==> r == RAbs(l.qty.value)
  {
    if l.qty.Some? then RAbs(l.qty.value) else 0.0
  }

  /** `stockCache[code]?.actual_qty || 0`. */
  function Cached(cache: StockCache, code: string): real
  {
    if code in cache then cache[code] else 0.0
  }

  function Max0(x: real): (r: real)
    ensures r >= 0.0 && r >= x && (r == x || r == 0.0)
  {
    if x > 0.0 then x else 0.0
  }

  // ---------------------------------------------------------------------
  // validateStockForOfflineInvoice (offline.js:195-237)

  /** An entry of `invalidItems`. */
  datatype Shortfall = Shortfall(itemCode: string, itemName: string, requested: real, available: real)

  /** The error message: none, the one-item sentence, or the list. */
  datatype StockError = NoError | NotEnoughFor(item: Shortfall) | NotEnoughForMany(items: seq<Shortfall>)

  datatype StockCheck = StockCheck(isValid: bool, invalidItems: seq<Shortfall>, errorMessage: StockError)

  /** The lines whose cached stock cannot cover them, each checked on its
      own. */
  function Shortfalls(lines: seq<Line>, cache: StockCache): (r: seq<Shortfall>)
    ensures |r| <= |lines|
    ensures forall f :: f in r ==> f.available - f.requested < 0.0
  {
    if lines == [] then []
    else
      var l := lines[0];
      var rest := Shortfalls(lines[1..], cache);
      var requested := Sold(l);
      var current := Cached(cache, l.itemCode);
      if current - requested < 0.0 then
        [ShortfallOf(l, cache)] + rest
      else rest
  }

  /** The entry a line that cannot be covered contributes: the item name
      falls back to the item code. */
  function ShortfallOf(l: Line, cache: StockCache): Shortfall
  {
    Shortfall(l.itemCode, if l.itemName != [] then l.itemName else l.itemCode, Sold(l), Cached(cache, l.itemCode))
  }

  /** Every entry reports a line of the invoice, its quantity and its
      cached stock. */
  lemma {:induction false} ShortfallsSound(lines: seq<Line>, cache: StockCache)
    ensures forall f :: f in Shortfalls(lines, cache) ==>
              exists l :: l in lines && f.itemCode == l.itemCode && f.requested == Sold(l)
                          && f.available == Cached(cache, l.itemCode)
  {
    if lines != [] {
      ShortfallsSound(lines[1..], cache);
      forall f | f in Shortfalls(lines, cache)
        ensures exists l :: l in lines && f.itemCode == l.itemCode && f.requested == Sold(l)
                            && f.available == Cached(cache, l.itemCode)
      {
        if f in Shortfalls(lines[1..], cache) {
          var l :| l in lines[1..] && f.itemCode == l.itemCode && f.requested == Sold(l)
                   && f.available == Cached(cache, l.itemCode);
          assert l in lines;
        } else {
          assert lines[0] in lines;
        }
      }
    }
  }

  /** Every line its cached stock cannot cover has its entry. */
  lemma {:induction false} ShortfallsComplete(lines: seq<Line>, cache: StockCache)
    ensures forall l :: l in lines && Cached(cache, l.itemCode) - Sold(l) < 0.0 ==>
              ShortfallOf(l, cache) in Shortfalls(lines, cache)
  {
    if lines != [] {
      ShortfallsComplete(lines[1..], cache);
      forall l | l in lines && Cached(cache, l.itemCode) - Sold(l) < 0.0
        ensures ShortfallOf(l, cache) in Shortfalls(lines, cache)
      {
        if l != lines[0] {
          assert lines == [lines[0]] + lines[1..];
          assert l in lines[1..];
        }
      }
    }
  }

  /**
   * `validateStockForOfflineInvoice`: with negative stock allowed
   * everything is valid; otherwise a line is invalid when its cached stock
   * (0 when unknown) minus its quantity's magnitude is negative, and the
   * invoice is valid iff no line is.
   */
  function ValidateStock(lines: seq<Line>, allowNegativeStock: bool, cache: StockCache): (r: StockCheck)
    ensures allowNegativeStock ==> r == StockCheck(true, [], NoError)
    ensures r.isValid <==> r.invalidItems == []
    ensures r.isValid <==> r.errorMessage == NoError
    ensures !allowNegativeStock ==> (r.isValid <==> forall l :: l in lines ==> Cached(cache, l.itemCode) - Sold(l) >= 0.0)
    ensures |r.invalidItems| == 1 ==> r.errorMessage == NotEnoughFor(r.invalidItems[0])
  {
    if allowNegativeStock then StockCheck(true, [], NoError)
    else
      var invalid := Shortfalls(lines, cache);
      ShortfallsEmptyIff(lines, cache);
      var message := if |invalid| == 1 then NotEnoughFor(invalid[0])
                     else if |invalid| > 1 then NotEnoughForMany(invalid) else NoError;
      StockCheck(invalid == [], invalid, message)
  }

  lemma ShortfallsEmptyIff(lines: seq<Line>, cache: StockCache)
    ensures Shortfalls(lines, cache) == [] <==> forall l :: l in lines ==> Cached(cache, l.itemCode) - Sold(l) >= 0.0
  {
    var r := Shortfalls(lines, cache);
    ShortfallsComplete(lines, cache);
    ShortfallsSound(lines, cache);
    if r != [] {
      assert r[0] in r;
    }
  }

  /** Each line is checked against the whole cached stock on its own, so
      two lines of one item can together ask for more than is cached. */
  lemma LinesCheckedSeparately()
    ensures var cache := map["A" := 5.0];
            var lines := [Line("A", "A", Some(3.0)), Line("A", "A", Some(3.0))];
            ValidateStock(lines, false, cache).isValid && Sold(lines[0]) + Sold(lines[1]) > Cached(cache, "A")
  {
  }

  // ---------------------------------------------------------------------
  // Local stock updates (offline.js:845-869, 946-980)

  /** The total sold of `code` over the lines. */
  function SoldOf(lines: seq<Line>, code: string): (r: real)
    ensures r >= 0.0
  {
    if lines == [] then 0.0
    else (if lines[0].itemCode == code then Sold(lines[0]) else 0.0) + SoldOf(lines[1..], code)
  }

  function DrawDown(cache: StockCache, l: Line): StockCache
  {
    if l.itemCode in cache then cache[l.itemCode := Max0(cache[l.itemCode] - Sold(l))] else cache
  }

  /** `updateLocalStock`: each line lowers a cached quantity, never below
      0; codes not cached stay uncached. */
  function UpdateLocalStock(cache: StockCache, lines: seq<Line>): (r: StockCache)
    ensures r.Keys == cache.Keys
    decreases |lines|
  {
    if lines == [] then cache else UpdateLocalStock(DrawDown(cache, lines[0]), lines[1..])
  }

  /** Drawing down twice is drawing down by the sum, never below 0. */
  lemma Max0Twice(c: real, a: real, b: real, sum: real)
    requires a >= 0.0 && b >= 0.0 && sum == a + b
    ensures Max0(Max0(c - a) - b) == Max0(c - sum)
  {
  }

  /** No line sells `code`. */
  predicate Unsold(lines: seq<Line>, code: string)
  {
    forall l :: l in lines ==> l.itemCode != code
  }

  /** Every cached quantity some line sells ends as what was cached minus
      everything sold of it, or 0 when that is negative; the others stay. */
  lemma UpdateLocalStockDrawsDown(cache: StockCache, lines: seq<Line>, code: string)
    requires code in cache
    ensures var r := UpdateLocalStock(cache, lines);
            code in r
            && r[code] == if Unsold(lines, code) then cache[code] else Max0(cache[code] - SoldOf(lines, code))
  {
    UpdateLocalStockAt(cache, lines, code);
    StockAfterDrawsDown(cache[code], lines, code);
  }

  /** One cached quantity through the lines: each line of its code lowers
      it, never below 0. */
  function StockAfter(q: real, lines: seq<Line>, code: string): real
    decreases |lines|
  {
    if lines == [] then q
    else StockAfter(if lines[0].itemCode == code then Max0(q - Sold(lines[0])) else q, lines[1..], code)
  }

  /** The cache update follows each cached code on its own. */
  lemma {:induction false} UpdateLocalStockAt(cache: StockCache, lines: seq<Line>, code: string)
    requires code in cache
    ensures code in UpdateLocalStock(cache, lines)
    ensures UpdateLocalStock(cache, lines)[code] == StockAfter(cache[code], lines, code)
    decreases |lines|
  {
    if lines != [] {
      var step := DrawDown(cache, lines[0]);
      UpdateLocalStockAt(step, lines[1..], code);
      assert step[code] == if lines[0].itemCode == code then Max0(cache[code] - Sold(lines[0])) else cache[code];
    }
  }

  lemma StockAfterDrawsDown(q: real, lines: seq<Line>, code: string)
    ensures StockAfter(q, lines, code) == if Unsold(lines, code) then q else Max0(q - SoldOf(lines, code))
  {
    if Unsold(lines, code) {
      UnsoldStockAfter(q, lines, code);
    } else {
      SoldStockAfter(q, lines, code);
    }
  }

  /** Lines that do not sell the code leave its quantity alone. */
  lemma {:induction false} UnsoldStockAfter(q: real, lines: seq<Line>, code: string)
    requires Unsold(lines, code)
    ensures StockAfter(q, lines, code) == q
    decreases |lines|
  {
    if lines != [] {
      assert lines[0] in lines;
      assert Unsold(lines[1..], code) by {
        forall l | l in lines[1..] ensures l.itemCode != code {
          assert l in lines;
        }
      }
      UnsoldStockAfter(q, lines[1..], code);
    }
  }

  /** Lines that do sell the code lower it by all they sell, at least to 0. */
  lemma {:induction false} SoldStockAfter(q: real, lines: seq<Line>, code: string)
    requires !Unsold(lines, code)
    ensures StockAfter(q, lines, code) == Max0(q - SoldOf(lines, code))
    decreases |lines|
  {
    var tail := lines[1..];
    if lines[0].itemCode == code {
      var s0 := Sold(lines[0]);
      var q1 := Max0(q - s0);
      assert StockAfter(q, lines, code) == StockAfter(q1, tail, code);
      NonNegativeStockAfter(q1, tail, code);
      assert SoldOf(lines, code) == s0 + SoldOf(tail, code);
      Max0Twice(q, s0, SoldOf(tail, code), SoldOf(lines, code));
      assert StockAfter(q, lines, code) == Max0(q - SoldOf(lines, code));
    } else {
      var l :| l in lines && l.itemCode == code;
      assert lines == [lines[0]] + tail;
      assert l in tail;
      assert StockAfter(q, lines, code) == StockAfter(q, tail, code);
      SoldStockAfter(q, tail, code);
      assert SoldOf(lines, code) == SoldOf(tail, code);
      assert StockAfter(q, lines, code) == Max0(q - SoldOf(lines, code));
    }
  }

  /** A quantity that is not negative ends as itself minus what the lines
      sell of it, at least 0. */
  lemma {:induction false} NonNegativeStockAfter(q: real, lines: seq<Line>, code: string)
    requires q >= 0.0
    ensures StockAfter(q, lines, code) == Max0(q - SoldOf(lines, code))
    decreases |lines|
  {
    if lines == [] {
      assert SoldOf(lines, code) == 0.0;
    } else {
      var tail := lines[1..];
      if lines[0].itemCode == code {
        var s0 := Sold(lines[0]);
        NonNegativeStockAfter(Max0(q - s0), tail, code);
        assert SoldOf(lines, code) == s0 + SoldOf(tail, code);
        Max0Twice(q, s0, SoldOf(tail, code), SoldOf(lines, code));
      } else {
        NonNegativeStockAfter(q, tail, code);
        assert SoldOf(lines, code) == SoldOf(tail, code);
      }
    }
  }

  /** Quantities that were not negative stay not negative. */
  lemma UpdateLocalStockNonNegative(cache: StockCache, lines: seq<Line>)
    requires forall c :: c in cache ==> cache[c] >= 0.0
    ensures var r := UpdateLocalStock(cache, lines);
            forall c :: c in r ==> r[c] >= 0.0
  {
    var r := UpdateLocalStock(cache, lines);
    forall c | c in r ensures r[c] >= 0.0 {
      UpdateLocalStockDrawsDown(cache, lines, c);
    }
  }

  /** A row of the server's item details. */
  datatype ServerItem = ServerItem(itemCode: string, actualQty: Option<real>)

  /** `serverItems.find(...)` by item code. */
  function FindServerItem(items: seq<ServerItem>, code: string): (r: Option<ServerItem>)
    ensures r.Some? ==> r.value in items && r.value.itemCode == code
    ensures r.None? ==> forall s :: s in items ==> s.itemCode != code
    ensures r.Some? ==> exists i :: 0 <= i < |items| && items[i] == r.value && forall j :: 0 <= j < i ==> items[j].itemCode != code
  {
    if items == [] then None
    else if items[0].itemCode == code then Some(items[0])
    else
      assert forall s :: s in items <==> s == items[0] || s in items[1..] by {
        assert items == [items[0]] + items[1..];
      }
      FindServerItem(items[1..], code)
  }

  function ResetAndDrawDown(cache: StockCache, l: Line, server: seq<ServerItem>): StockCache
  {
    var found := FindServerItem(server, l.itemCode);
    if found.Some? && found.value.actualQty.Some? then
      cache[l.itemCode := Max0(found.value.actualQty.value - Sold(l))]
    else cache
  }

  /** `updateLocalStockWithActualQuantities`: each line with a server
      quantity sets its code's entry to that quantity minus the line's
      own sale, at least 0; the others leave the cache alone. */
  function UpdateWithActualQuantities(cache: StockCache, lines: seq<Line>, server: seq<ServerItem>): (r: StockCache)
    ensures cache.Keys <= r.Keys
    decreases |lines|
  {
    if lines == [] then cache else UpdateWithActualQuantities(ResetAndDrawDown(cache, lines[0], server), lines[1..], server)
  }

  /** The last line of a code with a server quantity decides its entry. */
  lemma {:induction false} ActualQuantitiesLastLineWins(cache: StockCache, lines: seq<Line>, server: seq<ServerItem>, k: int)
    requires 0 <= k < |lines|
    requires FindServerItem(server, lines[k].itemCode).Some? && FindServerItem(server, lines[k].itemCode).value.actualQty.Some?
    requires forall j :: k < j < |lines| ==> lines[j].itemCode != lines[k].itemCode
    ensures var r := UpdateWithActualQuantities(cache, lines, server);
            lines[k].itemCode in r
            && r[lines[k].itemCode] == Max0(FindServerItem(server, lines[k].itemCode).value.actualQty.value - Sold(lines[k]))
    decreases |lines|
  {
    var step := ResetAndDrawDown(cache, lines[0], server);
    if k == 0 {
      UntouchedByOtherLines(step, lines[1..], server, lines[0].itemCode);
    } else {
      assert forall j :: k - 1 < j < |lines[1..]| ==> lines[1..][j].itemCode != lines[1..][k - 1].itemCode by {
        forall j | k - 1 < j < |lines[1..]| ensures lines[1..][j].itemCode != lines[1..][k - 1].itemCode {
          assert lines[1..][j] == lines[j + 1];
        }
      }
      ActualQuantitiesLastLineWins(step, lines[1..], server, k - 1);
    }
  }

  lemma {:induction false} UntouchedByOtherLines(cache: StockCache, lines: seq<Line>, server: seq<ServerItem>, code: string)
    requires code in cache
    requires forall j :: 0 <= j < |lines| ==> lines[j].itemCode != code
    ensures var r := UpdateWithActualQuantities(cache, lines, server);
            code in r && r[code] == cache[code]
    decreases |lines|
  {
    if lines != [] {
      UntouchedByOtherLines(ResetAndDrawDown(cache, lines[0], server), lines[1..], server, code);
    }
  }

  // ---------------------------------------------------------------------
  // The offline invoice queue (offline.js:239-272, 304-318)

  /** A queued entry: the invoice's lines (`None` when there is no
      invoice or no item list) and the rest of its payload. */
  datatype Entry = Entry(lines: Option<seq<Line>>, payload: string)

  datatype OfflineState = OfflineState(invoices: seq<Entry>, stock: StockCache, allowNegativeStock: bool)

  datatype SaveError = EmptyCart | NotEnoughStock(message: StockError)

  datatype SaveResult = Saved(state: OfflineState) | Failed(error: SaveError)

  /**
   * `saveOfflineInvoice`: an invoice without lines fails as an empty
   * cart, one that fails the stock check fails with its message; anything
   * else is queued at the end and its lines draw down the stock cache.
   */
  function SaveOfflineInvoice(s: OfflineState, entry: Entry): (r: SaveResult)
    ensures entry.lines.None? || entry.lines.value == [] ==> r == Failed(EmptyCart)
    ensures entry.lines.Some? && entry.lines.value != [] ==>
              (r.Saved? <==> ValidateStock(entry.lines.value, s.allowNegativeStock, s.stock).isValid)
    ensures r.Saved? ==> r.state.invoices == s.invoices + [entry]
                         && r.state.stock == UpdateLocalStock(s.stock, entry.lines.value)
                         && r.state.allowNegativeStock == s.allowNegativeStock
  {
    if entry.lines.None? || entry.lines.value == [] then Failed(EmptyCart)
    else
      var check := ValidateStock(entry.lines.value, s.allowNegativeStock, s.stock);
      if !check.isValid then Failed(NotEnoughStock(check.errorMessage))
      else Saved(s.(invoices := s.invoices + [entry], stock := UpdateLocalStock(s.stock, entry.lines.value)))
  }

  /** Saving an invoice never makes a cached quantity negative. */
  lemma SavedStockStaysNonNegative(s: OfflineState, entry: Entry)
    requires forall c :: c in s.stock ==> s.stock[c] >= 0.0
    requires SaveOfflineInvoice(s, entry).Saved?
    ensures var t := SaveOfflineInvoice(s, entry).state;
            forall c :: c in t.stock ==> t.stock[c] >= 0.0
  {
    var t := SaveOfflineInvoice(s, entry).state;
    assert entry.lines.Some? && t.stock == UpdateLocalStock(s.stock, entry.lines.value);
    UpdateLocalStockNonNegative(s.stock, entry.lines.value);
  }

  /** `deleteOfflineInvoice`: an index outside the queue changes nothing,
      otherwise exactly that entry goes. */
  function DeleteOfflineInvoice(s: OfflineState, index: int): (r: OfflineState)
    ensures index < 0 || index >= |s.invoices| ==> r == s
    ensures 0 <= index < |s.invoices| ==>
              |r.invoices| == |s.invoices| - 1 && r.invoices[..index] == s.invoices[..index]
              && r.invoices[index..] == s.invoices[index + 1..]
    ensures r.stock == s.stock && r.allowNegativeStock == s.allowNegativeStock
  {
    if 0 <= index < |s.invoices| then s.(invoices := s.invoices[..index] + s.invoices[index + 1..]) else s
  }

  /** Saving then deleting the last entry restores the queue. */
  lemma SaveThenDeleteRestoresQueue(s: OfflineState, entry: Entry)
    requires SaveOfflineInvoice(s, entry).Saved?
    ensures DeleteOfflineInvoice(SaveOfflineInvoice(s, entry).state, |s.invoices|).invoices == s.invoices
  {
    var t := SaveOfflineInvoice(s, entry).state;
    assert t.invoices[..|s.invoices|] == s.invoices;
  }

  // ---------------------------------------------------------------------
  // Cached customer balances (offline.js:649-662)

  const DayMillis := 24 * 60 * 60 * 1000

  datatype CachedBalance = CachedBalance(balance: real, timestamp: int)

  /** `getCachedCustomerBalance`: the balance iff it was cached less than
      a day before `now`. */
  function CachedCustomerBalance(cache: map<string, CachedBalance>, customer: string, now: int): (r: Option<real>)
    ensures r.Some? <==> customer in cache && now - cache[customer].timestamp < DayMillis
    ensures r.Some? ==> r.value == cache[customer].balance
  {
    if customer in cache then
      var cached := cache[customer];
      if now - cached.timestamp < DayMillis then Some(cached.balance) else None
    else None
  }

  /** A balance cached at `t` is served for exactly a day. */
  lemma BalanceServedForADay(cache: map<string, CachedBalance>, customer: string, balance: real, t: int, now: int)
    ensures CachedCustomerBalance(cache[customer := CachedBalance(balance, t)], customer, now) ==
            (if now < t + DayMillis then Some(balance) else None)
  {
  }
}
