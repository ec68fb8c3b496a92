/**
 * Bulk item-detail helpers of posawesome/posawesome/api/item_fetchers.py:
 * the cache-lifetime default, the canonical list of item codes, the
 * choice of price row, the stock UOM guarantee, and the merge of looked-up
 * data into an item row. The lookups themselves (prices, bins, metadata)
 * are inputs.
 */
module ItemFetchers {
  import opened Common

  // ---------------------------------------------------------------------
  // Cache lifetime (item_fetchers.py:15-18)

  const DefaultCacheTtl: int := 300

  /** `_resolve_cache_ttl`: a missing or zero lifetime is 300 seconds. */
  function ResolveCacheTtl(ttl: Option<int>): (r: int)
    ensures ttl.None? || ttl.value == 0 ==> r == DefaultCacheTtl
    ensures ttl.Some? && ttl.value != 0 ==> r == ttl.value
  {
    match ttl
    case None => DefaultCacheTtl
    case Some(t) => if t != 0 then t else DefaultCacheTtl
  }

  /** A resolved lifetime resolves to itself. */
  lemma ResolveCacheTtlIdempotent(ttl: Option<int>)
    ensures ResolveCacheTtl(Some(ResolveCacheTtl(ttl))) == ResolveCacheTtl(ttl)
  {
  }

  // ---------------------------------------------------------------------
  // Canonical code lists (item_fetchers.py:32-35)

  predicate LexLt(a: string, b: string)
  {
    LexLe(a, b) && a != b
  }

  /** Strictly increasing in Python's string order. */
  predicate StrictlySorted(s: seq<string>)
  {
    forall i, j :: 0 <= i < j < |s| ==> LexLt(s[i], s[j])
  }

  /** `x` added to a strictly sorted list, in its place, unless present. */
  function InsertUnique(s: seq<string>, x: string): (r: seq<string>)
    requires StrictlySorted(s)
    ensures StrictlySorted(r)
    ensures forall y :: y in r <==> y in s || y == x
    decreases |s|
  {
    if s == [] then [x]
    else if x == s[0] then s
    else if LexLe(x, s[0]) then
      assert forall j :: 0 <= j < |s| ==> LexLt(x, s[j]) by {
        forall j | 0 <= j < |s| ensures LexLt(x, s[j]) {
          if j > 0 {
            LexLeTransitive(x, s[0], s[j]);
            if x == s[j] { LexLeAntisymmetric(s[0], s[j]); }
          }
        }
      }
      [x] + s
    else
      var rest := InsertUnique(s[1..], x);
      assert LexLt(s[0], x) by { LexLeTotal(x, s[0]); }
      assert forall y :: y in rest ==> LexLt(s[0], y) by {
        forall y | y in rest ensures LexLt(s[0], y) {
          if y != x {
            var j :| 0 <= j < |s[1..]| && s[1..][j] == y;
            assert s[j + 1] == y;
          }
        }
      }
      var r := [s[0]] + rest;
      assert forall j :: 1 <= j < |r| ==> r[j] == rest[j - 1] && r[j] in rest;
      r
  }

  function InsertAll(acc: seq<string>, codes: seq<string>): (r: seq<string>)
    requires StrictlySorted(acc)
    ensures StrictlySorted(r)
    decreases |codes|
  {
    if codes == [] then acc
    else
      var next := if codes[0] != [] then InsertUnique(acc, codes[0]) else acc;
      InsertAll(next, codes[1..])
  }

  /** Inserting keeps what was there and adds exactly the non-empty codes. */
  lemma {:induction false} InsertAllMembers(acc: seq<string>, codes: seq<string>)
    requires StrictlySorted(acc)
    ensures forall y :: y in InsertAll(acc, codes) <==> y in acc || (y in codes && y != [])
    decreases |codes|
  {
    if codes != [] {
      var next := if codes[0] != [] then InsertUnique(acc, codes[0]) else acc;
      InsertAllMembers(next, codes[1..]);
      assert forall y :: y in codes <==> y == codes[0] || y in codes[1..] by {
        assert codes == [codes[0]] + codes[1..];
      }
    }
  }

  /** `_normalize_codes`: the non-empty codes, each once, in ascending
      order. */
  function NormalizeCodes(codes: seq<string>): (r: seq<string>)
    ensures StrictlySorted(r)
    ensures forall y :: y in r <==> y in codes && y != []
  {
    InsertAllMembers([], codes);
    InsertAll([], codes)
  }

  /** A strictly sorted list is determined by its elements: it is the one
      sorted listing of that set. */
  lemma {:induction false} SortedListingUnique(a: seq<string>, b: seq<string>)
    requires StrictlySorted(a) && StrictlySorted(b)
    requires forall y :: y in a <==> y in b
    ensures a == b
    decreases |a|
  {
    if a != [] && b != [] {
      assert b[0] in a && a[0] in b;
      var i :| 0 <= i < |a| && a[i] == b[0];
      var j :| 0 <= j < |b| && b[j] == a[0];
      if i > 0 && j > 0 {
        LexLeAntisymmetric(a[0], b[0]);
      }
      assert a[0] == b[0];
      forall y ensures y in a[1..] <==> y in b[1..] {
        if y in a[1..] {
          var k :| 0 <= k < |a[1..]| && a[1..][k] == y;
          assert a[k + 1] == y && y != a[0];
          assert y in b;
        }
        if y in b[1..] {
          var k :| 0 <= k < |b[1..]| && b[1..][k] == y;
          assert b[k + 1] == y && y != b[0];
          assert y in a;
        }
      }
      SortedListingUnique(a[1..], b[1..]);
      assert a == [a[0]] + a[1..] && b == [b[0]] + b[1..];
    } else if a != [] {
      HeadIn(a);
      assert false;
    } else if b != [] {
      HeadIn(b);
      assert false;
    }
  }

  lemma HeadIn(s: seq<string>)
    ensures s != [] ==> s[0] in s
  {
  }

  /** The order and repetition of the input do not matter: lists with the
      same non-empty codes normalise alike. */
  lemma NormalizeCodesCanonical(xs: seq<string>, ys: seq<string>)
    requires forall y :: y != [] ==> (y in xs <==> y in ys)
    ensures NormalizeCodes(xs) == NormalizeCodes(ys)
  {
    SortedListingUnique(NormalizeCodes(xs), NormalizeCodes(ys));
  }

  // ---------------------------------------------------------------------
  // Price rows (item_fetchers.py:287-307)

  /** One Item Price row of an item, keyed by its UOM ("None" for rows
      without one). */
  datatype PriceRow = PriceRow(uomKey: string, rate: real, currency: string)

  /** The price rows of an item as a dictionary: one row per key, in
      insertion order. */
  predicate DistinctKeys(rows: seq<PriceRow>)
  {
    forall i, j :: 0 <= i < j < |rows| ==> rows[i].uomKey != rows[j].uomKey
  }

  predicate HasKey(rows: seq<PriceRow>, key: string)
  {
    exists i :: 0 <= i < |rows| && rows[i].uomKey == key
  }

  function RowFor(rows: seq<PriceRow>, key: string): (r: PriceRow)
    requires HasKey(rows, key)
    ensures r in rows && r.uomKey == key
  {
    if rows[0].uomKey == key then rows[0]
    else
      assert HasKey(rows[1..], key) by {
        var i :| 0 <= i < |rows| && rows[i].uomKey == key;
        assert rows[1..][i - 1] == rows[i];
      }
      RowFor(rows[1..], key)
  }

  /**
   * `_select_price`: the row for the requested UOM, else for the stock
   * UOM, else the "None" row, else the first row; nothing without rows.
   * An empty UOM stands for an unset one.
   */
  function SelectPrice(rows: seq<PriceRow>, requestedUom: string, stockUom: string): (r: Option<PriceRow>)
    ensures r.None? <==> rows == []
    ensures r.Some? ==> r.value in rows
    ensures requestedUom != [] && HasKey(rows, requestedUom) ==> r.Some? && r.value.uomKey == requestedUom
    ensures !(requestedUom != [] && HasKey(rows, requestedUom)) && stockUom != [] && HasKey(rows, stockUom) ==>
              r.Some? && r.value.uomKey == stockUom
    ensures (!(requestedUom != [] && HasKey(rows, requestedUom)) && !(stockUom != [] && HasKey(rows, stockUom))
             && HasKey(rows, "None")) ==> r.Some? && r.value.uomKey == "None"
    ensures (rows != [] && !(requestedUom != [] && HasKey(rows, requestedUom)) && !(stockUom != [] && HasKey(rows, stockUom))
             && !HasKey(rows, "None")) ==> r == Some(rows[0])
  {
    if rows == [] then None
    else if requestedUom != [] && HasKey(rows, requestedUom) then Some(RowFor(rows, requestedUom))
    else if stockUom != [] && HasKey(rows, stockUom) then Some(RowFor(rows, stockUom))
    else if HasKey(rows, "None") then Some(RowFor(rows, "None"))
    else Some(rows[0])
  }

  /** In a dictionary, the row found for a key is the only row with it. */
  lemma RowForUnique(rows: seq<PriceRow>, key: string, i: int)
    requires DistinctKeys(rows) && 0 <= i < |rows| && rows[i].uomKey == key
    ensures RowFor(rows, key) == rows[i]
  {
    var r := RowFor(rows, key);
    var j :| 0 <= j < |rows| && rows[j] == r;
  }

  // ---------------------------------------------------------------------
  // UOM listing (item_fetchers.py:310-316)

  datatype UomRow = UomRow(uom: string, conversionFactor: real)

  predicate Lists(uoms: seq<UomRow>, uom: string)
  {
    exists i :: 0 <= i < |uoms| && uoms[i].uom == uom
  }

  /** `_ensure_stock_uom`: the stock UOM is appended with factor 1 when it
      is set and not listed; the existing rows are kept as they are. */
  function EnsureStockUom(uoms: seq<UomRow>, stockUom: string): (r: seq<UomRow>)
    ensures |r| == |uoms| + (if stockUom != [] && !Lists(uoms, stockUom) then 1 else 0)
    ensures r[..|uoms|] == uoms
    ensures stockUom != [] && !Lists(uoms, stockUom) ==> r[|uoms|] == UomRow(stockUom, 1.0)
    ensures stockUom != [] ==> Lists(r, stockUom)
  {
    if stockUom != [] && !Lists(uoms, stockUom) then
      var r := uoms + [UomRow(stockUom, 1.0)];
      assert r[|uoms|].uom == stockUom;
      r
    else uoms
  }

  lemma EnsureStockUomIdempotent(uoms: seq<UomRow>, stockUom: string)
    ensures EnsureStockUom(EnsureStockUom(uoms, stockUom), stockUom) == EnsureStockUom(uoms, stockUom)
  {
  }

  // ---------------------------------------------------------------------
  // Merging looked-up data into a row (item_fetchers.py:319-356)

  /** The item master fields the merge reads; "" when unset. */
  datatype Meta = Meta(stockUom: string, itemName: string, hasBatchNo: bool, hasSerialNo: bool)

  /** The lookup maps of one batch of items. Every price listing is a
      dictionary keyed by UOM. */
  datatype Lookup = Lookup(prices: map<string, seq<PriceRow>>, stock: map<string, real>, meta: map<string, Meta>,
                           uoms: map<string, seq<UomRow>>)
  {
    ghost predicate Valid()
    {
      forall code :: code in prices ==> DistinctKeys(prices[code])
    }
  }

  /** An item row, with the fields the merge writes. */
  datatype ItemRow = ItemRow(itemCode: string, itemName: string, uom: string, hasVariants: bool,
                             itemUoms: seq<UomRow>, actualQty: real, hasBatchNo: bool, hasSerialNo: bool,
                             rate: real, priceListRate: real, currency: string, priceListCurrency: string,
                             conversionRate: real)

  /**
   * `merge_item_row`: a row without an item code is returned unchanged;
   * otherwise the UOM listing (with the stock UOM), the stock quantity
   * (0 when unknown), the selected price (0 without one), the currency
   * (the price's, else the price list's) and, when the row has no name,
   * the master's name are filled in.
   */
  function MergeItemRow(item: ItemRow, lk: Lookup, priceListCurrency: string, exchangeRate: real): (r: ItemRow)
  {
    if item.itemCode == [] then item
    else
      var code := item.itemCode;
      var meta := if code in lk.meta then lk.meta[code] else Meta([], [], false, false);
      var uoms := EnsureStockUom(if code in lk.uoms then lk.uoms[code] else [], meta.stockUom);
      var price := SelectPrice(if code in lk.prices then lk.prices[code] else [], item.uom, meta.stockUom);
      var rate := if price.Some? then price.value.rate else 0.0;
      var priceCurrency := if price.Some? then price.value.currency else [];
      item.(itemUoms := uoms,
            actualQty := if code in lk.stock then lk.stock[code] else 0.0,
            hasBatchNo := meta.hasBatchNo, hasSerialNo := meta.hasSerialNo,
            rate := rate, priceListRate := rate,
            currency := if priceCurrency != [] then priceCurrency else priceListCurrency,
            priceListCurrency := priceListCurrency, conversionRate := exchangeRate,
            itemName := if item.itemName == [] && meta.itemName != [] then meta.itemName else item.itemName)
  }

  /** What merging keeps and fills in: a row without a code is untouched;
      otherwise code, requested UOM and a present name stay, the stock
      quantity and the price list's currency and rate come from the
      lookups. */
  lemma MergeKeepsRow(item: ItemRow, lk: Lookup, priceListCurrency: string, exchangeRate: real)
    ensures var r := MergeItemRow(item, lk, priceListCurrency, exchangeRate);
      && (item.itemCode == [] ==> r == item)
      && (item.itemCode != [] ==> r.itemCode == item.itemCode && r.uom == item.uom)
      && (item.itemCode != [] ==> r.actualQty == (if item.itemCode in lk.stock then lk.stock[item.itemCode] else 0.0))
      && (item.itemCode != [] && item.itemName != [] ==> r.itemName == item.itemName)
      && (item.itemCode != [] ==> r.priceListCurrency == priceListCurrency && r.conversionRate == exchangeRate)
  {
  }

  /** The merged rate is the list rate, is 0 without a price row, and is
      otherwise one of the item's price rows; the stock UOM is listed. */
  lemma MergePrices(item: ItemRow, lk: Lookup, priceListCurrency: string, exchangeRate: real)
    ensures var r := MergeItemRow(item, lk, priceListCurrency, exchangeRate);
      && (item.itemCode != [] ==> r.rate == r.priceListRate)
      && (item.itemCode != [] && (item.itemCode !in lk.prices || lk.prices[item.itemCode] == []) ==> r.rate == 0.0)
      && (item.itemCode != [] && item.itemCode in lk.prices ==>
            (r.rate == 0.0 && lk.prices[item.itemCode] == []) || exists p :: p in lk.prices[item.itemCode] && r.rate == p.rate)
      && (item.itemCode != [] && item.itemCode in lk.meta && lk.meta[item.itemCode].stockUom != [] ==>
            Lists(r.itemUoms, lk.meta[item.itemCode].stockUom))
  {
    if item.itemCode != [] {
      var code := item.itemCode;
      var meta := if code in lk.meta then lk.meta[code] else Meta([], [], false, false);
      var price := SelectPrice(if code in lk.prices then lk.prices[code] else [], item.uom, meta.stockUom);
      if price.Some? && code in lk.prices {
        assert price.value in lk.prices[code];
      }
    }
  }

  /** A row whose requested UOM has a price gets exactly that price. */
  lemma MergeUsesRequestedUomPrice(item: ItemRow, lk: Lookup, priceListCurrency: string, exchangeRate: real, i: int)
    requires lk.Valid()
    requires item.itemCode != [] && item.uom != [] && item.itemCode in lk.prices
    requires 0 <= i < |lk.prices[item.itemCode]| && lk.prices[item.itemCode][i].uomKey == item.uom
    ensures MergeItemRow(item, lk, priceListCurrency, exchangeRate).rate == lk.prices[item.itemCode][i].rate
  {
    RowForUnique(lk.prices[item.itemCode], item.uom, i);
  }

  /** A row `build_details` merges: it has an item code and is not a
      template with variants. */
  predicate Buildable(item: ItemRow)
  {
    item.itemCode != [] && !item.hasVariants
  }

  /** The rows `build_details` keeps, in order. */
  function BuildableRows(items: seq<ItemRow>): (r: seq<ItemRow>)
    ensures |r| <= |items|
    ensures forall x :: x in r <==> x in items && Buildable(x)
  {
    if items == [] then []
    else
      assert forall x :: x in items <==> x == items[0] || x in items[1..] by {
        assert items == [items[0]] + items[1..];
      }
      (if Buildable(items[0]) then [items[0]] else []) + BuildableRows(items[1..])
  }

  /** `build_details` without the colour and size attributes: every
      buildable row merged, and nothing else. */
  function BuildDetails(items: seq<ItemRow>, lk: Lookup, priceListCurrency: string, exchangeRate: real): (r: seq<ItemRow>)
    ensures |r| <= |items|
  {
    var rows := BuildableRows(items);
    seq(|rows|, i requires 0 <= i < |rows| => MergeItemRow(rows[i], lk, priceListCurrency, exchangeRate))
  }

  /** The details are the merged buildable rows: each of them is there, and
      nothing else is. */
  lemma BuildDetailsExact(items: seq<ItemRow>, lk: Lookup, priceListCurrency: string, exchangeRate: real)
    ensures var r := BuildDetails(items, lk, priceListCurrency, exchangeRate);
      && (forall x :: x in items && Buildable(x) ==> MergeItemRow(x, lk, priceListCurrency, exchangeRate) in r)
      && (forall y :: y in r ==> exists x :: x in items && Buildable(x) && y == MergeItemRow(x, lk, priceListCurrency, exchangeRate))
  {
    var rows := BuildableRows(items);
    var r := BuildDetails(items, lk, priceListCurrency, exchangeRate);
    forall x | x in items && Buildable(x) ensures MergeItemRow(x, lk, priceListCurrency, exchangeRate) in r {
      var i :| 0 <= i < |rows| && rows[i] == x;
      assert r[i] == MergeItemRow(x, lk, priceListCurrency, exchangeRate);
    }
    forall y | y in r ensures exists x :: x in items && Buildable(x) && y == MergeItemRow(x, lk, priceListCurrency, exchangeRate) {
      var i :| 0 <= i < |r| && r[i] == y;
      assert rows[i] in rows;
    }
  }

}
