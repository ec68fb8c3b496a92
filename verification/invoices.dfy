/**
 * Validation helpers of posawesome/posawesome/api/invoices.py: the
 * returned-quantity check against the original invoice, the stock
 * shortage list, the removal of duplicate tax rows, the blocking switch,
 * item-name sanitising, and the lines still returnable in the return
 * search. Documents the framework loads become inputs; stock lookups are
 * function parameters.
 */
module Invoices {
  import opened Common

  // ---------------------------------------------------------------------
  // Item names (invoices.py:38-43)

  const MaxItemNameLength: nat := 140

  /** `_sanitize_item_name` of text already free of HTML tags: "" for
      empty input, otherwise the trimmed text cut to 140 characters. */
  function SanitizeItemName(name: string): (r: string)
    ensures name == [] ==> r == []
    ensures |r| <= MaxItemNameLength
    ensures |r| <= |Trim(name)| && r == Trim(name)[..|r|]
    ensures |Trim(name)| <= MaxItemNameLength ==> r == Trim(name)
    ensures |Trim(name)| > MaxItemNameLength ==> |r| == MaxItemNameLength
  {
    if name == [] then []
    else
      var t := Trim(name);
      if |t| <= MaxItemNameLength then t else t[..MaxItemNameLength]
  }

  /** A name that is already trimmed and short enough is kept as is. */
  lemma SanitizeKeepsCleanNames(name: string)
    requires |name| <= MaxItemNameLength
    requires |name| > 0 ==> !IsSpace(name[0]) && !IsSpace(name[|name| - 1])
    ensures SanitizeItemName(name) == name
  {
    TrimOfTrimmed(name);
  }

  // ---------------------------------------------------------------------
  // Returned quantities (invoices.py:234-271)

  datatype Line = Line(itemCode: string, qty: real)

  /** Σ qty of the lines for `code`. */
  function SoldQty(lines: seq<Line>, code: string): real
  {
    if lines == [] then 0.0 else (if lines[0].itemCode == code then lines[0].qty else 0.0) + SoldQty(lines[1..], code)
  }

  /** Σ |qty| of the lines for `code`. */
  function ReturnedQty(lines: seq<Line>, code: string): real
  {
    if lines == [] then 0.0 else (if lines[0].itemCode == code then RAbs(lines[0].qty) else 0.0) + ReturnedQty(lines[1..], code)
  }

  lemma {:induction false} ReturnedQtyNonNegative(lines: seq<Line>, code: string)
    ensures ReturnedQty(lines, code) >= 0.0
  {
    if lines != [] {
      ReturnedQtyNonNegative(lines[1..], code);
    }
  }

  predicate Sold(lines: seq<Line>, code: string)
  {
    exists k :: 0 <= k < |lines| && lines[k].itemCode == code
  }

  /** The per-code tally the validation builds: sold quantities of the
      original invoice minus everything returned against it already. */
  function Tally(original: seq<Line>, earlierReturns: seq<Line>): (t: map<string, real>)
    ensures forall c :: c in t <==> Sold(original, c)
    ensures forall c :: c in t ==> t[c] == SoldQty(original, c) - ReturnedQty(earlierReturns, c)
  {
    map c | c in (set k | 0 <= k < |original| :: original[k].itemCode) :: SoldQty(original, c) - ReturnedQty(earlierReturns, c)
  }

  /** A return line asking for more than is left of a sold item. */
  predicate Excessive(t: map<string, real>, l: Line)
  {
    l.itemCode in t && RAbs(l.qty) > t[l.itemCode]
  }

  /** The outcome: valid, or the code of the first offending line. */
  datatype ReturnCheck = ReturnValid | ReturnTooMuch(itemCode: string)

  /** The first return line that asks too much. */
  function FirstExcessive(t: map<string, real>, request: seq<Line>): ReturnCheck
  {
    if request == [] then ReturnValid
    else if Excessive(t, request[0]) then ReturnTooMuch(request[0].itemCode)
    else FirstExcessive(t, request[1..])
  }

  /** Line `k` asks too much and no line before it does. */
  predicate FirstOffender(t: map<string, real>, request: seq<Line>, k: int)
  {
    0 <= k < |request| && Excessive(t, request[k]) && forall m :: 0 <= m < k ==> !Excessive(t, request[m])
  }

  /** The check passes exactly when no line asks too much, and otherwise
      names the code of the first line that does. */
  lemma {:induction false} FirstExcessiveFacts(t: map<string, real>, request: seq<Line>)
    ensures FirstExcessive(t, request).ReturnValid? <==> forall k :: 0 <= k < |request| ==> !Excessive(t, request[k])
    ensures FirstExcessive(t, request).ReturnTooMuch? ==>
              exists k :: FirstOffender(t, request, k) && request[k].itemCode == FirstExcessive(t, request).itemCode
    decreases |request|
  {
    if request != [] {
      if Excessive(t, request[0]) {
        assert FirstOffender(t, request, 0);
      } else {
        var tail := request[1..];
        FirstExcessiveFacts(t, tail);
        assert FirstExcessive(t, request) == FirstExcessive(t, tail);
        assert forall k :: 1 <= k < |request| ==> request[k] == tail[k - 1];
        if FirstExcessive(t, tail).ReturnTooMuch? {
          var k :| FirstOffender(t, tail, k) && tail[k].itemCode == FirstExcessive(t, tail).itemCode;
          assert FirstOffender(t, request, k + 1);
        }
      }
    }
  }

  /**
   * `validate_return_items`: each return line is compared on its own with
   * what is left of its item code (sold minus already returned); codes
   * the original invoice never sold are not checked.
   */
  function ValidateReturnItems(original: seq<Line>, earlierReturns: seq<Line>, request: seq<Line>): (r: ReturnCheck)
    ensures r.ReturnValid? <==>
              forall k :: 0 <= k < |request| && Sold(original, request[k].itemCode) ==>
                RAbs(request[k].qty) <= SoldQty(original, request[k].itemCode) - ReturnedQty(earlierReturns, request[k].itemCode)
    ensures r.ReturnTooMuch? ==> Sold(original, r.itemCode)
  {
    FirstExcessiveFacts(Tally(original, earlierReturns), request);
    FirstExcessive(Tally(original, earlierReturns), request)
  }

  /** An item the original invoice did not sell never makes a return
      invalid, whatever quantity is asked. */
  lemma UnsoldCodesPass(original: seq<Line>, earlierReturns: seq<Line>, request: seq<Line>, extra: Line)
    requires !Sold(original, extra.itemCode)
    ensures ValidateReturnItems(original, earlierReturns, request + [extra]).ReturnValid?
            <==> ValidateReturnItems(original, earlierReturns, request).ReturnValid?
  {
    var both := request + [extra];
    assert forall k :: 0 <= k < |request| ==> both[k] == request[k];
  }

  // ---------------------------------------------------------------------
  // Stock shortages (invoices.py:62-110)

  /** An invoice row as the stock check reads it. `stockFlag` is the
      row's own `is_stock_item` (None when absent). */
  datatype StockRow = StockRow(itemCode: string, warehouse: string, batchNo: string, qty: real, stockQty: real,
                               conversionFactor: real, stockFlag: Option<int>)

  /** The lookups the check makes: the item master's stock flag, a
      batch's quantity in a warehouse, an item's availability there. */
  datatype StockLookup = StockLookup(masterStockFlag: string -> int, batchQty: (string, string) -> real,
                                     availability: (string, string) -> real)

  /** `_is_stock_item`. */
  predicate IsStockItem(d: StockRow, lk: StockLookup)
  {
    match d.stockFlag
    case Some(f) => f != 0
    case None => d.itemCode != [] && lk.masterStockFlag(d.itemCode) != 0
  }

  /** `_get_available_stock`: 0 without an item or warehouse, the batch's
      quantity for a batch row, the item's availability otherwise. */
  function AvailableStock(d: StockRow, lk: StockLookup): real
  {
    if d.itemCode == [] || d.warehouse == [] then 0.0
    else if d.batchNo != [] then lk.batchQty(d.batchNo, d.warehouse)
    else lk.availability(d.itemCode, d.warehouse)
  }

  /** `stock_qty`, or else qty × (conversion factor or 1). */
  function RequestedQty(d: StockRow): real
  {
    if d.stockQty != 0.0 then d.stockQty
    else d.qty * (if d.conversionFactor != 0.0 then d.conversionFactor else 1.0)
  }

  datatype StockError = StockError(itemCode: string, warehouse: string, requested: real, available: real)

  function ErrorFor(d: StockRow, lk: StockLookup): StockError
  {
    StockError(d.itemCode, d.warehouse, RequestedQty(d), AvailableStock(d, lk))
  }

  /** A row the check reports: a non-negative stock row asking for more
      than is available. */
  predicate Short(d: StockRow, lk: StockLookup)
  {
    d.qty >= 0.0 && IsStockItem(d, lk) && RequestedQty(d) > AvailableStock(d, lk)
  }

  /** `_collect_stock_errors`, in row order. */
  function CollectStockErrors(items: seq<StockRow>, lk: StockLookup): (r: seq<StockError>)
    ensures |r| <= |items|
    ensures forall e :: e in r ==> exists k :: 0 <= k < |items| && Short(items[k], lk) && e == ErrorFor(items[k], lk)
    ensures forall k :: 0 <= k < |items| && Short(items[k], lk) ==> ErrorFor(items[k], lk) in r
    ensures forall e :: e in r ==> e.requested > e.available
  {
    if items == [] then []
    else
      var rest := CollectStockErrors(items[1..], lk);
      assert forall k :: 1 <= k < |items| ==> items[k] == items[1..][k - 1];
      assert forall e :: e in rest ==> exists k :: 0 <= k < |items| && Short(items[k], lk) && e == ErrorFor(items[k], lk) by {
        forall e | e in rest ensures exists k :: 0 <= k < |items| && Short(items[k], lk) && e == ErrorFor(items[k], lk) {
          var k :| 0 <= k < |items[1..]| && Short(items[1..][k], lk) && e == ErrorFor(items[1..][k], lk);
          assert items[k + 1] == items[1..][k];
        }
      }
      if Short(items[0], lk) then [ErrorFor(items[0], lk)] + rest else rest
  }

  /** Return rows (negative quantities) are never reported. */
  lemma {:induction false} ReturnRowsNeverShort(items: seq<StockRow>, lk: StockLookup)
    requires forall k :: 0 <= k < |items| ==> items[k].qty < 0.0
    ensures CollectStockErrors(items, lk) == []
  {
    if items != [] {
      ReturnRowsNeverShort(items[1..], lk);
    }
  }

  // ---------------------------------------------------------------------
  // Duplicate taxes (invoices.py:113-128)

  datatype TaxRow = TaxRow(accountHead: string, rate: real, chargeType: string, taxAmount: real)

  datatype TaxKey = TaxKey(accountHead: string, rate: real, chargeType: string)

  function KeyOf(t: TaxRow): TaxKey
  {
    TaxKey(t.accountHead, t.rate, t.chargeType)
  }

  /** The rows whose key is not in `seen`, the first of each key kept. */
  function UniqueTaxes(taxes: seq<TaxRow>, seen: set<TaxKey>): seq<TaxRow>
    decreases |taxes|
  {
    if taxes == [] then []
    else if KeyOf(taxes[0]) in seen then UniqueTaxes(taxes[1..], seen)
    else [taxes[0]] + UniqueTaxes(taxes[1..], seen + {KeyOf(taxes[0])})
  }

  /** No two rows share a key, and none uses a key from `seen`. */
  predicate KeysFresh(taxes: seq<TaxRow>, seen: set<TaxKey>)
  {
    (forall i :: 0 <= i < |taxes| ==> KeyOf(taxes[i]) !in seen)
    && forall i, j :: 0 <= i < j < |taxes| ==> KeyOf(taxes[i]) != KeyOf(taxes[j])
  }

  /** Keeping the first row per key keeps every key once. */
  lemma {:induction false} UniqueTaxesFresh(taxes: seq<TaxRow>, seen: set<TaxKey>)
    ensures KeysFresh(UniqueTaxes(taxes, seen), seen)
    decreases |taxes|
  {
    if taxes != [] {
      var t0 := taxes[0];
      if KeyOf(t0) in seen {
        UniqueTaxesFresh(taxes[1..], seen);
      } else {
        UniqueTaxesFresh(taxes[1..], seen + {KeyOf(t0)});
        KeysFreshCons(t0, UniqueTaxes(taxes[1..], seen + {KeyOf(t0)}), seen);
      }
    }
  }

  /** Every key not seen before is kept. */
  lemma {:induction false} UniqueTaxesCover(taxes: seq<TaxRow>, seen: set<TaxKey>, k: int)
    requires 0 <= k < |taxes| && KeyOf(taxes[k]) !in seen
    ensures exists j :: 0 <= j < |UniqueTaxes(taxes, seen)| && KeyOf(UniqueTaxes(taxes, seen)[j]) == KeyOf(taxes[k])
    decreases |taxes|
  {
    var t0 := taxes[0];
    var tail := taxes[1..];
    if KeyOf(t0) in seen {
      assert k > 0 && taxes[k] == tail[k - 1];
      UniqueTaxesCover(tail, seen, k - 1);
      assert UniqueTaxes(taxes, seen) == UniqueTaxes(tail, seen);
    } else {
      var r := UniqueTaxes(taxes, seen);
      var rest := UniqueTaxes(tail, seen + {KeyOf(t0)});
      assert r == [t0] + rest;
      if KeyOf(taxes[k]) == KeyOf(t0) {
        assert KeyOf(r[0]) == KeyOf(taxes[k]);
      } else {
        assert taxes[k] == tail[k - 1];
        UniqueTaxesCover(tail, seen + {KeyOf(t0)}, k - 1);
        var j :| 0 <= j < |rest| && KeyOf(rest[j]) == KeyOf(taxes[k]);
        assert r[j + 1] == rest[j];
      }
    }
  }

  /** Only rows of the input are kept. */
  lemma {:induction false} UniqueTaxesSubset(taxes: seq<TaxRow>, seen: set<TaxKey>)
    ensures forall j :: 0 <= j < |UniqueTaxes(taxes, seen)| ==> UniqueTaxes(taxes, seen)[j] in taxes
    decreases |taxes|
  {
    if taxes != [] {
      var t0 := taxes[0];
      var tail := taxes[1..];
      assert taxes == [t0] + tail;
      if KeyOf(t0) in seen {
        UniqueTaxesSubset(tail, seen);
      } else {
        UniqueTaxesSubset(tail, seen + {KeyOf(t0)});
      }
    }
  }

  /** A row is dropped exactly when some key repeats (or was seen). */
  lemma {:induction false} UniqueTaxesWholeIff(taxes: seq<TaxRow>, seen: set<TaxKey>)
    ensures |UniqueTaxes(taxes, seen)| == |taxes| <==> KeysFresh(taxes, seen)
    decreases |taxes|
  {
    if taxes != [] {
      var t0 := taxes[0];
      var tail := taxes[1..];
      if KeyOf(t0) in seen {
        UniqueTaxesShorter(tail, seen);
        assert !KeysFresh(taxes, seen) by { assert KeyOf(taxes[0]) in seen; }
      } else {
        UniqueTaxesWholeIff(tail, seen + {KeyOf(t0)});
        assert taxes == [t0] + tail;
        KeysFreshCons(t0, tail, seen);
      }
    }
  }

  lemma {:induction false} UniqueTaxesShorter(taxes: seq<TaxRow>, seen: set<TaxKey>)
    ensures |UniqueTaxes(taxes, seen)| <= |taxes|
    decreases |taxes|
  {
    if taxes != [] {
      if KeyOf(taxes[0]) in seen {
        UniqueTaxesShorter(taxes[1..], seen);
      } else {
        UniqueTaxesShorter(taxes[1..], seen + {KeyOf(taxes[0])});
      }
    }
  }

  lemma KeysFreshCons(t0: TaxRow, tail: seq<TaxRow>, seen: set<TaxKey>)
    requires KeyOf(t0) !in seen
    ensures KeysFresh([t0] + tail, seen) <==> KeysFresh(tail, seen + {KeyOf(t0)})
  {
    var all := [t0] + tail;
    assert forall k :: 1 <= k < |all| ==> all[k] == tail[k - 1];
    if KeysFresh(tail, seen + {KeyOf(t0)}) {
      forall i, j | 0 <= i < j < |all| ensures KeyOf(all[i]) != KeyOf(all[j]) {
        if i > 0 { assert KeyOf(tail[i - 1]) != KeyOf(tail[j - 1]); }
        else { assert KeyOf(tail[j - 1]) !in seen + {KeyOf(t0)}; }
      }
    }
    if KeysFresh(all, seen) {
      forall i | 0 <= i < |tail| ensures KeyOf(tail[i]) !in seen + {KeyOf(t0)} {
        assert KeyOf(all[0]) != KeyOf(all[i + 1]);
      }
      forall i, j | 0 <= i < j < |tail| ensures KeyOf(tail[i]) != KeyOf(tail[j]) {
        assert KeyOf(all[i + 1]) != KeyOf(all[j + 1]);
      }
    }
  }

  /**
   * `_merge_duplicate_taxes`: the first row per (account, rate, charge
   * type) is kept, in order; the totals are recalculated (reported as
   * `recalculated`) only when a row was dropped.
   */
  method MergeDuplicateTaxes(taxes: seq<TaxRow>) returns (unique: seq<TaxRow>, recalculated: bool)
    ensures unique == UniqueTaxes(taxes, {})
    ensures KeysFresh(unique, {})
    ensures forall k :: 0 <= k < |taxes| ==> exists j :: 0 <= j < |unique| && KeyOf(unique[j]) == KeyOf(taxes[k])
    ensures forall j :: 0 <= j < |unique| ==> unique[j] in taxes
    ensures recalculated <==> !KeysFresh(taxes, {})
    ensures !recalculated ==> unique == taxes
  {
    var seen: set<TaxKey> := {};
    unique := [];
    var i := 0;
    assert taxes[i..] == taxes;
    while i < |taxes|
      invariant 0 <= i <= |taxes|
      invariant unique + UniqueTaxes(taxes[i..], seen) == UniqueTaxes(taxes, {})
    {
      var key := KeyOf(taxes[i]);
      UniqueTaxesStep(taxes, i, seen, unique);
      if key !in seen {
        seen := seen + {key};
        unique := unique + [taxes[i]];
      }
      i := i + 1;
    }
    assert taxes[i..] == [];
    UniqueTaxesFacts(taxes);
    recalculated := |unique| != |taxes|;
  }

  /** One row of the merge: a row whose key was seen is dropped, any
      other is kept and its key is seen from then on. */
  lemma UniqueTaxesStep(taxes: seq<TaxRow>, i: nat, seen: set<TaxKey>, acc: seq<TaxRow>)
    requires i < |taxes| && acc + UniqueTaxes(taxes[i..], seen) == UniqueTaxes(taxes, {})
    ensures KeyOf(taxes[i]) in seen ==> acc + UniqueTaxes(taxes[i + 1..], seen) == UniqueTaxes(taxes, {})
    ensures KeyOf(taxes[i]) !in seen ==>
              (acc + [taxes[i]]) + UniqueTaxes(taxes[i + 1..], seen + {KeyOf(taxes[i])}) == UniqueTaxes(taxes, {})
  {
    assert taxes[i..][1..] == taxes[i + 1..];
    var rest := UniqueTaxes(taxes[i + 1..], seen + {KeyOf(taxes[i])});
    if KeyOf(taxes[i]) !in seen {
      assert acc + ([taxes[i]] + rest) == (acc + [taxes[i]]) + rest;
    }
  }

  /** The facts the merge reports about the rows it keeps. */
  lemma UniqueTaxesFacts(taxes: seq<TaxRow>)
    ensures var unique := UniqueTaxes(taxes, {});
            KeysFresh(unique, {})
            && (forall k :: 0 <= k < |taxes| ==> exists j :: 0 <= j < |unique| && KeyOf(unique[j]) == KeyOf(taxes[k]))
            && (forall j :: 0 <= j < |unique| ==> unique[j] in taxes)
            && (|unique| == |taxes| <==> KeysFresh(taxes, {}))
            && (|unique| == |taxes| ==> unique == taxes)
  {
    var unique := UniqueTaxes(taxes, {});
    UniqueTaxesFresh(taxes, {});
    UniqueTaxesSubset(taxes, {});
    UniqueTaxesWholeIff(taxes, {});
    forall k | 0 <= k < |taxes| ensures exists j :: 0 <= j < |unique| && KeyOf(unique[j]) == KeyOf(taxes[k]) {
      UniqueTaxesCover(taxes, {}, k);
    }
    if |unique| == |taxes| {
      UniqueIsWhole(taxes, {});
    }
  }

  /** When no key repeats, nothing is dropped. */
  lemma {:induction false} UniqueIsWhole(taxes: seq<TaxRow>, seen: set<TaxKey>)
    requires KeysFresh(taxes, seen)
    ensures UniqueTaxes(taxes, seen) == taxes
    decreases |taxes|
  {
    if taxes != [] {
      KeysFreshCons(taxes[0], taxes[1..], seen);
      assert taxes == [taxes[0]] + taxes[1..];
      UniqueIsWhole(taxes[1..], seen + {KeyOf(taxes[0])});
    }
  }

  // ---------------------------------------------------------------------
  // Blocking sales beyond stock (invoices.py:131-154)

  /**
   * `_should_block` as written: with negative stock allowed nothing is
   * blocked; otherwise the profile's setting is read with `or 1`, so an
   * unticked setting (0) still reads as 1. `profileSetting` is the value
   * stored on the profile (None when there is no profile).
   */
  function ShouldBlock(allowNegativeStock: int, profileSetting: Option<int>): (r: bool)
    ensures r <==> allowNegativeStock == 0
  {
    if allowNegativeStock != 0 then false
    else
      var blockSale := match profileSetting
        case None => 1
        case Some(v) => if v != 0 then v else 1;
      blockSale != 0
  }

  /** A profile that turns blocking off is still blocked. */
  lemma ProfileCannotDisableBlocking()
    ensures ShouldBlock(0, Some(0))
  {
  }

  /** The evidently intended switch: the profile's own setting decides,
      and only a missing profile defaults to blocking. */
  function ShouldBlockIntended(allowNegativeStock: int, profileSetting: Option<int>): (r: bool)
    ensures allowNegativeStock != 0 ==> !r
    ensures allowNegativeStock == 0 && profileSetting.Some? ==> (r <==> profileSetting.value != 0)
    ensures allowNegativeStock == 0 && profileSetting.None? ==> r
  {
    if allowNegativeStock != 0 then false
    else match profileSetting
      case None => true
      case Some(v) => v != 0
  }

  /** The two agree except when a profile has the setting turned off. */
  lemma ShouldBlockDiffersOnlyWhenDisabled(allowNegativeStock: int, profileSetting: Option<int>)
    ensures ShouldBlock(allowNegativeStock, profileSetting) != ShouldBlockIntended(allowNegativeStock, profileSetting)
            <==> allowNegativeStock == 0 && profileSetting == Some(0)
  {
  }

  /** `d.get("is_stock_item")` on the invoice row itself. */
  predicate Flagged(d: StockRow)
  {
    d.stockFlag.Some? && d.stockFlag.value != 0
  }

  /** The invoice rows flagged as stock items, in order. */
  function FlaggedRows(items: seq<StockRow>): seq<StockRow>
  {
    if items == [] then [] else (if Flagged(items[0]) then [items[0]] else []) + FlaggedRows(items[1..])
  }

  lemma {:induction false} FlaggedRowsMembers(items: seq<StockRow>)
    ensures forall d :: d in FlaggedRows(items) <==> d in items && Flagged(d)
  {
    if items != [] {
      FlaggedRowsMembers(items[1..]);
      assert items == [items[0]] + items[1..];
    }
  }

  /** Some row of `rows` is short. */
  predicate AnyShort(rows: seq<StockRow>, lk: StockLookup)
  {
    exists d :: d in rows && Short(d, lk)
  }

  /** The collected errors are non-empty exactly when some row is short. */
  lemma ErrorsIffShort(rows: seq<StockRow>, lk: StockLookup)
    ensures CollectStockErrors(rows, lk) != [] <==> AnyShort(rows, lk)
  {
    var errors := CollectStockErrors(rows, lk);
    if errors != [] {
      assert errors[0] in errors;
    }
    if AnyShort(rows, lk) {
      var d :| d in rows && Short(d, lk);
      var k :| 0 <= k < |rows| && rows[k] == d;
      assert ErrorFor(rows[k], lk) in errors;
    }
  }

  /** The invoice as the stock check sees it: its doctype and
      `update_stock`, its rows, its packed rows when it has that field,
      and the profile's blocking setting (None without a profile). */
  datatype StockInvoice = StockInvoice(isSalesInvoice: bool, updateStock: int, items: seq<StockRow>,
                                       packedItems: Option<seq<StockRow>>, profileSetting: Option<int>)

  /** `items_to_check`: the flagged rows, then every packed row. */
  function ItemsToCheck(doc: StockInvoice): seq<StockRow>
  {
    FlaggedRows(doc.items) + doc.packedItems.GetOr([])
  }

  /** A Sales Invoice that does not update stock is not checked. */
  predicate SkipsCheck(doc: StockInvoice)
  {
    doc.isSalesInvoice && doc.updateStock == 0
  }

  /** Some checked row is short: a flagged invoice row or a packed row. */
  predicate ShortChecked(doc: StockInvoice, lk: StockLookup)
  {
    (exists d :: d in doc.items && Flagged(d) && Short(d, lk))
    || (exists d :: d in doc.packedItems.GetOr([]) && Short(d, lk))
  }

  /**
   * `_validate_stock_on_invoice` as written: refused (it throws) when the
   * check applies, some checked row is short and `_should_block` says
   * so, which, with the `or 1` fallback, is whenever negative stock is
   * not allowed.
   */
  function StockValidationRefuses(doc: StockInvoice, lk: StockLookup, allowNegativeStock: int): (r: bool)
    ensures r <==> !SkipsCheck(doc) && ShortChecked(doc, lk) && allowNegativeStock == 0
  {
    if SkipsCheck(doc) then false
    else
      var rows := ItemsToCheck(doc);
      FlaggedRowsMembers(doc.items);
      ErrorsIffShort(rows, lk);
      assert AnyShort(rows, lk) <==> ShortChecked(doc, lk);
      CollectStockErrors(rows, lk) != [] && ShouldBlock(allowNegativeStock, doc.profileSetting)
  }

  /** The same check with the evidently intended switch: a profile that
      turns blocking off lets short invoices through. */
  function StockValidationRefusesIntended(doc: StockInvoice, lk: StockLookup, allowNegativeStock: int): (r: bool)
    ensures r <==> !SkipsCheck(doc) && ShortChecked(doc, lk) && ShouldBlockIntended(allowNegativeStock, doc.profileSetting)
  {
    if SkipsCheck(doc) then false
    else
      var rows := ItemsToCheck(doc);
      FlaggedRowsMembers(doc.items);
      ErrorsIffShort(rows, lk);
      assert AnyShort(rows, lk) <==> ShortChecked(doc, lk);
      CollectStockErrors(rows, lk) != [] && ShouldBlockIntended(allowNegativeStock, doc.profileSetting)
  }

  /** A short invoice on a profile with blocking turned off is refused as
      written and let through as intended. */
  lemma DisabledProfileStillRefuses(doc: StockInvoice, lk: StockLookup)
    requires !SkipsCheck(doc) && ShortChecked(doc, lk) && doc.profileSetting == Some(0)
    ensures StockValidationRefuses(doc, lk, 0)
    ensures !StockValidationRefusesIntended(doc, lk, 0)
  {
  }

  // ---------------------------------------------------------------------
  // Return search (invoices.py:774-781, 866-902)

  /** The `page` argument: text that parses to a number, empty text, a
      number that is not text, or nothing. */
  datatype PageArg = TextPage(n: int) | EmptyText | NumberPage(n: int) | NoPage

  const ReturnPageLength: nat := 100

  /** Only a non-empty text page is used; anything else is page 1. */
  function PageNumber(page: PageArg): (r: int)
    ensures page.TextPage? ==> r == page.n
    ensures !page.TextPage? ==> r == 1
  {
    match page
    case TextPage(n) => n
    case _ => 1
  }

  /** `has_more`: another page exists beyond this one. */
  function HasMore(page: PageArg, totalCount: int): (r: bool)
    ensures r <==> PageNumber(page) * ReturnPageLength < totalCount
  {
    var start := (PageNumber(page) - 1) * ReturnPageLength;
    start + ReturnPageLength < totalCount
  }

  /** An invoice line as the search copies it. */
  datatype InvoiceLine = InvoiceLine(itemCode: string, qty: real, rate: real, amount: real, stockQty: real)

  /** A line with what is left after earlier returns: quantity, amount
      and stock quantity scaled to the remainder. */
  function Remainder(l: InvoiceLine, returned: real): InvoiceLine
  {
    var remaining := l.qty - returned;
    l.(qty := remaining, amount := remaining * l.rate,
       stockQty := if l.stockQty != 0.0 then (if l.qty != 0.0 then l.stockQty / l.qty * remaining else remaining) else l.stockQty)
  }

  /** A line less everything returned for its item code. */
  function LeftOf(l: InvoiceLine, earlier: seq<Line>): InvoiceLine
  {
    Remainder(l, ReturnedQty(earlier, l.itemCode))
  }

  /**
   * The lines of an invoice that can still be returned: each line's
   * quantity less everything returned for its item code, kept when
   * positive. (Two lines of the same item are each reduced by the whole
   * returned quantity.)
   */
  function ReturnableLines(lines: seq<InvoiceLine>, earlier: seq<Line>): (r: seq<InvoiceLine>)
    ensures |r| <= |lines|
    ensures forall x :: x in r ==> x.qty > 0.0 && exists l :: l in lines && x == LeftOf(l, earlier)
    ensures forall l :: l in lines && LeftOf(l, earlier).qty > 0.0 ==> LeftOf(l, earlier) in r
  {
    if lines == [] then []
    else
      var rest := ReturnableLines(lines[1..], earlier);
      var here := LeftOf(lines[0], earlier);
      assert forall l :: l in lines <==> l == lines[0] || l in lines[1..] by {
        assert lines == [lines[0]] + lines[1..];
      }
      if here.qty > 0.0 then [here] + rest else rest
  }

  /** Nothing returned yet: every line with a positive quantity is
      offered whole. */
  lemma NothingReturnedKeepsLines(lines: seq<InvoiceLine>, k: int)
    requires 0 <= k < |lines| && lines[k].qty > 0.0
    ensures Remainder(lines[k], 0.0) in ReturnableLines(lines, [])
    ensures Remainder(lines[k], 0.0).qty == lines[k].qty && Remainder(lines[k], 0.0).itemCode == lines[k].itemCode
  {
    assert lines[k] in lines;
    assert LeftOf(lines[k], []) == Remainder(lines[k], 0.0);
  }

  /** Returnable quantities never exceed what was invoiced. */
  lemma ReturnableBounded(lines: seq<InvoiceLine>, earlier: seq<Line>, x: InvoiceLine)
    requires x in ReturnableLines(lines, earlier)
    ensures exists l :: l in lines && l.itemCode == x.itemCode && 0.0 < x.qty <= l.qty
  {
    var l :| l in lines && x == LeftOf(l, earlier);
    ReturnedQtyNonNegative(earlier, l.itemCode);
  }

  /** What the search lists for one invoice: the whole invoice when
      nothing was returned against it, else its returnable lines, and
      nothing when none is left. */
  function SearchEntry(lines: seq<InvoiceLine>, earlier: seq<Line>, hasReturns: bool): (r: Option<seq<InvoiceLine>>)
    ensures !hasReturns ==> r == Some(lines)
    ensures hasReturns ==> (r.None? <==> ReturnableLines(lines, earlier) == [])
  {
    if !hasReturns then Some(lines)
    else
      var kept := ReturnableLines(lines, earlier);
      if kept == [] then None else Some(kept)
  }
}
