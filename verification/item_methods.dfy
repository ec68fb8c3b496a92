/**
 * Invoice item helpers of
 * frontend/src/posapp/components/pos/invoiceItemMethods.js: the sign
 * rules of return invoices (document totals, item lines, payments), the
 * re-application of manually set rates to a reloaded document, and the
 * quantity limit of a cart line. Amounts are exact: the precision
 * rounding (`flt`) is not modelled.
 */
module ItemMethods {
  import opened Common
  import opened Numerals

  // ---------------------------------------------------------------------
  // Return document totals (invoiceItemMethods.js:1397-1486)

  /** `ensureNegative`: a positive value becomes its negation. */
  function EnsureNegative(x: real): (r: real)
    ensures r <= 0.0 || r == x
    ensures x > 0.0 ==> r == -x
    ensures x <= 0.0 ==> r == x
    ensures RAbs(r) == RAbs(x)
  {
    if x > 0.0 then -RAbs(x) else x
  }

  lemma EnsureNegativeIdempotent(x: real)
    ensures EnsureNegative(EnsureNegative(x)) == EnsureNegative(x)
    ensures EnsureNegative(x) <= 0.0
  {
  }

  /** The totals shifted when the document discount changes sign. */
  const NetFields: seq<string> := ["net_total", "grand_total", "rounded_total"]
  const BaseNetFields: seq<string> := ["base_net_total", "base_grand_total", "base_rounded_total"]
  /** The totals forced non-positive on a return. */
  const TotalFields: seq<string> := ["total", "net_total", "grand_total", "rounded_total",
                                     "base_total", "base_net_total", "base_grand_total", "base_rounded_total"]

  /** A document's numeric fields; a field that is missing, null or empty
      text is absent. */
  datatype Doc = Doc(isReturn: bool, fields: map<string, real>)

  /** What making `field` non-positive changes: the new value minus the
      old, 0 when the field is absent. */
  function DiscountDelta(fields: map<string, real>, field: string): (r: real)
    ensures field !in fields ==> r == 0.0
    ensures field in fields ==> fields[field] + r == EnsureNegative(fields[field]) && r <= 0.0
  {
    if field in fields then EnsureNegative(fields[field]) - fields[field] else 0.0
  }

  /**
   * The first half of `_normalizeReturnDocTotals`: the discount and base
   * discount become non-positive, and each present net, grand and rounded
   * total (in document and base currency) moves by minus the change of
   * its discount.
   */
  function ShiftByDiscount(fields: map<string, real>): (r: map<string, real>)
    ensures r.Keys == fields.Keys
    ensures "discount_amount" in fields ==> r["discount_amount"] == EnsureNegative(fields["discount_amount"])
    ensures "base_discount_amount" in fields ==> r["base_discount_amount"] == EnsureNegative(fields["base_discount_amount"])
    ensures forall f :: f in fields && f in NetFields ==> r[f] == fields[f] - DiscountDelta(fields, "discount_amount")
    ensures forall f :: f in fields && f in BaseNetFields ==> r[f] == fields[f] - DiscountDelta(fields, "base_discount_amount")
    ensures forall f :: (f in fields && f !in NetFields && f !in BaseNetFields && f != "discount_amount"
                         && f != "base_discount_amount") ==> r[f] == fields[f]
  {
    var delta := DiscountDelta(fields, "discount_amount");
    var baseDelta := DiscountDelta(fields, "base_discount_amount");
    DiscountsAreNotTotals();
    map f | f in fields ::
      if f == "discount_amount" || f == "base_discount_amount" then EnsureNegative(fields[f])
      else if f in NetFields then fields[f] - delta
      else if f in BaseNetFields then fields[f] - baseDelta
      else fields[f]
  }

  /** The discount fields are neither net nor base net totals. */
  lemma DiscountsAreNotTotals()
    ensures "discount_amount" !in NetFields && "discount_amount" !in BaseNetFields
    ensures "base_discount_amount" !in NetFields && "base_discount_amount" !in BaseNetFields
    ensures forall f :: f in NetFields ==> f !in BaseNetFields
  {
  }

  /** The second half: every present total becomes non-positive. */
  function ForceTotalsNegative(fields: map<string, real>): (r: map<string, real>)
    ensures r.Keys == fields.Keys
    ensures forall f :: f in fields && f in TotalFields ==> r[f] == EnsureNegative(fields[f])
    ensures forall f :: f in fields && f !in TotalFields ==> r[f] == fields[f]
  {
    map f | f in fields :: if f in TotalFields then EnsureNegative(fields[f]) else fields[f]
  }

  /**
   * `_normalizeReturnDocTotals`: a document that is not a return is left
   * alone; on a return the discounts become non-positive, the totals
   * move with the discount, and then every total is made non-positive.
   */
  function NormalizeReturnDocTotals(doc: Doc): (r: Doc)
    ensures !doc.isReturn ==> r == doc
    ensures r.isReturn == doc.isReturn && r.fields.Keys == doc.fields.Keys
    ensures doc.isReturn ==> forall f :: f in r.fields && (f in TotalFields || f == "discount_amount" || f == "base_discount_amount")
                                         ==> r.fields[f] <= 0.0
    ensures doc.isReturn ==> forall f :: (f in doc.fields && f !in TotalFields && f != "discount_amount"
                                          && f != "base_discount_amount") ==> r.fields[f] == doc.fields[f]
  {
    if !doc.isReturn then doc
    else Doc(doc.isReturn, ForceTotalsNegative(ShiftByDiscount(doc.fields)))
  }

  /** Normalizing a normalized return changes nothing more. */
  lemma NormalizeReturnDocTotalsIdempotent(doc: Doc)
    ensures NormalizeReturnDocTotals(NormalizeReturnDocTotals(doc)) == NormalizeReturnDocTotals(doc)
  {
    var once := NormalizeReturnDocTotals(doc);
    if doc.isReturn {
      ShiftWithoutPositiveDiscount(once.fields);
      ForceNonPositiveTotals(once.fields);
    }
  }

  /** With no positive discount, the shift changes nothing. */
  lemma ShiftWithoutPositiveDiscount(fields: map<string, real>)
    requires "discount_amount" in fields ==> fields["discount_amount"] <= 0.0
    requires "base_discount_amount" in fields ==> fields["base_discount_amount"] <= 0.0
    ensures ShiftByDiscount(fields) == fields
  {
    assert DiscountDelta(fields, "discount_amount") == 0.0;
    assert DiscountDelta(fields, "base_discount_amount") == 0.0;
    var r := ShiftByDiscount(fields);
    forall f | f in fields ensures r[f] == fields[f] {
      if f in NetFields || f in BaseNetFields { }
    }
    assert r == fields;
  }

  /** With no positive total, forcing the totals non-positive changes
      nothing. */
  lemma ForceNonPositiveTotals(fields: map<string, real>)
    requires forall f :: f in fields && f in TotalFields ==> fields[f] <= 0.0
    ensures ForceTotalsNegative(fields) == fields
  {
    var r := ForceTotalsNegative(fields);
    assert r == fields;
  }

  /** A positive discount `d` on a return adds `2d` to the net, grand and
      rounded totals before they are made non-positive. */
  lemma PositiveDiscountShiftsTotals(fields: map<string, real>, f: string)
    requires "discount_amount" in fields && fields["discount_amount"] > 0.0
    requires f in fields && f in NetFields
    ensures ShiftByDiscount(fields)[f] == fields[f] + 2.0 * fields["discount_amount"]
  {
  }

  // ---------------------------------------------------------------------
  // Return item lines (invoiceItemMethods.js:1063-1070)

  datatype LineAmounts = LineAmounts(qty: real, amount: real, baseAmount: real, discountAmount: real,
                                     baseDiscountAmount: real)

  function NegMag(x: real): (r: real)
    ensures r <= 0.0 && RAbs(r) == RAbs(x)
  {
    -RAbs(x)
  }

  /** `get_invoice_items` on a return: quantity, amounts and discounts
      keep their magnitude and become non-positive. */
  function ReturnLine(l: LineAmounts, isReturn: bool): (r: LineAmounts)
    ensures !isReturn ==> r == l
    ensures isReturn ==> r.qty <= 0.0 && r.amount <= 0.0 && r.baseAmount <= 0.0
                         && r.discountAmount <= 0.0 && r.baseDiscountAmount <= 0.0
    ensures RAbs(r.qty) == RAbs(l.qty) && RAbs(r.amount) == RAbs(l.amount) && RAbs(r.baseAmount) == RAbs(l.baseAmount)
            && RAbs(r.discountAmount) == RAbs(l.discountAmount) && RAbs(r.baseDiscountAmount) == RAbs(l.baseDiscountAmount)
  {
    if isReturn then
      LineAmounts(NegMag(l.qty), NegMag(l.amount), NegMag(l.baseAmount), NegMag(l.discountAmount), NegMag(l.baseDiscountAmount))
    else l
  }

  lemma ReturnLineIdempotent(l: LineAmounts)
    ensures ReturnLine(ReturnLine(l, true), true) == ReturnLine(l, true)
  {
  }

  // ---------------------------------------------------------------------
  // Payments (invoiceItemMethods.js:1114-1150)

  /** A payment method of the POS profile; `amount` is `None` when unset. */
  datatype PaymentMethod = PaymentMethod(modeOfPayment: string, amount: Option<real>)

  datatype Payment = Payment(modeOfPayment: string, amount: real, baseAmount: real)

  /** The currency conversion of a payment: the identity when the selected
      currency is the base one, otherwise division by the exchange rate (1
      when unset). */
  datatype Conversion = Conversion(sameCurrency: bool, exchangeRate: real)

  function ToBase(c: Conversion, amount: real): real
  {
    if c.sameCurrency then amount
    else amount / (if c.exchangeRate != 0.0 then c.exchangeRate else 1.0)
  }

  function PaymentAmount(subtotal: real, m: PaymentMethod, first: bool): real
  {
    if first then subtotal else if m.amount.Some? then m.amount.value else 0.0
  }

  function Signed(amount: real, isReturn: bool): (r: real)
    ensures isReturn ==> r <= 0.0 && RAbs(r) == RAbs(amount)
    ensures !isReturn ==> r == amount
  {
    if isReturn then -RAbs(amount) else amount
  }

  /**
   * `get_payments`: one payment per method of the profile, in order; the
   * first receives the whole subtotal, the others their preset amount (0
   * when unset); on a return every amount is non-positive.
   */
  function GetPayments(subtotal: real, methods: seq<PaymentMethod>, isReturn: bool, c: Conversion): (r: seq<Payment>)
    ensures |r| == |methods|
    ensures forall i :: 0 <= i < |r| ==> r[i].modeOfPayment == methods[i].modeOfPayment
    ensures forall i :: 0 <= i < |r| ==> r[i].amount == Signed(PaymentAmount(subtotal, methods[i], i == 0), isReturn)
    ensures forall i :: 0 <= i < |r| ==> r[i].baseAmount == ToBase(c, r[i].amount)
  {
    seq(|methods|, i requires 0 <= i < |methods| =>
      var amount := Signed(PaymentAmount(subtotal, methods[i], i == 0), isReturn);
      Payment(methods[i].modeOfPayment, amount, ToBase(c, amount)))
  }

  /** The first method carries the subtotal (its magnitude, negated, on a
      return) and on a return no payment is positive. */
  lemma PaymentsCoverSubtotal(subtotal: real, methods: seq<PaymentMethod>, isReturn: bool, c: Conversion)
    requires methods != []
    ensures var r := GetPayments(subtotal, methods, isReturn, c);
            r[0].amount == (if isReturn then -RAbs(subtotal) else subtotal)
            && (isReturn ==> forall i :: 0 <= i < |r| ==> r[i].amount <= 0.0)
  {
  }

  // ---------------------------------------------------------------------
  // Manual rate overrides (invoiceItemMethods.js:1488-1623)

  /** The keys that identify an item row; empty text is null. */
  datatype Keys = Keys(name: string, rowId: string, itemCode: string, idx: Option<int>, batchNo: string, serialNo: string)

  /** A document item: its keys, quantity and price fields. */
  datatype DocItem = DocItem(keys: Keys, qty: Option<real>, prices: map<string, real>, uom: string, manualRateSet: bool)

  /** The values a manual override restores; `uom` empty when unset. */
  datatype Override = Override(keys: Keys, values: map<string, real>, uom: string)

  /**
   * `_doesManualOverrideMatchItem`: the same document row name, else the
   * same row id, else the same item code with the same index or with
   * the same batch and serial number.
   */
  predicate Matches(o: Keys, item: Keys)
  {
    (o.name != [] && item.name != [] && o.name == item.name)
    || (o.rowId != [] && item.rowId != [] && o.rowId == item.rowId)
    || (o.itemCode != [] && item.itemCode == o.itemCode
        && ((o.idx.Some? && item.idx == o.idx) || (o.batchNo == item.batchNo && o.serialNo == item.serialNo)))
  }

  /** `_collectManualRateOverrides`: an override per manually priced item,
      keyed by that item. */
  function CollectOverrides(items: seq<DocItem>): (r: seq<Override>)
    ensures |r| <= |items|
    ensures forall o :: o in r ==> exists it :: it in items && it.manualRateSet && o.keys == it.keys
  {
    if items == [] then []
    else
      var rest := CollectOverrides(items[1..]);
      assert forall it :: it in items[1..] ==> it in items;
      if items[0].manualRateSet then [Override(items[0].keys, items[0].prices, items[0].uom)] + rest else rest
  }

  /** An override collected from an item that has any key matches that
      item again. */
  lemma CollectedOverrideMatchesItsItem(it: DocItem)
    requires it.keys.name != [] || it.keys.rowId != [] || it.keys.itemCode != []
    ensures Matches(it.keys, it.keys)
  {
  }

  /** `_assignManualOverrideValues`: the override's values replace the
      item's; an amount it lacks is recomputed from quantity and rate. */
  function AssignOverride(item: DocItem, o: Override): (r: DocItem)
    ensures r.manualRateSet && r.keys == item.keys && r.qty == item.qty
    ensures forall f :: f in o.values ==> f in r.prices && r.prices[f] == o.values[f]
    ensures r.uom == (if o.uom != [] then o.uom else item.uom)
  {
    var prices := item.prices + o.values;
    var withAmount :=
      if "amount" in o.values || item.qty.None? || "rate" !in prices then prices
      else prices["amount" := item.qty.value * prices["rate"]];
    var withBase :=
      if "base_amount" in o.values || item.qty.None? || "base_rate" !in withAmount then withAmount
      else withAmount["base_amount" := item.qty.value * withAmount["base_rate"]];
    DocItem(item.keys, item.qty, withBase, if o.uom != [] then o.uom else item.uom, true)
  }

  /** The first override matching `keys`, or -1. */
  function FirstMatch(overrides: seq<Override>, keys: Keys): (r: int)
    ensures -1 <= r < |overrides|
    ensures r >= 0 ==> Matches(overrides[r].keys, keys) && forall j :: 0 <= j < r ==> !Matches(overrides[j].keys, keys)
    ensures r == -1 ==> forall j :: 0 <= j < |overrides| ==> !Matches(overrides[j].keys, keys)
  {
    if overrides == [] then -1
    else if Matches(overrides[0].keys, keys) then 0
    else
      var k := FirstMatch(overrides[1..], keys);
      if k == -1 then -1 else k + 1
  }

  /** The items after the overrides, the overrides used per item, and
      the overrides left. */
  datatype Applied = Applied(items: seq<DocItem>, used: seq<Option<Override>>, remaining: seq<Override>)

  function UsedOnes(used: seq<Option<Override>>): multiset<Override>
  {
    if used == [] then multiset{} else (if used[0].Some? then multiset{used[0].value} else multiset{}) + UsedOnes(used[1..])
  }

  /**
   * `_applyManualRateOverridesToDoc`: each item, in order, takes the
   * first remaining override that matches it, which is then used up; so
   * every override is applied to at most one item.
   */
  function ApplyOverrides(items: seq<DocItem>, overrides: seq<Override>): (r: Applied)
    ensures |r.items| == |items| && |r.used| == |items|
    ensures UsedOnes(r.used) + multiset(r.remaining) == multiset(overrides)
    decreases |items|
  {
    if items == [] then Applied([], [], overrides)
    else
      var k := FirstMatch(overrides, items[0].keys);
      if k == -1 then
        var rest := ApplyOverrides(items[1..], overrides);
        var used := [None] + rest.used;
        assert used[1..] == rest.used;
        Applied([items[0]] + rest.items, used, rest.remaining)
      else
        var o := overrides[k];
        var left := RemoveAt(overrides, k);
        var rest := ApplyOverrides(items[1..], left);
        var used := [Some(o)] + rest.used;
        assert used[1..] == rest.used;
        Applied([AssignOverride(items[0], o)] + rest.items, used, rest.remaining)
  }

  /** Each item is left alone when no override was used on it, and
      otherwise took the values of a matching override. */
  lemma {:induction false} ApplyOverridesPerItem(items: seq<DocItem>, overrides: seq<Override>, i: nat)
    requires i < |items|
    ensures var r := ApplyOverrides(items, overrides);
            (r.used[i].None? ==> r.items[i] == items[i])
            && (r.used[i].Some? ==> Matches(r.used[i].value.keys, items[i].keys)
                                    && r.items[i] == AssignOverride(items[i], r.used[i].value))
    decreases |items|
  {
    var r := ApplyOverrides(items, overrides);
    var k := FirstMatch(overrides, items[0].keys);
    var left := if k == -1 then overrides else RemoveAt(overrides, k);
    var rest := ApplyOverrides(items[1..], left);
    assert r.items[1..] == rest.items && r.used[1..] == rest.used;
    if i > 0 {
      ApplyOverridesPerItem(items[1..], left, i - 1);
      assert items[1..][i - 1] == items[i];
      assert r.items[i] == rest.items[i - 1] && r.used[i] == rest.used[i - 1];
    } else if k == -1 {
      assert r.used[0] == None && r.items[0] == items[0];
    } else {
      assert r.used[0] == Some(overrides[k]) && r.items[0] == AssignOverride(items[0], overrides[k]);
    }
  }

  /** No more overrides are used than were given. */
  lemma AppliedAtMostOnce(items: seq<DocItem>, overrides: seq<Override>)
    ensures |UsedOnes(ApplyOverrides(items, overrides).used)| <= |overrides|
  {
    var r := ApplyOverrides(items, overrides);
    assert |UsedOnes(r.used) + multiset(r.remaining)| == |overrides|;
  }

  // ---------------------------------------------------------------------
  // Quantity limits (invoiceItemMethods.js:2988-3003)

  /** The stock fields of a cart line; `conversionFactor` 0 when unset and
      `availableQty` `None` when undefined. */
  datatype LimitItem = LimitItem(isStockItem: JsValue, availableQty: Option<real>, conversionFactor: real,
                                 qty: real, maxQty: Option<real>, disableIncrement: bool)

  /**
   * `update_qty_limits`: an item flagged as no stock item has no limit
   * and can always be incremented; with a known available quantity the
   * limit is that quantity in the line's unit, and incrementing stops at
   * the limit unless negative stock is allowed and sales beyond the
   * available quantity are not blocked.
   */
  function UpdateQtyLimits(item: LimitItem, allowNegativeStock: bool, blockBeyondAvailable: bool): (r: LimitItem)
    ensures item.isStockItem == JsNumber(0.0) ==> r.maxQty.None? && !r.disableIncrement
    ensures item.isStockItem != JsNumber(0.0) && item.availableQty.Some? ==>
              r.maxQty.Some? && r.maxQty.value * (if item.conversionFactor != 0.0 then item.conversionFactor else 1.0) == item.availableQty.value
              && (r.disableIncrement <==> (!allowNegativeStock || blockBeyondAvailable) && item.qty >= r.maxQty.value)
    ensures item.isStockItem != JsNumber(0.0) && item.availableQty.None? ==> r == item
    ensures r.isStockItem == item.isStockItem && r.qty == item.qty && r.availableQty == item.availableQty
  {
    if item.isStockItem == JsNumber(0.0) then item.(maxQty := None, disableIncrement := false)
    else if item.availableQty.Some? then
      var factor := if item.conversionFactor != 0.0 then item.conversionFactor else 1.0;
      var maxQty := item.availableQty.value / factor;
      item.(maxQty := Some(maxQty), disableIncrement := (!allowNegativeStock || blockBeyondAvailable) && item.qty >= maxQty)
    else item
  }
}
