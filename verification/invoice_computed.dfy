/**
 * Computed values of the invoice screen,
 * frontend/src/posapp/components/pos/invoiceComputed.js: the gross total
 * (magnitudes on a return), the subtotal after the additional discount
 * and delivery charges, the day-month-year form of the posting date, and
 * whether sales beyond the available quantity are blocked.
 */
module InvoiceComputed {
  import opened Common
  import opened Numerals
  import opened StockSettings
  import ItemMethods

  /** The fields of a cart line the totals read. */
  datatype Line = Line(qty: real, rate: real)

  /** The gross total the invoice store keeps; `None` when it is not a
      number, in which case the lines are summed. */
  type StoreTotal = Option<real>

  /** The quantity a line counts with: its magnitude on a return. */
  function CountedQty(l: Line, isReturn: bool): (r: real)
    ensures isReturn ==> r == RAbs(l.qty)
    ensures !isReturn ==> r == l.qty
  {
    if isReturn then RAbs(l.qty) else l.qty
  }

  function LinesTotal(items: seq<Line>, isReturn: bool): real
  {
    if items == [] then 0.0 else LinesTotal(items[..|items| - 1], isReturn) + CountedQty(items[|items| - 1], isReturn) * items[|items| - 1].rate
  }

  /** `Total`: the store's gross total (its magnitude on a return), or the
      sum over the lines of quantity times rate. */
  function Total(items: seq<Line>, store: StoreTotal, isReturn: bool): (r: real)
    ensures store.Some? ==> r == (if isReturn then RAbs(store.value) else store.value)
    ensures store.None? ==> r == LinesTotal(items, isReturn)
  {
    if store.Some? then (if isReturn then RAbs(store.value) else store.value)
    else LinesTotal(items, isReturn)
  }

  /** On a return with non-negative rates the summed total is never
      negative, whatever the signs of the quantities. */
  lemma {:induction false} ReturnLinesTotalNonNegative(items: seq<Line>)
    requires forall i :: 0 <= i < |items| ==> items[i].rate >= 0.0
    ensures LinesTotal(items, true) >= 0.0
  {
    if items != [] {
      ReturnLinesTotalNonNegative(items[..|items| - 1]);
    }
  }

  /** The total of a return does not depend on the signs of the line
      quantities. */
  lemma {:induction false} ReturnTotalIgnoresSigns(items: seq<Line>, flipped: seq<Line>)
    requires |flipped| == |items|
    requires forall i :: 0 <= i < |items| ==> flipped[i] == Line(-items[i].qty, items[i].rate)
    ensures LinesTotal(flipped, true) == LinesTotal(items, true)
  {
    if items != [] {
      ReturnTotalIgnoresSigns(items[..|items| - 1], flipped[..|flipped| - 1]);
    }
  }

  /**
   * `subtotal`: the gross total as `Total` computes it, with the
   * additional discount taken off a sale but added on a return, and the
   * delivery charges added.
   */
  function Subtotal(items: seq<Line>, store: StoreTotal, isReturn: bool, additionalDiscount: real, deliveryCharges: real): (r: real)
  {
    var gross := if store.Some? then (if isReturn then RAbs(store.value) else store.value) else LinesTotal(items, isReturn);
    var discounted := if isReturn then gross + additionalDiscount else gross - additionalDiscount;
    discounted + deliveryCharges
  }

  /** The subtotal is the gross total moved by the discount and the
      delivery charges. */
  lemma SubtotalFromTotal(items: seq<Line>, store: StoreTotal, isReturn: bool, additionalDiscount: real, deliveryCharges: real)
    ensures Subtotal(items, store, isReturn, additionalDiscount, deliveryCharges)
            == Total(items, store, isReturn) + (if isReturn then additionalDiscount else -additionalDiscount) + deliveryCharges
  {
  }

  // ---------------------------------------------------------------------
  // formatted_posting_date (invoiceComputed.js:112-129)

  const Dash := '-'

  /** `split("-")`: the parts between the dashes, at least one. */
  function Split(s: string): (r: seq<string>)
    ensures |r| >= 1
    ensures forall i :: 0 <= i < |r| ==> Dash !in r[i]
    ensures Join(r) == s
  {
    if s == [] then [[]]
    else
      var rest := Split(s[1..]);
      if s[0] == Dash then [[]] + rest
      else
        assert Join([[s[0]] + rest[0]] + rest[1..]) == [s[0]] + Join(rest);
        [[s[0]] + rest[0]] + rest[1..]
  }

  /** The parts joined with dashes. */
  function Join(parts: seq<string>): string
    requires |parts| >= 1
  {
    if |parts| == 1 then parts[0] else parts[0] + [Dash] + Join(parts[1..])
  }

  lemma {:induction false} SplitWithoutDash(a: string)
    requires Dash !in a
    ensures Split(a) == [a]
  {
    if a != [] {
      SplitWithoutDash(a[1..]);
    }
  }

  lemma {:induction false} SplitDashed(a: string, b: string)
    requires Dash !in a
    ensures Split(a + [Dash] + b) == [a] + Split(b)
  {
    if a == [] {
      assert a + [Dash] + b == [Dash] + b;
    } else {
      var s := a + [Dash] + b;
      assert s[0] == a[0] && s[0] != Dash;
      assert s[1..] == a[1..] + [Dash] + b;
      SplitDashed(a[1..], b);
      var rest := Split(s[1..]);
      assert rest[0] == a[1..] && rest[1..] == Split(b);
      assert [a[0]] + a[1..] == a;
    }
  }

  /** Splitting undoes joining parts that hold no dash. */
  lemma {:induction false} SplitJoin(parts: seq<string>)
    requires |parts| >= 1
    requires forall i :: 0 <= i < |parts| ==> Dash !in parts[i]
    ensures Split(Join(parts)) == parts
  {
    if |parts| == 1 {
      SplitWithoutDash(parts[0]);
    } else {
      SplitDashed(parts[0], Join(parts[1..]));
      SplitJoin(parts[1..]);
    }
  }

  /** The three parts of a date in the other order. */
  function Swapped(s: string): string
  {
    var parts := Split(s);
    if |parts| == 3 then Join([parts[2], parts[1], parts[0]]) else s
  }

  /** The getter: empty stays empty; a date of three dash-separated parts
      is shown with them reversed; anything else as it is. */
  function FormattedPostingDate(postingDate: string): (r: string)
    ensures postingDate == [] ==> r == []
    ensures |Split(postingDate)| != 3 ==> r == postingDate
    ensures |Split(postingDate)| == 3 ==> Split(r) == [Split(postingDate)[2], Split(postingDate)[1], Split(postingDate)[0]]
  {
    if postingDate == [] then [] else SwappedParts(postingDate); Swapped(postingDate)
  }

  /** The setter: the same reversal back to year-month-day. */
  function SetFormattedPostingDate(val: string): (r: string)
    ensures |Split(val)| != 3 ==> r == val
    ensures |Split(val)| == 3 ==> Split(r) == [Split(val)[2], Split(val)[1], Split(val)[0]]
  {
    SwappedParts(val);
    Swapped(val)
  }

  /** Splitting a swapped date gives its parts in reverse order. */
  lemma SwappedParts(s: string)
    ensures |Split(s)| == 3 ==> Split(Swapped(s)) == [Split(s)[2], Split(s)[1], Split(s)[0]]
  {
    var parts := Split(s);
    if |parts| == 3 {
      SplitJoin([parts[2], parts[1], parts[0]]);
    }
  }

  lemma SwappedTwice(s: string)
    ensures Swapped(Swapped(s)) == s
  {
    var parts := Split(s);
    if |parts| == 3 {
      SplitJoin([parts[2], parts[1], parts[0]]);
      assert [parts[0], parts[1], parts[2]] == parts;
    }
  }

  lemma JoinThree(a: string, b: string, c: string)
    ensures Join([a, b, c]) == a + [Dash] + b + [Dash] + c
  {
    assert [a, b, c][1..] == [b, c];
    assert [b, c][1..] == [c];
    assert Join([c]) == c;
    assert Join([b, c]) == b + [Dash] + c;
    assert Join([a, b, c]) == a + [Dash] + (b + [Dash] + c);
  }

  /** A date of three dash-free parts is shown with its parts reversed,
      and the setter reverses a shown date back. */
  lemma ThreePartDateReversed(y: string, m: string, d: string)
    requires Dash !in y && Dash !in m && Dash !in d
    ensures FormattedPostingDate(y + [Dash] + m + [Dash] + d) == d + [Dash] + m + [Dash] + y
    ensures SetFormattedPostingDate(d + [Dash] + m + [Dash] + y) == y + [Dash] + m + [Dash] + d
  {
    JoinThree(y, m, d);
    JoinThree(d, m, y);
    SplitJoin([y, m, d]);
    SplitJoin([d, m, y]);
  }

  /** The setter undoes the getter and the getter the setter, for every
      text. */
  lemma PostingDateRoundTrip(postingDate: string, shown: string)
    ensures SetFormattedPostingDate(FormattedPostingDate(postingDate)) == postingDate
    ensures FormattedPostingDate(SetFormattedPostingDate(shown)) == shown
  {
    SwappedTwice(postingDate);
    SwappedTwice(shown);
    if postingDate == [] {
      assert Split(postingDate) == [[]];
    }
  }

  // ---------------------------------------------------------------------
  // isReturnInvoice and blockSaleBeyondAvailableQty (invoiceComputed.js:138-150)

  /** A return by the invoice type or by the document's flag. */
  predicate IsReturnInvoice(invoiceType: string, docIsReturn: bool)
  {
    invoiceType == "Return" || docIsReturn
  }

  /** `blockSaleBeyondAvailableQty`: never for orders and quotations;
      otherwise iff negative stock is not allowed and the profile asks
      for the block. */
  function BlockSaleBeyondAvailableQty(invoiceType: string, allowNegativeStock: JsValue, profileBlocks: bool): (r: bool)
    ensures invoiceType == "Order" || invoiceType == "Quotation" ==> !r
    ensures invoiceType != "Order" && invoiceType != "Quotation" ==>
              (r <==> !ParseBooleanSetting(allowNegativeStock) && profileBlocks)
  {
    if invoiceType in ["Order", "Quotation"] then false
    else !ParseBooleanSetting(allowNegativeStock) && profileBlocks
  }

  /** When the block applies, a stock line whose quantity reaches the
      limit cannot be incremented, whatever its negative stock flag. */
  lemma BlockedLineStopsAtLimit(invoiceType: string, allowNegativeStock: JsValue, item: ItemMethods.LimitItem, allowNegative: bool)
    requires BlockSaleBeyondAvailableQty(invoiceType, allowNegativeStock, true)
    requires item.isStockItem != JsNumber(0.0) && item.availableQty.Some?
    requires item.qty * (if item.conversionFactor != 0.0 then item.conversionFactor else 1.0) >= item.availableQty.value
    requires item.conversionFactor >= 0.0
    ensures ItemMethods.UpdateQtyLimits(item, allowNegative, BlockSaleBeyondAvailableQty(invoiceType, allowNegativeStock, true)).disableIncrement
  {
    var factor := if item.conversionFactor != 0.0 then item.conversionFactor else 1.0;
    var r := ItemMethods.UpdateQtyLimits(item, allowNegative, true);
    assert r.maxQty.value * factor == item.availableQty.value;
    assert item.qty * factor >= r.maxQty.value * factor;
  }
}
