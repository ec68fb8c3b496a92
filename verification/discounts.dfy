/**
 * Discount arithmetic of frontend/src/posapp/composables/useDiscounts.js:
 * the invoice-level additional discount derived from a percentage, the
 * item-level edit of rate, discount amount or discount percentage, and
 * the item price recomputation, each in the selected currency with
 * its base-currency counterpart. Amounts are exact decimals: the
 * precision rounding (`flt`) is not modelled.
 */
module Discounts {
  import opened Common
  import InvoiceWatchers

  // ---------------------------------------------------------------------
  // Additional discount (useDiscounts.js:5-46)

  datatype AdditionalDiscount = AdditionalDiscount(percentage: real, amount: real)

  /** The discount for `percentage` of `baseTotal`, by magnitude. */
  function Share(baseTotal: real, percentage: real): real
  {
    baseTotal * RAbs(percentage) / 100.0
  }

  /** For a positive total, the signed share is exactly the percentage of
      the total. */
  lemma SaleShare(total: real, p: real)
    requires total > 0.0
    ensures (if p < 0.0 then -RAbs(Share(total, p)) else RAbs(Share(total, p))) * 100.0 == total * p
  {
    if p < 0.0 {
      assert Share(total, p) == total * -p / 100.0;
      assert total * -p > 0.0;
    } else {
      assert Share(total, p) == total * p / 100.0;
      assert total * p >= 0.0;
    }
  }

  /**
   * `updateDiscountAmount`: a percentage outside [-100, 100] resets both
   * fields; a zero total gives no discount. In percentage mode a return
   * gets a non-positive percentage, and the amount is that share of the
   * total's magnitude, negative for returns and negative percentages.
   * Outside percentage mode the amount is that share of the total, the
   * total counted negative for returns.
   */
  function UpdateDiscountAmount(percentage: real, usePercentage: bool, total: real, isReturn: bool): (r: AdditionalDiscount)
    ensures percentage < -100.0 || percentage > 100.0 ==> r == AdditionalDiscount(0.0, 0.0)
    ensures -100.0 <= percentage <= 100.0 && total == 0.0 ==> r == AdditionalDiscount(percentage, 0.0)
    ensures -100.0 <= r.percentage <= 100.0
    ensures usePercentage && isReturn && total != 0.0 ==> r.percentage <= 0.0 && r.amount <= 0.0
    ensures usePercentage && isReturn && total != 0.0 && -100.0 <= percentage <= 100.0 ==>
              r.percentage == -RAbs(percentage) && r.amount == -RAbs(Share(RAbs(total), percentage))
  {
    if percentage < -100.0 || percentage > 100.0 then AdditionalDiscount(0.0, 0.0)
    else if total != 0.0 then
      var value := if usePercentage && isReturn && percentage > 0.0 then -percentage else percentage;
      if usePercentage then
        var baseTotal := if isReturn then RAbs(total) else total;
        var magnitude := Share(baseTotal, value);
        var amount := if value < 0.0 || isReturn then -RAbs(magnitude) else RAbs(magnitude);
        AdditionalDiscount(value, amount)
      else
        var signedTotal := if isReturn then -RAbs(total) else total;
        AdditionalDiscount(value, signedTotal * value / 100.0)
    else AdditionalDiscount(percentage, 0.0)
  }

  /** The amount is the percentage's share of the total: for a sale with
      a positive total in percentage mode, and in amount mode with the
      total counted negative for returns. */
  lemma DiscountIsShareOfTotal(percentage: real, usePercentage: bool, total: real, isReturn: bool)
    requires -100.0 <= percentage <= 100.0 && total != 0.0
    requires usePercentage ==> !isReturn && total > 0.0
    ensures var r := UpdateDiscountAmount(percentage, usePercentage, total, isReturn);
            r.percentage == percentage && r.amount * 100.0 == (if isReturn then -RAbs(total) else total) * percentage
  {
    if usePercentage {
      SaleShare(total, percentage);
    }
  }

  /** The watcher applied to a sale's discount for a positive total. */
  lemma SaleQuotient(amount: real, total: real, p: real)
    requires total > 0.0 && amount * 100.0 == total * p
    ensures amount / total * 100.0 == p
  {
    assert amount == total * p / 100.0;
  }

  /** The watcher applied to a return's discount. */
  lemma ReturnQuotient(total: real, p: real)
    requires total != 0.0
    ensures -RAbs(-RAbs(Share(RAbs(total), p)) / RAbs(total) * 100.0) == -RAbs(p)
  {
    var t := RAbs(total);
    var a := RAbs(p);
    var m := Share(t, p);
    assert m * 100.0 == t * a;
    assert m >= 0.0;
    var q := -m / t;
    assert q * t == -m;
    assert (q * 100.0) * t == (-a) * t by {
      calc {
        (q * 100.0) * t;
      ==
        (q * t) * 100.0;
      ==
        -m * 100.0;
      ==
        (-a) * t;
      }
    }
    CancelPositive(q * 100.0, -a, t);
  }

  /** A positive factor cancels. */
  lemma CancelPositive(x: real, y: real, t: real)
    requires t > 0.0 && x * t == y * t
    ensures x == y
  {
    assert (x - y) * t == 0.0;
  }

  /**
   * The percentage the `additional_discount` watcher shows for the amount
   * this computes is the percentage it settles on: in percentage mode the
   * two directions are inverse for a return, and for a sale with a
   * positive total.
   */
  lemma DiscountRoundTrip(percentage: real, total: real, isReturn: bool)
    requires -100.0 <= percentage <= 100.0 && total != 0.0
    requires isReturn || total > 0.0
    ensures var d := UpdateDiscountAmount(percentage, true, total, isReturn);
            InvoiceWatchers.DiscountPercentage(d.amount, true, total, isReturn) == d.percentage
  {
    var d := UpdateDiscountAmount(percentage, true, total, isReturn);
    if isReturn {
      ReturnQuotient(total, percentage);
      if d.amount == 0.0 {
        assert Share(RAbs(total), percentage) == 0.0;
        assert RAbs(total) * RAbs(percentage) == 0.0;
        assert percentage == 0.0;
      }
    } else {
      DiscountIsShareOfTotal(percentage, true, total, isReturn);
      SaleQuotient(d.amount, total, percentage);
      if d.amount == 0.0 {
        assert total * percentage == 0.0;
      }
    }
  }

  // ---------------------------------------------------------------------
  // Currencies (useDiscounts.js:70-74, 225-233)

  /** An exchange rate the prices can be divided by. */
  type ExchangeRate = x: real | x != 0.0 witness 1.0

  /** The currencies of a price computation: the one selected for the
      invoice, the price list's (empty when unset), the profile's, and the
      exchange rate between them. */
  datatype CurrencyContext = CurrencyContext(selected: string, priceListCurrency: string,
                                             profileCurrency: string, exchangeRate: ExchangeRate)

  /** `price_list_currency || pos_profile.currency`. */
  function BaseCurrency(c: CurrencyContext): string
  {
    if c.priceListCurrency != [] then c.priceListCurrency else c.profileCurrency
  }

  /** The selected currency is not the base one. */
  predicate Converts(c: CurrencyContext)
  {
    c.selected != BaseCurrency(c)
  }

  /** The one conversion both computations use: divide by the exchange rate
      when the selected currency is not the base one, otherwise keep. */
  function Convert(x: real, c: CurrencyContext): real
  {
    if Converts(c) then x / c.exchangeRate else x
  }

  /** Converting is undone by multiplying back by the exchange rate, and
      only zero converts to zero. */
  lemma ConvertInverse(x: real, c: CurrencyContext)
    ensures Converts(c) ==> Convert(x, c) * c.exchangeRate == x
    ensures !Converts(c) ==> Convert(x, c) == x
    ensures x == 0.0 <==> Convert(x, c) == 0.0
  {
  }

  // ---------------------------------------------------------------------
  // Item price edits (useDiscounts.js:49-184)

  /** The price fields of a cart item. `rate`, `discountAmount` and
      `amount` are shown in the selected currency; the `base` fields hold
      the base-currency figures. */
  datatype PricedItem = PricedItem(qty: real, rate: real, priceListRate: real, discountAmount: real,
                                   discountPercentage: real, amount: real, manualRateSet: bool,
                                   lockedPrice: bool, offerApplied: bool, basePriceListRate: real, baseRate: real,
                                   baseDiscountAmount: real, baseAmount: real, skipCalc: bool)

  /** The field an edit comes from (`$event.target.id`; empty when the
      event has none). */
  datatype Field = RateField | DiscountAmountField | DiscountPercentageField | OtherField(id: string)

  /**
   * `calcPrices`: an event without a target id changes nothing. Otherwise
   * a negative entry counts as 0 and the list rate is converted to the
   * selected currency; a rate sets the discount to the difference from the
   * converted list rate; a discount amount is capped at the converted list
   * rate; a percentage is capped at 100. The base fields keep the same
   * balance against the stored list rate. A rate that would go negative
   * becomes 0 with the whole list rate as discount.
   */
  function CalcPrices(item: PricedItem, field: Field, value: real, c: CurrencyContext): (r: PricedItem)
    ensures field == OtherField([]) ==> r == item
    ensures r.qty == item.qty && r.priceListRate == item.priceListRate && r.amount == item.amount
            && r.baseAmount == item.baseAmount && r.basePriceListRate == item.basePriceListRate
    ensures field != OtherField([]) ==> r.manualRateSet == (item.manualRateSet || field == RateField) && r.rate >= 0.0
    ensures field.OtherField? && item.rate >= 0.0 ==> r == item.(manualRateSet := r.manualRateSet)
    ensures !field.OtherField? ==>
              r.rate + r.discountAmount == Convert(item.priceListRate, c)
              && r.baseRate + r.baseDiscountAmount == item.priceListRate
    ensures field == RateField && 0.0 <= value <= Convert(item.priceListRate, c) ==>
              r.rate == value && r.baseRate * c.exchangeRate == value
  {
    if field == OtherField([]) then item
    else
      var v := if value < 0.0 then 0.0 else value;
      var cplr := Convert(item.priceListRate, c);
      var p := EditPrices(field, v, item.priceListRate, cplr, c.exchangeRate, PricesOf(item));
      assert field == RateField && 0.0 <= value ==> v == value;
      assert Max'(value, 0.0) == v;
      WithPrices(item, p, item.manualRateSet || field == RateField)
  }

  /** The price fields of `item`. */
  function PricesOf(item: PricedItem): Prices
  {
    Prices(item.rate, item.discountAmount, item.discountPercentage, item.baseRate, item.baseDiscountAmount)
  }

  /** `item` with the price fields `p` and the manual-rate flag `manual`. */
  function WithPrices(item: PricedItem, p: Prices, manual: bool): (r: PricedItem)
    ensures PricesOf(r) == p && r.manualRateSet == manual
    ensures r.(rate := item.rate, discountAmount := item.discountAmount, discountPercentage := item.discountPercentage,
               baseRate := item.baseRate, baseDiscountAmount := item.baseDiscountAmount, manualRateSet := item.manualRateSet) == item
  {
    item.(manualRateSet := manual, rate := p.rate, discountAmount := p.discountAmount,
          discountPercentage := p.discountPercentage, baseRate := p.baseRate, baseDiscountAmount := p.baseDiscountAmount)
  }

  /** The price fields an edit sets. */
  datatype Prices = Prices(rate: real, discountAmount: real, discountPercentage: real,
                           baseRate: real, baseDiscountAmount: real)

  /** The price fields after an edit of `field` to the non-negative `v`,
      against the stored list rate `plr` and its converted value `cplr`,
      starting from `was`. */
  function EditPrices(field: Field, v: real, plr: real, cplr: real, ex: ExchangeRate, was: Prices): (r: Prices)
    requires v >= 0.0
    ensures r.rate >= 0.0
    ensures field.OtherField? && was.rate >= 0.0 ==> r == was
    ensures !field.OtherField? ==> r.rate + r.discountAmount == cplr && r.baseRate + r.baseDiscountAmount == plr
    ensures field == DiscountAmountField && cplr >= 0.0 ==>
              r.discountAmount == Min'(v, cplr) && r.baseDiscountAmount * ex == r.discountAmount
    ensures field == DiscountPercentageField ==> r.discountPercentage <= 100.0
    ensures field == DiscountPercentageField && cplr >= 0.0 ==>
              r.discountPercentage == Min'(v, 100.0)
              && r.discountAmount * 100.0 == cplr * r.discountPercentage
              && r.baseDiscountAmount * 100.0 == plr * r.discountPercentage
    ensures field == RateField && v <= cplr ==> r.rate == v && r.baseRate * ex == v
  {
    var edited :=
      match field
      case RateField => RateEdit(v, plr, cplr, ex, was)
      case DiscountAmountField => AmountEdit(v, plr, cplr, ex)
      case DiscountPercentageField => PercentageEdit(v, plr, cplr)
      case OtherField(_) => was;
    Clamped(edited, plr, cplr)
  }

  /** The `rate` case: the entered rate, the rest of the list rate as
      discount. */
  function RateEdit(v: real, plr: real, cplr: real, ex: ExchangeRate, was: Prices): (r: Prices)
    ensures r.rate + r.discountAmount == cplr && r.baseRate + r.baseDiscountAmount == plr
    ensures r.rate == v && r.baseRate * ex == v
  {
    Prices(v, cplr - v, if cplr != 0.0 then (cplr - v) / cplr * 100.0 else was.discountPercentage,
           v / ex, plr - v / ex)
  }

  /** The `discount_amount` case: the entry capped at the list rate. */
  function AmountEdit(v: real, plr: real, cplr: real, ex: ExchangeRate): (r: Prices)
    ensures r.rate + r.discountAmount == cplr && r.baseRate + r.baseDiscountAmount == plr
    ensures r.discountAmount == Min'(v, cplr) && r.baseDiscountAmount * ex == r.discountAmount
    ensures r.rate >= 0.0
  {
    var d := Min'(v, cplr);
    Prices(cplr - d, d, if cplr != 0.0 then d / cplr * 100.0 else 0.0, plr - d / ex, d / ex)
  }

  /** The `discount_percentage` case: the entry capped at 100. */
  function PercentageEdit(v: real, plr: real, cplr: real): (r: Prices)
    ensures r.rate + r.discountAmount == cplr && r.baseRate + r.baseDiscountAmount == plr
    ensures r.discountPercentage == Min'(v, 100.0)
    ensures r.discountAmount * 100.0 == cplr * r.discountPercentage
    ensures r.baseDiscountAmount * 100.0 == plr * r.discountPercentage
    ensures v >= 0.0 && cplr >= 0.0 ==> r.rate >= 0.0
  {
    var p := Min'(v, 100.0);
    assert v >= 0.0 && cplr >= 0.0 ==> cplr * p <= cplr * 100.0;
    Prices(cplr - cplr * p / 100.0, cplr * p / 100.0, p, plr - plr * p / 100.0, plr * p / 100.0)
  }

  /** `if (item.rate < 0)`: the whole list rate becomes the discount. */
  function Clamped(edited: Prices, plr: real, cplr: real): (r: Prices)
    ensures r.rate >= 0.0
    ensures edited.rate >= 0.0 ==> r == edited
    ensures edited.rate < 0.0 ==> r.rate + r.discountAmount == cplr && r.baseRate + r.baseDiscountAmount == plr
                                  && r.discountPercentage == 100.0
  {
    if edited.rate < 0.0 then Prices(0.0, cplr, 100.0, 0.0, plr) else edited
  }

  function Min'(a: real, b: real): real
  {
    if a <= b then a else b
  }

  function Max'(a: real, b: real): real
  {
    if a >= b then a else b
  }

  /** A discount amount edit against a non-negative converted list rate
      takes the entry clamped to [0, list rate], and the base discount is
      that amount converted back. */
  lemma AmountEditCapped(item: PricedItem, value: real, c: CurrencyContext)
    requires Convert(item.priceListRate, c) >= 0.0
    ensures var r := CalcPrices(item, DiscountAmountField, value, c);
            r.discountAmount == Min'(Max'(value, 0.0), Convert(item.priceListRate, c))
            && r.baseDiscountAmount * c.exchangeRate == r.discountAmount
  {
    var cplr := Convert(item.priceListRate, c);
    var p := EditPrices(DiscountAmountField, Max'(value, 0.0), item.priceListRate, cplr, c.exchangeRate, PricesOf(item));
    assert CalcPrices(item, DiscountAmountField, value, c) == WithPrices(item, p, item.manualRateSet);
  }

  /** A percentage edit never leaves more than 100 percent; against a
      non-negative converted list rate it takes the entry clamped to
      [0, 100] and that share of the list rate in both currencies. */
  lemma PercentageEditCapped(item: PricedItem, value: real, c: CurrencyContext)
    ensures CalcPrices(item, DiscountPercentageField, value, c).discountPercentage <= 100.0
    ensures var r := CalcPrices(item, DiscountPercentageField, value, c);
            Convert(item.priceListRate, c) >= 0.0 ==>
              r.discountPercentage == Min'(Max'(value, 0.0), 100.0)
              && r.discountAmount * 100.0 == Convert(item.priceListRate, c) * r.discountPercentage
              && r.baseDiscountAmount * 100.0 == item.priceListRate * r.discountPercentage
  {
  }

  /** In one currency at a rate of 1 the base fields of an edit are the
      shown ones. */
  lemma SameCurrencyBaseAgrees(item: PricedItem, field: Field, value: real, c: CurrencyContext)
    requires !Converts(c) && c.exchangeRate == 1.0 && !field.OtherField?
    ensures var r := CalcPrices(item, field, value, c);
            r.baseRate == r.rate && r.baseDiscountAmount == r.discountAmount
  {
  }

  /**
   * The list rate is converted to the selected currency by dividing by the
   * exchange rate, and so is an entered rate on its way back to the base
   * currency. Entering exactly the converted list rate therefore leaves no
   * discount in the selected currency but a non-zero one in the base
   * currency, for any positive rate other than 1.
   */
  lemma ConvertedRateEditLeavesBaseDiscount(item: PricedItem, c: CurrencyContext)
    requires Converts(c) && item.priceListRate > 0.0 && c.exchangeRate > 0.0 && c.exchangeRate != 1.0
    ensures var r := CalcPrices(item, RateField, Convert(item.priceListRate, c), c);
            r.discountAmount == 0.0 && r.discountPercentage == 0.0 && r.baseDiscountAmount != 0.0
  {
    var plr := item.priceListRate;
    var ex := c.exchangeRate;
    var q := plr / ex;
    assert q * ex == plr;
    var b := q / ex;
    assert b * ex == q;
    var r := CalcPrices(item, RateField, q, c);
    assert q > 0.0;
    assert r.baseDiscountAmount == plr - b;
    DividedTwiceDiffers(plr, ex);
  }

  /** Scaling by a factor in (0, 1) shrinks a positive amount. */
  lemma MulBelow(z: real, ex: real)
    requires z > 0.0 && 0.0 < ex < 1.0
    ensures z * ex < z
  {
    assert z * (1.0 - ex) > 0.0;
  }

  /** Scaling by a factor above 1 grows a positive amount. */
  lemma MulAbove(z: real, ex: real)
    requires z > 0.0 && ex > 1.0
    ensures z * ex > z
  {
    assert z * (ex - 1.0) > 0.0;
  }

  /** Dividing by a positive rate other than 1 moves a positive amount,
      down for a rate above 1 and up for one below. */
  lemma DivMoves(y: real, ex: real)
    requires y > 0.0 && ex > 0.0 && ex != 1.0
    ensures y / ex > 0.0
    ensures ex > 1.0 ==> y / ex < y
    ensures ex < 1.0 ==> y / ex > y
  {
    var z := y / ex;
    assert z * ex == y;
    if ex > 1.0 {
      MulAbove(z, ex);
    } else {
      MulBelow(z, ex);
    }
  }

  /** Dividing a positive amount twice by a positive rate other than 1
      moves it. */
  lemma DividedTwiceDiffers(x: real, ex: real)
    requires x > 0.0 && ex > 0.0 && ex != 1.0
    ensures x / ex / ex != x
  {
    DivMoves(x, ex);
    DivMoves(x / ex, ex);
  }

  /** Entering as discount amount what a percentage edit produced gives
      back that percentage and that rate. */
  lemma PercentageAmountRoundTrip(item: PricedItem, p: real, c: CurrencyContext)
    requires Convert(item.priceListRate, c) > 0.0 && 0.0 <= p <= 100.0
    ensures var once := CalcPrices(item, DiscountPercentageField, p, c);
            var again := CalcPrices(once, DiscountAmountField, once.discountAmount, c);
            again.discountPercentage == once.discountPercentage == p && again.rate == once.rate
            && again.discountAmount == once.discountAmount
  {
    EditRoundTrip(item.priceListRate, Convert(item.priceListRate, c), c.exchangeRate, p,
                  Prices(item.rate, item.discountAmount, item.discountPercentage, item.baseRate, item.baseDiscountAmount));
  }

  /** The shown price fields of a percentage edit are a fixed point of the
      matching discount amount edit. */
  lemma EditRoundTrip(plr: real, cplr: real, ex: ExchangeRate, p: real, was: Prices)
    requires cplr > 0.0 && 0.0 <= p <= 100.0
    ensures var once := EditPrices(DiscountPercentageField, p, plr, cplr, ex, was);
            var again := EditPrices(DiscountAmountField, once.discountAmount, plr, cplr, ex, once);
            once.discountPercentage == p && again.rate == once.rate
            && again.discountAmount == once.discountAmount && again.discountPercentage == once.discountPercentage
  {
    var d := cplr * p / 100.0;
    assert 0.0 <= d <= cplr;
    assert d / cplr * 100.0 == p;
  }

  // ---------------------------------------------------------------------
  // Item price recomputation (useDiscounts.js:187-279)

  /** A line whose price comes from a lock or an offer. */
  predicate FixedPrice(item: PricedItem)
  {
    item.lockedPrice || item.offerApplied
  }

  /**
   * `calcItemPrice`: an item marked to skip one recalculation only has the
   * mark cleared; a locked-price or offer-priced item only gets its amounts
   * recomputed; otherwise the list rate and rate are the stored base
   * values (stored first when missing) converted to the selected currency,
   * a discount percentage is reapplied, and the amount is quantity times
   * rate. Every base figure set here is the converted shown one.
   */
  function CalcItemPrice(item: PricedItem, c: CurrencyContext): (r: PricedItem)
    ensures item.skipCalc ==> r == item.(skipCalc := false)
    ensures !item.skipCalc ==> r.amount == r.qty * r.rate && r.baseAmount == Convert(r.amount, c)
    ensures !item.skipCalc && FixedPrice(item) ==>
              r == item.(amount := item.qty * item.rate, baseAmount := Convert(item.qty * item.rate, c))
    ensures r.qty == item.qty && r.discountPercentage == item.discountPercentage && !r.skipCalc
  {
    if item.skipCalc then item.(skipCalc := false)
    else if FixedPrice(item) then WithAmount(item, c)
    else WithAmount(Reapplied(Rebased(item, c), c), c)
  }

  /** The list rate and rate from the stored base values, stored first
      when missing; an item without a list rate is left alone. */
  function Rebased(item: PricedItem, c: CurrencyContext): (r: PricedItem)
    ensures item.priceListRate == 0.0 ==> r == item
    ensures item.priceListRate != 0.0 ==>
              r.basePriceListRate == (if item.basePriceListRate == 0.0 then item.priceListRate else item.basePriceListRate)
              && r.baseRate == (if item.basePriceListRate == 0.0 then item.rate else item.baseRate)
              && r.priceListRate == Convert(r.basePriceListRate, c) && r.rate == Convert(r.baseRate, c)
              && r == item.(basePriceListRate := r.basePriceListRate, baseRate := r.baseRate,
                            priceListRate := r.priceListRate, rate := r.rate)
  {
    if item.priceListRate == 0.0 then item
    else
      var stored := if item.basePriceListRate == 0.0
                    then item.(basePriceListRate := item.priceListRate, baseRate := item.rate)
                    else item;
      stored.(priceListRate := Convert(stored.basePriceListRate, c), rate := Convert(stored.baseRate, c))
  }

  /** A non-zero discount percentage reapplied to the list rate. */
  function Reapplied(item: PricedItem, c: CurrencyContext): (r: PricedItem)
    ensures item.discountPercentage == 0.0 ==> r == item
    ensures item.discountPercentage != 0.0 ==>
              r.discountAmount == item.priceListRate * item.discountPercentage / 100.0
              && r.rate == item.priceListRate - r.discountAmount
              && r.baseDiscountAmount == Convert(r.discountAmount, c)
              && r == item.(discountAmount := r.discountAmount, rate := r.rate, baseDiscountAmount := r.baseDiscountAmount)
  {
    if item.discountPercentage == 0.0 then item
    else
      var d := item.priceListRate * item.discountPercentage / 100.0;
      item.(discountAmount := d, rate := item.priceListRate - d, baseDiscountAmount := Convert(d, c))
  }

  /** The amount, quantity times rate, in both currencies. */
  function WithAmount(item: PricedItem, c: CurrencyContext): (r: PricedItem)
    ensures r == item.(amount := item.qty * item.rate, baseAmount := Convert(item.qty * item.rate, c))
  {
    var amount := item.qty * item.rate;
    item.(amount := amount, baseAmount := Convert(amount, c))
  }

  /** With a list rate, the stored base list rate is kept (or first taken
      from the list rate) and the list rate shown is its conversion; without
      a discount percentage so is the rate. */
  lemma CalcItemPriceRebases(item: PricedItem, c: CurrencyContext)
    requires !item.skipCalc && !FixedPrice(item) && item.priceListRate != 0.0
    ensures var r := CalcItemPrice(item, c);
            && r.basePriceListRate == (if item.basePriceListRate == 0.0 then item.priceListRate else item.basePriceListRate)
            && r.baseRate == (if item.basePriceListRate == 0.0 then item.rate else item.baseRate)
            && r.priceListRate == Convert(r.basePriceListRate, c)
            && (item.discountPercentage == 0.0 ==> r.rate == Convert(r.baseRate, c))
  {
    var a := Rebased(item, c);
    assert CalcItemPrice(item, c) == WithAmount(Reapplied(a, c), c);
  }

  /** A non-zero discount percentage is reapplied to the recomputed list
      rate, in both currencies. */
  lemma CalcItemPriceReappliesDiscount(item: PricedItem, c: CurrencyContext)
    requires !item.skipCalc && !FixedPrice(item) && item.discountPercentage != 0.0
    ensures var r := CalcItemPrice(item, c);
            r.discountAmount == r.priceListRate * item.discountPercentage / 100.0
            && r.rate == r.priceListRate - r.discountAmount
            && r.baseDiscountAmount == Convert(r.discountAmount, c)
  {
    var a := Rebased(item, c);
    assert CalcItemPrice(item, c) == WithAmount(Reapplied(a, c), c);
  }

  /** With an exchange rate of 2 from a price list in another currency, a
      base list rate of 10 is shown as 5. */
  lemma ConvertedListRateExample(item: PricedItem, c: CurrencyContext)
    requires Converts(c) && c.exchangeRate == 2.0
    requires !item.skipCalc && !FixedPrice(item) && item.discountPercentage == 0.0
    requires item.priceListRate == 10.0 && item.basePriceListRate == 0.0 && item.rate == 10.0
    ensures var r := CalcItemPrice(item, c);
            r.priceListRate == 5.0 && r.rate == 5.0 && r.amount == item.qty * 5.0 && r.baseAmount * 2.0 == r.amount
  {
  }

  /** Recomputing twice changes nothing further. */
  lemma CalcItemPriceIdempotent(item: PricedItem, c: CurrencyContext)
    ensures !item.skipCalc ==> CalcItemPrice(CalcItemPrice(item, c), c) == CalcItemPrice(item, c)
  {
    if !item.skipCalc {
      if FixedPrice(item) {
        var w := WithAmount(item, c);
        assert CalcItemPrice(w, c) == WithAmount(w, c);
      } else {
        var b := Reapplied(Rebased(item, c), c);
        RecomputedIsSettled(item, c);
        SettledIsStable(b, c);
      }
    }
  }

  /** The list rate and rate agree with the stored base values, and the
      discount percentage is already applied. */
  ghost predicate Settled(b: PricedItem, c: CurrencyContext)
  {
    && (b.priceListRate != 0.0 ==>
          b.basePriceListRate != 0.0 && b.priceListRate == Convert(b.basePriceListRate, c)
          && (b.discountPercentage == 0.0 ==> b.rate == Convert(b.baseRate, c)))
    && Reapplied(b, c) == b
  }

  lemma RecomputedIsSettled(item: PricedItem, c: CurrencyContext)
    ensures Settled(Reapplied(Rebased(item, c), c), c)
  {
    var a := Rebased(item, c);
    var b := Reapplied(a, c);
    if item.priceListRate != 0.0 {
      ConvertInverse(a.basePriceListRate, c);
    }
  }

  lemma SettledIsStable(b: PricedItem, c: CurrencyContext)
    requires Settled(b, c) && !b.skipCalc && !FixedPrice(b)
    ensures CalcItemPrice(WithAmount(b, c), c) == WithAmount(b, c)
  {
    var w := WithAmount(b, c);
    SettledRebased(b, c);
    SettledReapplied(b, c);
    assert WithAmount(w, c) == w;
  }

  /** Rebasing a settled item only restates its rate when no percentage
      is applied, and only the rate otherwise. */
  lemma SettledRebased(b: PricedItem, c: CurrencyContext)
    requires Settled(b, c)
    ensures var w := WithAmount(b, c);
            Reapplied(Rebased(w, c), c) == Reapplied(w, c)
  {
    var w := WithAmount(b, c);
    if w.priceListRate != 0.0 {
      var a := Rebased(w, c);
      assert a == w.(rate := Convert(b.baseRate, c));
      if b.discountPercentage == 0.0 {
        assert a == w;
      }
    }
  }

  /** A settled item already carries its reapplied discount. */
  lemma SettledReapplied(b: PricedItem, c: CurrencyContext)
    requires Settled(b, c)
    ensures Reapplied(WithAmount(b, c), c) == WithAmount(b, c)
  {
  }

  /** A skipped recalculation is only deferred: the call after it computes
      what an unmarked item would have got. */
  lemma SkipDefersOnce(item: PricedItem, c: CurrencyContext)
    requires item.skipCalc
    ensures CalcItemPrice(CalcItemPrice(item, c), c) == CalcItemPrice(item.(skipCalc := false), c)
  {
  }
}
