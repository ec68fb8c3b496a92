/**
 * Document hooks of posawesome/posawesome/api/invoice.py run when a POS
 * sales invoice is validated or submitted: which coupons have their
 * usage counted, how the delivery charge is chosen, how tax rows are
 * marked as included in the print rate, and the opening shift check.
 * Documents the hooks look up (the profile, the shift, the applicable
 * delivery charges) are parameters; the recalculation of taxes and
 * totals is reported as a flag.
 */
module Invoice {
  import opened Common

  // ---------------------------------------------------------------------
  // update_coupon (invoice.py:171-175)

  datatype Coupon = Coupon(code: string, applied: bool)

  /** `update_coupon`: the coupons whose usage count is updated, in
      order: exactly the applied ones. */
  function CountedCoupons(coupons: seq<Coupon>): (r: seq<string>)
    ensures |r| <= |coupons|
    ensures forall c :: c in r <==> Coupon(c, true) in coupons
  {
    if coupons == [] then []
    else
      var rest := CountedCoupons(coupons[1..]);
      assert coupons == [coupons[0]] + coupons[1..];
      if coupons[0].applied then [coupons[0].code] + rest else rest
  }

  function AppliedCount(coupons: seq<Coupon>): nat
  {
    if coupons == [] then 0 else (if coupons[0].applied then 1 else 0) + AppliedCount(coupons[1..])
  }

  /** One update per applied coupon, none for the others. */
  lemma {:induction false} CountedCouponsOnePerApplied(coupons: seq<Coupon>)
    ensures |CountedCoupons(coupons)| == AppliedCount(coupons)
  {
    if coupons != [] {
      CountedCouponsOnePerApplied(coupons[1..]);
    }
  }

  // ---------------------------------------------------------------------
  // auto_set_delivery_charges (invoice.py:187-214)

  /** A delivery charge that applies to the invoice. */
  datatype Charge = Charge(name: string, rate: real)

  /** The invoice's delivery charge (empty when none) and its rate
      (`None` when null). */
  datatype DeliveryFields = DeliveryFields(charges: string, rate: Option<real>)

  /** A rate that is set and not zero. */
  predicate HasRate(f: DeliveryFields)
  {
    f.rate.Some? && f.rate.value != 0.0
  }

  /**
   * `auto_set_delivery_charges`, for a profile that sets delivery
   * charges automatically: a charge with a rate is kept; a charge without
   * one takes the first applicable rate; with no charge the first
   * applicable charge is chosen, or both fields are cleared.
   */
  function AutoSetDeliveryCharges(f: DeliveryFields, hasProfile: bool, profileAutoSets: bool, applicable: seq<Charge>): (r: DeliveryFields)
    ensures !hasProfile || !profileAutoSets ==> r == f
    ensures f.charges != [] && HasRate(f) ==> r == f
    ensures hasProfile && profileAutoSets && f.charges != [] && !HasRate(f) ==>
              r == (if applicable != [] then f.(rate := Some(applicable[0].rate)) else f)
    ensures hasProfile && profileAutoSets && f.charges == [] ==>
              r == (if applicable != [] then DeliveryFields(applicable[0].name, Some(applicable[0].rate)) else DeliveryFields([], None))
    ensures r.charges == f.charges || (f.charges == [] && hasProfile && profileAutoSets)
  {
    if !hasProfile || !profileAutoSets then f
    else if f.charges != [] then
      if HasRate(f) then f
      else if applicable != [] then f.(rate := Some(applicable[0].rate))
      else f
    else if applicable != [] then DeliveryFields(applicable[0].name, Some(applicable[0].rate))
    else DeliveryFields([], None)
  }

  /** A second run with the same applicable charges changes nothing, as
      long as the charge names are not empty. */
  lemma AutoSetDeliveryChargesIdempotent(f: DeliveryFields, hasProfile: bool, profileAutoSets: bool, applicable: seq<Charge>)
    requires applicable != [] ==> applicable[0].name != []
    ensures var once := AutoSetDeliveryCharges(f, hasProfile, profileAutoSets, applicable);
            AutoSetDeliveryCharges(once, hasProfile, profileAutoSets, applicable) == once
  {
  }

  // ---------------------------------------------------------------------
  // apply_tax_inclusive (invoice.py:285-299)

  datatype Tax = Tax(chargeType: string, includedInPrintRate: bool)

  /** The tax rows after the hook and whether the totals were
      recalculated. */
  datatype TaxResult = TaxResult(taxes: seq<Tax>, recalculated: bool)

  predicate IsActual(t: Tax)
  {
    t.chargeType == "Actual"
  }

  /** The hook as written: because of the unconditional `continue`, only
      "Actual" rows are touched, and they are made not included. */
  function ApplyTaxRowAsWritten(t: Tax, taxInclusive: bool): Tax
  {
    if IsActual(t) then t.(includedInPrintRate := false) else t
  }

  /** The hook as evidently intended: "Actual" rows are never included;
      every other row follows the profile's setting. */
  function ApplyTaxRow(t: Tax, taxInclusive: bool): Tax
  {
    if IsActual(t) then t.(includedInPrintRate := false) else t.(includedInPrintRate := taxInclusive)
  }

  function ApplyRows(taxes: seq<Tax>, taxInclusive: bool, intended: bool): (r: seq<Tax>)
    ensures |r| == |taxes|
    ensures forall i :: 0 <= i < |taxes| ==>
              r[i] == if intended then ApplyTaxRow(taxes[i], taxInclusive) else ApplyTaxRowAsWritten(taxes[i], taxInclusive)
  {
    seq(|taxes|, i requires 0 <= i < |taxes| =>
      if intended then ApplyTaxRow(taxes[i], taxInclusive) else ApplyTaxRowAsWritten(taxes[i], taxInclusive))
  }

  /** `apply_tax_inclusive` as written: without a profile nothing
      happens; otherwise the totals are recalculated iff a row changed. */
  function ApplyTaxInclusive(hasProfile: bool, taxInclusive: bool, taxes: seq<Tax>): (r: TaxResult)
    ensures !hasProfile ==> r == TaxResult(taxes, false)
    ensures hasProfile ==> |r.taxes| == |taxes|
                           && forall i :: 0 <= i < |taxes| ==> r.taxes[i].chargeType == taxes[i].chargeType
    ensures hasProfile ==> forall i :: 0 <= i < |taxes| ==>
              r.taxes[i].includedInPrintRate == (taxes[i].includedInPrintRate && !IsActual(taxes[i]))
    ensures r.recalculated <==> r.taxes != taxes
  {
    if !hasProfile then TaxResult(taxes, false)
    else
      var rows := ApplyRows(taxes, taxInclusive, false);
      TaxResult(rows, rows != taxes)
  }

  /** As written, the profile's setting makes no difference: a row that
      is not "Actual" and not included stays not included even when the
      profile asks for inclusive taxes. */
  lemma InclusiveSettingIgnored(taxes: seq<Tax>)
    ensures ApplyTaxInclusive(true, true, taxes) == ApplyTaxInclusive(true, false, taxes)
    ensures ApplyTaxInclusive(true, true, [Tax("On Net Total", false)]).taxes == [Tax("On Net Total", false)]
  {
  }

  /** `apply_tax_inclusive` as evidently intended. */
  function ApplyTaxInclusiveIntended(hasProfile: bool, taxInclusive: bool, taxes: seq<Tax>): (r: TaxResult)
    ensures !hasProfile ==> r == TaxResult(taxes, false)
    ensures hasProfile ==> |r.taxes| == |taxes|
                           && forall i :: 0 <= i < |taxes| ==> r.taxes[i].chargeType == taxes[i].chargeType
    ensures hasProfile ==> forall i :: 0 <= i < |taxes| ==>
              r.taxes[i].includedInPrintRate == (taxInclusive && !IsActual(taxes[i]))
    ensures r.recalculated <==> r.taxes != taxes
  {
    if !hasProfile then TaxResult(taxes, false)
    else
      var rows := ApplyRows(taxes, taxInclusive, true);
      TaxResult(rows, rows != taxes)
  }

  /** Running either version twice recalculates nothing the second time. */
  lemma ApplyTaxInclusiveSettles(hasProfile: bool, taxInclusive: bool, taxes: seq<Tax>)
    ensures var once := ApplyTaxInclusive(hasProfile, taxInclusive, taxes).taxes;
            !ApplyTaxInclusive(hasProfile, taxInclusive, once).recalculated
    ensures var once := ApplyTaxInclusiveIntended(hasProfile, taxInclusive, taxes).taxes;
            !ApplyTaxInclusiveIntended(hasProfile, taxInclusive, once).recalculated
  {
    var a := ApplyTaxInclusive(hasProfile, taxInclusive, taxes).taxes;
    var b := ApplyTaxInclusiveIntended(hasProfile, taxInclusive, taxes).taxes;
    if hasProfile {
      assert ApplyRows(a, taxInclusive, false) == a;
      assert ApplyRows(b, taxInclusive, true) == b;
    }
  }

  // ---------------------------------------------------------------------
  // validate_shift (invoice.py:302-313)

  datatype Shift = Shift(name: string, status: string, posProfile: string, company: string)

  datatype ShiftCheck = ShiftOk | ShiftNotOpen(shift: string) | OtherProfile(shift: string) | OtherCompany(shift: string)

  /**
   * `validate_shift`: an invoice with an opening shift, a profile and
   * the POS flag must name an open shift of the same profile and
   * company; the first failing check is reported.
   */
  function ValidateShift(openingShift: string, posProfile: string, isPos: bool, company: string, shift: Shift): (r: ShiftCheck)
    ensures openingShift == [] || posProfile == [] || !isPos ==> r == ShiftOk
    ensures r == ShiftOk <==>
              (openingShift == [] || posProfile == [] || !isPos
               || (shift.status == "Open" && shift.posProfile == posProfile && shift.company == company))
    ensures r.ShiftNotOpen? ==> shift.status != "Open" && r.shift == shift.name
    ensures r.OtherProfile? ==> shift.status == "Open" && shift.posProfile != posProfile && r.shift == shift.name
    ensures r.OtherCompany? ==> shift.status == "Open" && shift.posProfile == posProfile && shift.company != company
                                && r.shift == shift.name
  {
    if openingShift != [] && posProfile != [] && isPos then
      if shift.status != "Open" then ShiftNotOpen(shift.name)
      else if shift.posProfile != posProfile then OtherProfile(shift.name)
      else if shift.company != company then OtherCompany(shift.name)
      else ShiftOk
    else ShiftOk
  }
}
