/**
 * The consolidated-return clean-up of
 * posawesome/posawesome/overrides/pos_invoice_merge_log.py: after POS
 * return invoices are merged into one credit note, its write-off and
 * payment rows are given the invoice's sign and trimmed so that payments
 * plus write-off do not exceed the invoice total.
 *
 * Amounts are integers in the smallest unit of the currency precision
 * (one unit is 10^-p), every amount field shares that precision, and the
 * tolerance 10^-(p+1) is therefore a tenth of a unit.
 */
module MergeLog {
  import opened Common

  /** 10^-(p+1) expressed in units of 10^-p. */
  const Tolerance: real := 0.1

  /** `1 / 10**precision_paid`: one unit. */
  const MinUnit: int := 1

  predicate WithinTolerance(units: int)
  {
    Abs(units) as real <= Tolerance
  }

  /** On whole units, being within tolerance means being zero. */
  lemma WithinToleranceIffZero(units: int)
    ensures WithinTolerance(units) <==> units == 0
  {
  }

  /** `flt(x, p)` of a product or quotient, to the nearest unit. */
  function RoundUnits(x: real): int
  {
    (x + 0.5).Floor
  }

  datatype Payment = Payment(mode: string, amount: int, baseAmount: int, idx: int)

  datatype Invoice = Invoice(isReturn: bool, roundedTotal: int, grandTotal: int, conversionRate: real,
                             writeOff: int, baseWriteOff: int, payments: seq<Payment>,
                             paidAmount: int, basePaidAmount: int)

  function AmountSum(ps: seq<Payment>): int
  {
    if ps == [] then 0 else ps[0].amount + AmountSum(ps[1..])
  }

  function BaseSum(ps: seq<Payment>): int
  {
    if ps == [] then 0 else ps[0].baseAmount + BaseSum(ps[1..])
  }

  /** Σ |amount|. */
  function AbsSum(ps: seq<Payment>): nat
  {
    if ps == [] then 0 else Abs(ps[0].amount) + AbsSum(ps[1..])
  }

  lemma {:induction false} AbsSumUpdate(ps: seq<Payment>, i: int, p: Payment)
    requires 0 <= i < |ps|
    ensures AbsSum(ps[i := p]) == AbsSum(ps) - Abs(ps[i].amount) + Abs(p.amount)
    decreases |ps|
  {
    if i > 0 {
      assert ps[i := p][1..] == ps[1..][i - 1 := p];
      AbsSumUpdate(ps[1..], i - 1, p);
    } else {
      assert ps[i := p][1..] == ps[1..];
    }
  }

  /** When every amount carries the sign `sign`, the sum is that sign
      times the sum of magnitudes. */
  lemma {:induction false} SignedSum(ps: seq<Payment>, sign: int)
    requires sign == 1 || sign == -1
    requires forall k :: 0 <= k < |ps| ==> ps[k].amount == sign * Abs(ps[k].amount)
    ensures AmountSum(ps) == sign * AbsSum(ps)
    decreases |ps|
  {
    if ps != [] {
      SignedSum(ps[1..], sign);
    }
  }

  /** `set_paid_amount`: the paid amounts are the sums of the rows. */
  function SetPaidAmount(inv: Invoice): (r: Invoice)
    ensures r.paidAmount == AmountSum(inv.payments) && r.basePaidAmount == BaseSum(inv.payments)
    ensures r.(paidAmount := inv.paidAmount, basePaidAmount := inv.basePaidAmount) == inv
  {
    inv.(paidAmount := AmountSum(inv.payments), basePaidAmount := BaseSum(inv.payments))
  }

  /** `invoice.conversion_rate or 1`. */
  function RateOf(inv: Invoice): real
  {
    if inv.conversionRate == 0.0 then 1.0 else inv.conversionRate
  }

  /** `rounded_total or grand_total`. */
  function TotalOf(inv: Invoice): int
  {
    if inv.roundedTotal != 0 then inv.roundedTotal else inv.grandTotal
  }

  function SignOf(total: int): int
  {
    if total < 0 then -1 else 1
  }

  // ---------------------------------------------------------------------
  // Giving every row the invoice's sign (pos_invoice_merge_log.py:61-67)

  /** The magnitude of a row: its amount, or when that is zero its base
      amount converted back at the invoice rate. */
  function RowMagnitude(p: Payment, rate: real): int
    requires rate != 0.0
  {
    var a := Abs(p.amount);
    if a == 0 && p.baseAmount != 0 then Abs(RoundUnits(Abs(p.baseAmount) as real / rate)) else a
  }

  function SignRow(p: Payment, sign: int, rate: real): (q: Payment)
    requires sign == 1 || sign == -1
    requires rate != 0.0
    ensures q.amount == sign * Abs(q.amount) && q.mode == p.mode && q.idx == p.idx
    ensures p.amount != 0 ==> Abs(q.amount) == Abs(p.amount)
  {
    var a := RowMagnitude(p, rate);
    p.(amount := sign * a, baseAmount := sign * RoundUnits(a as real * rate))
  }

  function SignRows(ps: seq<Payment>, sign: int, rate: real): (r: seq<Payment>)
    requires sign == 1 || sign == -1
    requires rate != 0.0
    ensures |r| == |ps|
    ensures forall k :: 0 <= k < |r| ==> r[k] == SignRow(ps[k], sign, rate)
  {
    seq(|ps|, k requires 0 <= k < |ps| => SignRow(ps[k], sign, rate))
  }

  // ---------------------------------------------------------------------
  // Trimming the excess (pos_invoice_merge_log.py:110-144)

  /**
   * `_reduce_payment_difference`, called only when the excess is above
   * tolerance: walking the rows from the last, each non-zero row gives up
   * min(its magnitude, what is still to remove) until nothing is left to
   * remove. Rows keep their order and their position numbers.
   */
  method ReducePaymentDifference(payments: seq<Payment>, difference: int, sign: int, rate: real)
    returns (r: seq<Payment>)
    requires difference > 0
    requires sign == 1 || sign == -1
    ensures |r| == |payments|
    ensures forall k :: 0 <= k < |r| ==> r[k].idx == payments[k].idx && r[k].mode == payments[k].mode
    ensures forall k :: 0 <= k < |r| ==> Abs(r[k].amount) <= Abs(payments[k].amount)
    ensures forall k :: 0 <= k < |r| && r[k] != payments[k] ==> r[k].amount == sign * Abs(r[k].amount)
    ensures AbsSum(r) == AbsSum(payments) - Min(difference, AbsSum(payments))
    ensures forall k, m :: 0 <= k < m < |r| && r[k] != payments[k] ==> r[m].amount == 0
  {
    r := payments;
    var remaining := difference;
    var i := |payments|;
    var done := false;
    while i > 0 && !done
      invariant TrimShape(payments, r, i, sign)
      invariant !done ==> i < |r| ==> r[i].amount == 0
      invariant if done then remaining == 0 else 0 < remaining <= difference
      invariant AbsSum(r) == AbsSum(payments) - (difference - remaining)
    {
      i := i - 1;
      TrimShapeUntouched(payments, r, i, sign);
      var current := Abs(r[i].amount);
      WithinToleranceIffZero(current);
      if !WithinTolerance(current) {
        var newAfter := Deducted(current, remaining);
        var before := r;
        var q := Resized(r[i], sign, newAfter, rate);
        r := r[i := q];
        ResizeKeepsShape(payments, before, i, q, sign);
        AbsSumUpdate(before, i, q);
        remaining := remaining - (current - newAfter);
        done := remaining <= 0;
      }
    }
    if !done {
      AllZero(r);
    }
    SuffixShape(payments, r, i, sign);
  }

  /** The shape of the rows while trimming from the end: rows before `i`
      untouched, row `i` signed and no larger, rows after it zero, every
      row keeping its position and mode. */
  predicate TrimShape(payments: seq<Payment>, r: seq<Payment>, i: int, sign: int)
  {
    0 <= i <= |payments| && |r| == |payments|
    && r[..i] == payments[..i]
    && (forall k :: 0 <= k < |r| ==> r[k].idx == payments[k].idx && r[k].mode == payments[k].mode)
    && (forall k :: i < k < |r| ==> r[k].amount == 0)
    && (i < |r| ==> r[i].amount == sign * Abs(r[i].amount) && Abs(r[i].amount) <= Abs(payments[i].amount))
  }

  /** Stepping back to row `i` over a zero row: row `i` is still the
      original, and the shape holds at `i` when that row is zero. */
  lemma TrimShapeUntouched(payments: seq<Payment>, r: seq<Payment>, i: int, sign: int)
    requires 0 <= i && TrimShape(payments, r, i + 1, sign)
    requires i + 1 < |r| ==> r[i + 1].amount == 0
    ensures r[i] == payments[i]
    ensures forall k :: i < k < |r| ==> r[k].amount == 0
    ensures r[i].amount == 0 ==> TrimShape(payments, r, i, sign)
  {
    assert r[..i + 1][i] == payments[..i + 1][i];
    assert r[..i] == r[..i + 1][..i];
    assert payments[..i] == payments[..i + 1][..i];
  }

  /** Resizing row `i` to a signed, no larger amount keeps the shape. */
  lemma ResizeKeepsShape(payments: seq<Payment>, r: seq<Payment>, i: int, q: Payment, sign: int)
    requires 0 <= i < |payments| == |r| && r[i] == payments[i]
    requires r[..i] == payments[..i]
    requires forall k :: 0 <= k < |r| ==> r[k].idx == payments[k].idx && r[k].mode == payments[k].mode
    requires forall k :: i < k < |r| ==> r[k].amount == 0
    requires q.idx == r[i].idx && q.mode == r[i].mode
    requires q.amount == sign * Abs(q.amount) && Abs(q.amount) <= Abs(payments[i].amount)
    ensures TrimShape(payments, r[i := q], i, sign)
  {
    var r2 := r[i := q];
    assert r2[..i] == r[..i];
    forall k | 0 <= k < |r2| ensures r2[k].idx == payments[k].idx && r2[k].mode == payments[k].mode {
      if k != i { assert r2[k] == r[k]; }
    }
  }

  /** Rows before `i` untouched, row `i` signed, rows after it zero. */
  lemma SuffixShape(payments: seq<Payment>, r: seq<Payment>, i: int, sign: int)
    requires TrimShape(payments, r, i, sign)
    ensures forall k :: 0 <= k < |r| ==> Abs(r[k].amount) <= Abs(payments[k].amount)
    ensures forall k :: 0 <= k < |r| && r[k] != payments[k] ==> r[k].amount == sign * Abs(r[k].amount)
    ensures forall k, m :: 0 <= k < m < |r| && r[k] != payments[k] ==> r[m].amount == 0
  {
    forall k | 0 <= k < i ensures r[k] == payments[k] {
      assert r[..i][k] == payments[..i][k];
    }
  }

  lemma {:induction false} AllZero(ps: seq<Payment>)
    requires forall k :: 0 <= k < |ps| ==> ps[k].amount == 0
    ensures AbsSum(ps) == 0
    decreases |ps|
  {
    if ps != [] {
      AllZero(ps[1..]);
    }
  }

  /**
   * What is left of a row of magnitude `current` after deducting up to
   * `remaining` from it; a deduction that would leave the row (almost)
   * whole removes one unit instead.
   */
  function Deducted(current: int, remaining: int): (r: int)
    ensures current > 0 && remaining > 0 ==> r == current - Min(current, remaining)
  {
    var newAbs := current - Min(current, remaining);
    if newAbs as real >= current as real - Tolerance && MinUnit != 0 && current > MinUnit then current - MinUnit
    else newAbs
  }

  /** A row given the magnitude `magnitude` with the invoice's sign. */
  function Resized(p: Payment, sign: int, magnitude: int, rate: real): (q: Payment)
    requires sign == 1 || sign == -1
    ensures magnitude >= 0 ==> Abs(q.amount) == magnitude && q.amount == sign * magnitude
    ensures q.idx == p.idx && q.mode == p.mode
  {
    p.(amount := sign * magnitude, baseAmount := sign * RoundUnits(magnitude as real * rate))
  }

  // ---------------------------------------------------------------------
  // Dropping zero rows (pos_invoice_merge_log.py:146-165)

  /** `r` lists rows of `ps` (numbered from `start`) that are non-zero,
      each under its own position, in their original order. */
  predicate KeptRows(r: seq<Payment>, ps: seq<Payment>, start: int)
  {
    (forall j :: 0 <= j < |r| ==> r[j].amount != 0 && start <= r[j].idx < start + |ps|)
    && (forall j :: 0 <= j < |r| ==> r[j].amount == ps[r[j].idx - start].amount && r[j].mode == ps[r[j].idx - start].mode)
    && (forall j, l :: 0 <= j < l < |r| ==> r[j].idx < r[l].idx)
  }

  /**
   * `_cleanup_zero_amount_payments` of the rows numbered from `start`:
   * rows within tolerance of zero are dropped; each survivor keeps its
   * original 1-based position as `idx` (no renumbering) and its base
   * amount is recomputed from its amount.
   */
  function CleanupFrom(ps: seq<Payment>, start: int, rate: real): (r: seq<Payment>)
    ensures |r| <= |ps|
    ensures AbsSum(r) == AbsSum(ps)
    decreases |ps|
  {
    if ps == [] then []
    else
      var rest := CleanupFrom(ps[1..], start + 1, rate);
      WithinToleranceIffZero(ps[0].amount);
      if WithinTolerance(ps[0].amount) then rest
      else
        var kept := ps[0].(idx := start, baseAmount := RoundUnits(ps[0].amount as real * rate));
        assert ([kept] + rest)[1..] == rest;
        [kept] + rest
  }

  /** The clean-up lists non-zero rows of `ps`, each under its own
      position, in order. */
  lemma {:induction false} CleanupKept(ps: seq<Payment>, start: int, rate: real)
    ensures KeptRows(CleanupFrom(ps, start, rate), ps, start)
    decreases |ps|
  {
    if ps != [] {
      CleanupKept(ps[1..], start + 1, rate);
      WithinToleranceIffZero(ps[0].amount);
      var rest := CleanupFrom(ps[1..], start + 1, rate);
      if WithinTolerance(ps[0].amount) {
        KeptRowsSkip(rest, ps, start);
      } else {
        var kept := ps[0].(idx := start, baseAmount := RoundUnits(ps[0].amount as real * rate));
        KeptRowsCons(kept, rest, ps, start);
      }
    }
  }

  lemma KeptRowsSkip(rest: seq<Payment>, ps: seq<Payment>, start: int)
    requires ps != [] && KeptRows(rest, ps[1..], start + 1)
    ensures KeptRows(rest, ps, start)
  {
    forall j | 0 <= j < |rest|
      ensures rest[j].amount == ps[rest[j].idx - start].amount && rest[j].mode == ps[rest[j].idx - start].mode
    {
      assert ps[1..][rest[j].idx - (start + 1)] == ps[rest[j].idx - start];
    }
  }

  lemma KeptRowsCons(kept: Payment, rest: seq<Payment>, ps: seq<Payment>, start: int)
    requires ps != [] && KeptRows(rest, ps[1..], start + 1)
    requires kept.idx == start && kept.amount == ps[0].amount && kept.mode == ps[0].mode && kept.amount != 0
    ensures KeptRows([kept] + rest, ps, start)
  {
    KeptRowsSkip(rest, ps, start);
    var r := [kept] + rest;
    forall j | 0 <= j < |r| ensures r[j].amount != 0 && start <= r[j].idx < start + |ps| {
      if j > 0 { assert r[j] == rest[j - 1]; }
    }
    forall j | 0 <= j < |r| ensures r[j].amount == ps[r[j].idx - start].amount && r[j].mode == ps[r[j].idx - start].mode {
      if j > 0 { assert r[j] == rest[j - 1]; }
    }
    forall j, l | 0 <= j < l < |r| ensures r[j].idx < r[l].idx {
      assert r[l] == rest[l - 1];
      if j > 0 { assert r[j] == rest[j - 1]; }
    }
  }

  /** Every non-zero row survives the clean-up, under its own position. */
  lemma {:induction false} CleanupKeepsNonZero(ps: seq<Payment>, start: int, rate: real, k: int)
    requires 0 <= k < |ps| && ps[k].amount != 0
    ensures exists j :: 0 <= j < |CleanupFrom(ps, start, rate)| && CleanupFrom(ps, start, rate)[j].idx == start + k
    decreases |ps|
  {
    WithinToleranceIffZero(ps[0].amount);
    var rest := CleanupFrom(ps[1..], start + 1, rate);
    if k == 0 {
      assert CleanupFrom(ps, start, rate)[0].idx == start;
    } else {
      assert ps[1..][k - 1] == ps[k];
      CleanupKeepsNonZero(ps[1..], start + 1, rate, k - 1);
      var j :| 0 <= j < |rest| && rest[j].idx == start + 1 + (k - 1);
      if !WithinTolerance(ps[0].amount) {
        assert CleanupFrom(ps, start, rate)[j + 1] == rest[j];
      }
    }
  }

  function CleanupZeroAmountPayments(ps: seq<Payment>, rate: real): (r: seq<Payment>)
    ensures AbsSum(r) == AbsSum(ps)
    ensures forall j :: 0 <= j < |r| ==> r[j].amount != 0
    ensures forall j :: 0 <= j < |r| ==> 1 <= r[j].idx <= |ps| && r[j].amount == ps[r[j].idx - 1].amount
    ensures forall j, l :: 0 <= j < l < |r| ==> r[j].idx < r[l].idx
  {
    CleanupKept(ps, 1, rate);
    CleanupFrom(ps, 1, rate)
  }

  /** The clean-up keeps exactly the non-zero rows: each one appears
      under its original 1-based position. */
  lemma CleanupKeepsExactlyNonZero(ps: seq<Payment>, rate: real, k: int)
    requires 0 <= k < |ps|
    ensures ps[k].amount != 0 <==> exists j :: 0 <= j < |CleanupZeroAmountPayments(ps, rate)| &&
                                                 CleanupZeroAmountPayments(ps, rate)[j].idx == k + 1
  {
    var r := CleanupZeroAmountPayments(ps, rate);
    if ps[k].amount != 0 {
      CleanupKeepsNonZero(ps, 1, rate, k);
    } else {
      CleanupKept(ps, 1, rate);
      forall j | 0 <= j < |r| ensures r[j].idx != k + 1 {
        assert r[j].amount == ps[r[j].idx - 1].amount;
      }
    }
  }

  /** Dropping zero rows keeps the sign every row carries. */
  lemma CleanupKeepsSign(ps: seq<Payment>, rate: real, sign: int)
    requires forall k :: 0 <= k < |ps| ==> ps[k].amount == sign * Abs(ps[k].amount)
    ensures forall j :: 0 <= j < |CleanupZeroAmountPayments(ps, rate)| ==>
              CleanupZeroAmountPayments(ps, rate)[j].amount == sign * Abs(CleanupZeroAmountPayments(ps, rate)[j].amount)
  {
  }

  // ---------------------------------------------------------------------
  // The whole normalisation (pos_invoice_merge_log.py:14-108)

  /** |paid| + |write-off| − |total|: how far payments overshoot. */
  function Excess(inv: Invoice, totalAbs: int): int
  {
    Abs(inv.paidAmount) + Abs(inv.writeOff) - totalAbs
  }

  /**
   * The final correction on the last row when an excess above tolerance
   * is still left: that row gives up min(its magnitude, the excess), the
   * zero rows are dropped again and the paid amounts recomputed.
   */
  function AdjustLastPayment(inv: Invoice, sign: int, totalAbs: int): (r: Invoice)
    requires sign == 1 || sign == -1
    ensures Excess(inv, totalAbs) as real <= Tolerance || inv.payments == [] ==> r == inv
    ensures Excess(inv, totalAbs) as real > Tolerance && inv.payments != [] ==>
              var last := inv.payments[|inv.payments| - 1];
              last.amount != 0 ==>
                AbsSum(r.payments) == AbsSum(inv.payments) - Min(Abs(last.amount), Excess(inv, totalAbs))
  {
    var diff := Excess(inv, totalAbs);
    if diff as real > Tolerance && inv.payments != [] then
      var n := |inv.payments| - 1;
      var last := inv.payments[n];
      var current := Abs(last.amount);
      var updated := Resized(last, sign, Deducted(current, diff), RateOf(inv));
      AbsSumUpdate(inv.payments, n, updated);
      SetPaidAmount(inv.(payments := CleanupZeroAmountPayments(inv.payments[n := updated], RateOf(inv))))
    else inv
  }

  /** The write-off: its magnitude clamped to the total's, with the
      total's sign. */
  function ClampWriteOff(inv: Invoice, total: int): (r: Invoice)
    requires total != 0
    ensures Abs(r.writeOff) == Min(Abs(inv.writeOff), Abs(total))
    ensures r.writeOff == SignOf(total) * Abs(r.writeOff)
    ensures r == inv.(writeOff := r.writeOff, baseWriteOff := r.baseWriteOff)
  {
    var sign := SignOf(total);
    var writeOffAbs := Min(Abs(inv.writeOff), Abs(total));
    inv.(writeOff := sign * writeOffAbs, baseWriteOff := sign * RoundUnits(writeOffAbs as real * RateOf(inv)))
  }

  /**
   * `_normalize_return_payments`. A zero total clears the payments and the
   * write-off. Otherwise the write-off is clamped and signed, every row is
   * signed, the excess over the total is trimmed from the last rows, zero
   * rows are dropped: afterwards payments plus write-off never exceed the
   * total, and fall short of it only when the signed rows already did.
   */
  method NormalizeReturnPayments(inv: Invoice) returns (r: Invoice)
    ensures TotalOf(inv) == 0 ==> r.payments == [] && r.writeOff == 0 && r.baseWriteOff == 0
    ensures TotalOf(inv) != 0 ==> Abs(r.writeOff) == Min(Abs(inv.writeOff), Abs(TotalOf(inv)))
                                  && r.writeOff == SignOf(TotalOf(inv)) * Abs(r.writeOff)
    ensures TotalOf(inv) != 0 ==>
              AbsSum(r.payments) == Min(AbsSum(SignRows(inv.payments, SignOf(TotalOf(inv)), RateOf(inv))),
                                        Abs(TotalOf(inv)) - Abs(r.writeOff))
    ensures forall j :: 0 <= j < |r.payments| ==> r.payments[j].amount == SignOf(TotalOf(inv)) * Abs(r.payments[j].amount)
    ensures Abs(r.paidAmount) + Abs(r.writeOff) <= Abs(TotalOf(inv))
    ensures r.paidAmount == AmountSum(r.payments) && r.basePaidAmount == BaseSum(r.payments)
  {
    var total := TotalOf(inv);
    var rate := RateOf(inv);
    if total == 0 {
      r := SetPaidAmount(inv.(writeOff := 0, baseWriteOff := 0, payments := []));
      return;
    }
    var sign := SignOf(total);
    var totalAbs := Abs(total);
    r := ClampWriteOff(inv, total);
    if r.payments == [] {
      r := SetPaidAmount(r);
      return;
    }
    var signed := SignRows(r.payments, sign, rate);
    SignedSum(signed, sign);
    AbsOfSigned(sign, AbsSum(signed));
    r := SetPaidAmount(r.(payments := signed));
    var difference := Excess(r, totalAbs);
    var cleaned := SettlePayments(signed, difference, sign, rate);
    SignedSum(cleaned, sign);
    AbsOfSigned(sign, AbsSum(cleaned));
    var trimmed := SetPaidAmount(r.(payments := cleaned));
    NoAdjustWithinTotal(trimmed, sign, totalAbs);
    r := AdjustLastPayment(trimmed, sign, totalAbs);
  }

  /** A magnitude with a unit sign has that magnitude back. */
  lemma AbsOfSigned(sign: int, x: int)
    requires (sign == 1 || sign == -1) && x >= 0
    ensures Abs(sign * x) == x
  {
  }

  /** Payments that do not exceed the total need no last-row correction. */
  lemma NoAdjustWithinTotal(inv: Invoice, sign: int, totalAbs: int)
    requires sign == 1 || sign == -1
    requires Excess(inv, totalAbs) <= 0
    ensures AdjustLastPayment(inv, sign, totalAbs) == inv
  {
  }

  /**
   * The middle of `_normalize_return_payments`: signed rows whose
   * magnitudes overshoot by `difference` are trimmed by that much (when it
   * is above tolerance) and the zero rows dropped; the rows keep their
   * sign.
   */
  method SettlePayments(signed: seq<Payment>, difference: int, sign: int, rate: real) returns (cleaned: seq<Payment>)
    requires sign == 1 || sign == -1
    requires difference <= AbsSum(signed)
    requires forall k :: 0 <= k < |signed| ==> signed[k].amount == sign * Abs(signed[k].amount)
    ensures AbsSum(cleaned) == Min(AbsSum(signed), AbsSum(signed) - difference)
    ensures forall j :: 0 <= j < |cleaned| ==> cleaned[j].amount == sign * Abs(cleaned[j].amount)
    ensures forall j :: 0 <= j < |cleaned| ==> cleaned[j].amount != 0
  {
    var ps := signed;
    if difference as real > Tolerance {
      ps := ReducePaymentDifference(signed, difference, sign, rate);
    }
    CleanupKeepsSign(ps, rate, sign);
    cleaned := CleanupZeroAmountPayments(ps, rate);
  }

  /** `merge_pos_invoice_into`: only return invoices are normalised. */
  method MergePosInvoiceInto(inv: Invoice) returns (r: Invoice)
    ensures !inv.isReturn ==> r == inv
    ensures inv.isReturn ==> Abs(r.paidAmount) + Abs(r.writeOff) <= Abs(TotalOf(inv))
  {
    r := inv;
    if inv.isReturn {
      r := NormalizeReturnPayments(inv);
    }
  }
}
