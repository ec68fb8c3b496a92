/**
 * Offer eligibility and offer bookkeeping on the cart
 * (frontend/src/posapp/components/pos/invoiceOfferMethods.js): the
 * quantity/amount bounds test, the coupon test, which offers a cart change
 * can affect, the per-row list of applied offers, removal of a
 * transaction-level discount, and the date normalisation sent to the back
 * end.
 */
module OfferMethods {
  import opened Common
  import Format

  // ---------------------------------------------------------------------
  // Brand (invoiceOfferMethods.js:66-68)

  /** `normalizeBrand`: missing is "", otherwise trimmed and lower-cased. */
  function NormalizeBrand(brand: Option<string>): (r: string)
    ensures |r| <= |brand.GetOr([])|
    ensures |r| > 0 ==> !IsSpace(r[0]) && !IsSpace(r[|r| - 1])
    ensures forall i :: 0 <= i < |r| ==> !('A' <= r[i] <= 'Z')
  {
    var t := Trim(brand.GetOr([]));
    LowerTrimmed(t);
    Lower(t)
  }

  lemma LowerTrimmed(t: string)
    requires |t| > 0 ==> !IsSpace(t[0]) && !IsSpace(t[|t| - 1])
    ensures |Lower(t)| > 0 ==> !IsSpace(Lower(t)[0]) && !IsSpace(Lower(t)[|t| - 1])
    ensures forall i :: 0 <= i < |t| ==> !('A' <= Lower(t)[i] <= 'Z')
  {
    LowerKeepsSpace(t);
    forall i | 0 <= i < |t| ensures !('A' <= Lower(t)[i] <= 'Z') {
      assert Lower(t)[i] == LowerChar(t[i]);
    }
  }

  lemma NormalizeBrandIdempotent(brand: Option<string>)
    ensures NormalizeBrand(Some(NormalizeBrand(brand))) == NormalizeBrand(brand)
  {
    var r := NormalizeBrand(brand);
    TrimOfTrimmed(r);
    LowerIdempotent(Trim(brand.GetOr([])));
  }

  // ---------------------------------------------------------------------
  // Quantity and amount bounds (invoiceOfferMethods.js:390-433)

  /** `min_qty` is None when unset; the other bounds are 0 when unset. */
  datatype Bounds = Bounds(minQty: Option<real>, maxQty: real, minAmt: real, maxAmt: real)

  datatype BoundsCheck = BoundsCheck(apply: bool, minQtyOk: bool, maxQtyOk: bool, minAmtOk: bool, maxAmtOk: bool)

  function CheckQtyAmountOffer(b: Bounds, qty: real, amount: real): (r: BoundsCheck)
    ensures r.minQtyOk <==> b.minQty.Some? && qty >= b.minQty.value
    ensures r.maxQtyOk <==> b.maxQty > 0.0 && qty <= b.maxQty
    ensures r.minAmtOk <==> b.minAmt > 0.0 && amount >= b.minAmt
    ensures r.maxAmtOk <==> b.maxAmt > 0.0 && amount <= b.maxAmt
  {
    var minQtyOk := b.minQty.Some? && qty >= b.minQty.value;
    var maxQtyOk := b.maxQty > 0.0 && qty <= b.maxQty;
    var minAmtOk := b.minAmt > 0.0 && amount >= b.minAmt;
    var maxAmtOk := b.maxAmt > 0.0 && amount <= b.maxAmt;
    var applys := (if b.minQty.Some? then [minQtyOk] else [])
                + (if b.maxQty > 0.0 then [maxQtyOk] else [])
                + (if b.minAmt > 0.0 then [minAmtOk] else [])
                + (if b.maxAmt > 0.0 then [maxAmtOk] else []);
    BoundsCheck(false !in applys, minQtyOk, maxQtyOk, minAmtOk, maxAmtOk)
  }

  /** The offer applies exactly when every bound that is set holds; with no
      bound set it always applies. */
  lemma QtyAmountOfferAppliesIffBoundsHold(b: Bounds, qty: real, amount: real)
    ensures CheckQtyAmountOffer(b, qty, amount).apply <==>
              (b.minQty.Some? ==> qty >= b.minQty.value)
              && (b.maxQty > 0.0 ==> qty <= b.maxQty)
              && (b.minAmt > 0.0 ==> amount >= b.minAmt)
              && (b.maxAmt > 0.0 ==> amount <= b.maxAmt)
    ensures b.minQty.None? && b.maxQty <= 0.0 && b.minAmt <= 0.0 && b.maxAmt <= 0.0 ==>
              CheckQtyAmountOffer(b, qty, amount).apply
  {
  }

  // ---------------------------------------------------------------------
  // Coupons (invoiceOfferMethods.js:435-448)

  datatype Coupon = Coupon(code: string, posOffer: string)

  /** The first coupon issued for the offer, if any. */
  function FindCoupon(coupons: seq<Coupon>, offerName: string): (r: Option<Coupon>)
    ensures r.Some? ==> r.value in coupons && r.value.posOffer == offerName
    ensures r.None? <==> forall i :: 0 <= i < |coupons| ==> coupons[i].posOffer != offerName
    ensures r.Some? ==> exists i :: 0 <= i < |coupons| && coupons[i] == r.value && forall j :: 0 <= j < i ==> coupons[j].posOffer != offerName
    decreases |coupons|
  {
    if |coupons| == 0 then None
    else if coupons[0].posOffer == offerName then Some(coupons[0])
    else FindCoupon(coupons[1..], offerName)
  }

  /** `checkOfferCoupon`: whether the offer may be used, and the coupon code
      it is then tagged with (None clears it). */
  function CheckOfferCoupon(couponBased: bool, offerName: string, coupons: seq<Coupon>): (r: (bool, Option<string>))
    ensures !couponBased ==> r == (true, None)
    ensures couponBased ==> (r.0 <==> exists i :: 0 <= i < |coupons| && coupons[i].posOffer == offerName)
    ensures couponBased && r.0 ==>
              r.1.Some? && (exists i :: 0 <= i < |coupons| && coupons[i].posOffer == offerName && coupons[i].code == r.1.value
                                        && forall j :: 0 <= j < i ==> coupons[j].posOffer != offerName)
  {
    if !couponBased then (true, None)
    else
      match FindCoupon(coupons, offerName)
      case Some(c) => (true, Some(c.code))
      case None => (false, None)
  }

  // ---------------------------------------------------------------------
  // Which offers a change affects (invoiceOfferMethods.js:180-245)

  datatype ApplyOn = ItemCode | ItemGroup | Brand | Transaction | OtherScope

  datatype OfferScope = OfferScope(applyOn: ApplyOn, item: string, itemGroup: string, brand: Option<string>)

  /** What a cart row contributes: its code, group and raw brand. */
  datatype RowMeta = RowMeta(itemCode: string, itemGroup: string, brand: Option<string>)

  /** The brand of a row: its own, else the cached brand of its code. */
  function RowBrand(m: RowMeta, brandCache: map<string, string>): string
  {
    var own := m.brand.GetOr([]);
    var raw := if own != [] then own else if m.itemCode in brandCache then brandCache[m.itemCode] else [];
    NormalizeBrand(Some(raw))
  }

  /** The metadata of a changed row id: the live row, else the removed row. */
  function MetaOf(rowId: string, items: map<string, RowMeta>, removed: map<string, RowMeta>): Option<RowMeta>
  {
    if rowId in items then Some(items[rowId])
    else if rowId in removed then Some(removed[rowId])
    else None
  }

  /** Whether one changed row touches the offer's scope. */
  predicate RowHits(o: OfferScope, rowId: string, items: map<string, RowMeta>, removed: map<string, RowMeta>,
                    brandCache: map<string, string>)
  {
    match MetaOf(rowId, items, removed)
    case None => true
    case Some(m) =>
      match o.applyOn
      case ItemCode => m.itemCode == o.item
      case ItemGroup => m.itemGroup == o.itemGroup
      case Brand =>
        var want := NormalizeBrand(o.brand);
        var have := RowBrand(m, brandCache);
        want == [] || have == [] || have == want
      case Transaction => true
      case OtherScope => false
  }

  /** The row-by-row walk with early return. */
  function AnyRowHits(o: OfferScope, changed: seq<string>, items: map<string, RowMeta>, removed: map<string, RowMeta>,
                      brandCache: map<string, string>): bool
    decreases |changed|
  {
    if |changed| == 0 then false
    else if RowHits(o, changed[0], items, removed, brandCache) then true
    else AnyRowHits(o, changed[1..], items, removed, brandCache)
  }

  /** `isOfferAffected` (a null offer is never affected). */
  function IsOfferAffected(o: Option<OfferScope>, changed: seq<string>, items: map<string, RowMeta>,
                           removed: map<string, RowMeta>, brandCache: map<string, string>): (r: bool)
    ensures o.None? ==> !r
    ensures o.Some? && |changed| == 0 ==> r
  {
    if o.None? then false
    else if |changed| == 0 then true
    else AnyRowHits(o.value, changed, items, removed, brandCache)
  }

  lemma {:induction false} AnyRowHitsIffExists(o: OfferScope, changed: seq<string>, items: map<string, RowMeta>,
                                               removed: map<string, RowMeta>, brandCache: map<string, string>)
    ensures AnyRowHits(o, changed, items, removed, brandCache) <==>
              exists i :: 0 <= i < |changed| && RowHits(o, changed[i], items, removed, brandCache)
    decreases |changed|
  {
    if |changed| > 0 {
      AnyRowHitsIffExists(o, changed[1..], items, removed, brandCache);
      if exists i :: 0 <= i < |changed| && RowHits(o, changed[i], items, removed, brandCache) {
        var i :| 0 <= i < |changed| && RowHits(o, changed[i], items, removed, brandCache);
        if i > 0 {
          assert changed[1..][i - 1] == changed[i];
        }
      }
    }
  }

  /**
   * An offer is affected by a non-empty change set exactly when some
   * changed row hits its scope; in particular a row with no known metadata
   * always does, and a transaction-level offer is affected by any change.
   */
  lemma OfferAffectedIffSomeRowHits(o: OfferScope, changed: seq<string>, items: map<string, RowMeta>,
                                    removed: map<string, RowMeta>, brandCache: map<string, string>)
    requires |changed| > 0
    ensures IsOfferAffected(Some(o), changed, items, removed, brandCache) <==>
              exists i :: 0 <= i < |changed| && RowHits(o, changed[i], items, removed, brandCache)
    ensures o.applyOn == Transaction ==> IsOfferAffected(Some(o), changed, items, removed, brandCache)
    ensures (exists i :: 0 <= i < |changed| && changed[i] !in items && changed[i] !in removed) ==>
              IsOfferAffected(Some(o), changed, items, removed, brandCache)
  {
    AnyRowHitsIffExists(o, changed, items, removed, brandCache);
    assert RowHits(o, changed[0], items, removed, brandCache) || o.applyOn != Transaction;
  }

  // ---------------------------------------------------------------------
  // Applied offers per row (invoiceOfferMethods.js:1430-1490)

  /** A cart row (items and packed items together) with its offer row ids. */
  datatype CartRow = CartRow(rowId: string, offers: seq<string>, offerApplied: bool)

  /** One row of `addOfferToItems`. */
  function AddOfferToRow(row: CartRow, offerItems: seq<string>, offerRowId: string, itemPrice: bool): (r: CartRow)
    ensures r.rowId == row.rowId
    ensures row.rowId != [] && row.rowId in offerItems ==> offerRowId in r.offers
    ensures row.rowId == [] || row.rowId !in offerItems || offerRowId in row.offers ==> r == row
    ensures r.offers == row.offers || r.offers == row.offers + [offerRowId]
    ensures row.rowId != [] && row.rowId in offerItems && offerRowId !in row.offers ==>
              r.offers == row.offers + [offerRowId] && r.offerApplied == (itemPrice || row.offerApplied)
  {
    if row.rowId == [] || row.rowId !in offerItems || offerRowId in row.offers then row
    else CartRow(row.rowId, row.offers + [offerRowId], if itemPrice then true else row.offerApplied)
  }

  function AddOfferToItems(rows: seq<CartRow>, offerItems: seq<string>, offerRowId: string, itemPrice: bool): (r: seq<CartRow>)
    ensures |r| == |rows|
    ensures forall k :: 0 <= k < |rows| ==> r[k] == AddOfferToRow(rows[k], offerItems, offerRowId, itemPrice)
  {
    seq(|rows|, k requires 0 <= k < |rows| => AddOfferToRow(rows[k], offerItems, offerRowId, itemPrice))
  }

  /** How often `x` occurs in `xs`. */
  function Occurrences(xs: seq<string>, x: string): nat
    decreases |xs|
  {
    if |xs| == 0 then 0 else (if xs[|xs| - 1] == x then 1 else 0) + Occurrences(xs[..|xs| - 1], x)
  }

  lemma {:induction false} OccurrencesZero(xs: seq<string>, x: string)
    ensures Occurrences(xs, x) == 0 <==> x !in xs
    decreases |xs|
  {
    if |xs| > 0 {
      OccurrencesZero(xs[..|xs| - 1], x);
      assert xs == xs[..|xs| - 1] + [xs[|xs| - 1]];
    }
  }

  /** Adding an offer is idempotent, and never lets its row id appear
      twice in a row's list. */
  lemma AddOfferIdempotent(rows: seq<CartRow>, offerItems: seq<string>, offerRowId: string, itemPrice: bool)
    ensures var once := AddOfferToItems(rows, offerItems, offerRowId, itemPrice);
      AddOfferToItems(once, offerItems, offerRowId, itemPrice) == once
    ensures var once := AddOfferToItems(rows, offerItems, offerRowId, itemPrice);
      forall k :: 0 <= k < |rows| && Occurrences(rows[k].offers, offerRowId) <= 1 ==>
        Occurrences(once[k].offers, offerRowId) <= 1
  {
    var once := AddOfferToItems(rows, offerItems, offerRowId, itemPrice);
    forall k | 0 <= k < |rows| && Occurrences(rows[k].offers, offerRowId) <= 1
      ensures Occurrences(once[k].offers, offerRowId) <= 1
    {
      if once[k].offers != rows[k].offers {
        var xs := rows[k].offers + [offerRowId];
        assert xs[..|xs| - 1] == rows[k].offers;
        OccurrencesZero(rows[k].offers, offerRowId);
      }
    }
  }

  /** `filter(id => id != rowId)`. */
  function Without(xs: seq<string>, x: string): (r: seq<string>)
    ensures x !in r
    ensures forall y :: y in r <==> y in xs && y != x
    ensures x !in xs ==> r == xs
    decreases |xs|
  {
    if |xs| == 0 then []
    else if xs[0] == x then Without(xs[1..], x)
    else [xs[0]] + Without(xs[1..], x)
  }

  function DeleteOfferFromRow(row: CartRow, offerItems: seq<string>, offerRowId: string, itemPrice: bool): (r: CartRow)
    ensures r.rowId == row.rowId
    ensures row.rowId != [] && row.rowId in offerItems ==> offerRowId !in r.offers
    ensures row.rowId != [] && row.rowId in offerItems && itemPrice ==> !r.offerApplied
    ensures row.rowId == [] || row.rowId !in offerItems ==> r == row
  {
    if row.rowId == [] || row.rowId !in offerItems then row
    else CartRow(row.rowId, Without(row.offers, offerRowId), if itemPrice then false else row.offerApplied)
  }

  function DeleteOfferFromItems(rows: seq<CartRow>, offerItems: seq<string>, offerRowId: string, itemPrice: bool): (r: seq<CartRow>)
    ensures |r| == |rows|
    ensures forall k :: 0 <= k < |rows| ==> r[k] == DeleteOfferFromRow(rows[k], offerItems, offerRowId, itemPrice)
  {
    seq(|rows|, k requires 0 <= k < |rows| => DeleteOfferFromRow(rows[k], offerItems, offerRowId, itemPrice))
  }

  lemma {:induction false} WithoutAppended(xs: seq<string>, x: string)
    requires x !in xs
    ensures Without(xs + [x], x) == xs
    decreases |xs|
  {
    if |xs| == 0 {
      assert Without([x], x) == Without([x][1..], x);
    } else {
      assert (xs + [x])[1..] == xs[1..] + [x];
      WithoutAppended(xs[1..], x);
      assert [xs[0]] + xs[1..] == xs;
    }
  }

  /** Adding an offer the rows did not carry and deleting it again gives
      back every row's offer list. */
  lemma AddThenDeleteRestoresOffers(rows: seq<CartRow>, offerItems: seq<string>, offerRowId: string, itemPrice: bool)
    requires forall k :: 0 <= k < |rows| ==> offerRowId !in rows[k].offers
    ensures var back := DeleteOfferFromItems(AddOfferToItems(rows, offerItems, offerRowId, itemPrice), offerItems, offerRowId, itemPrice);
      forall k :: 0 <= k < |rows| ==> back[k].offers == rows[k].offers && back[k].rowId == rows[k].rowId
  {
    var once := AddOfferToItems(rows, offerItems, offerRowId, itemPrice);
    forall k | 0 <= k < |rows| ensures DeleteOfferFromRow(once[k], offerItems, offerRowId, itemPrice).offers == rows[k].offers {
      if rows[k].rowId != [] && rows[k].rowId in offerItems {
        WithoutAppended(rows[k].offers, offerRowId);
      }
    }
  }

  // ---------------------------------------------------------------------
  // Transaction discount (invoiceOfferMethods.js:1418-1427)

  datatype InvoiceDiscount = InvoiceDiscount(discountAmount: real, offerName: Option<string>,
                                             additionalDiscount: real, additionalPercentage: real)

  /** `RemoveOnTotal`: only the offer that set the discount can clear it. */
  function RemoveOnTotal(d: InvoiceDiscount, offerName: string): (r: InvoiceDiscount)
    ensures (d.offerName.Some? && d.offerName.value != [] && d.offerName.value == offerName) ==>
              r == InvoiceDiscount(0.0, None, 0.0, 0.0)
    ensures !(d.offerName.Some? && d.offerName.value != [] && d.offerName.value == offerName) ==> r == d
  {
    if d.offerName.Some? && d.offerName.value != [] && d.offerName.value == offerName then InvoiceDiscount(0.0, None, 0.0, 0.0)
    else d
  }

  /** Removing twice is the same as removing once. */
  lemma RemoveOnTotalIdempotent(d: InvoiceDiscount, offerName: string)
    ensures RemoveOnTotal(RemoveOnTotal(d, offerName), offerName) == RemoveOnTotal(d, offerName)
  {
  }

  // ---------------------------------------------------------------------
  // Dates for the back end (invoiceOfferMethods.js:1545-1566)

  predicate AllDigits(s: string)
  {
    forall i :: 0 <= i < |s| ==> Format.IsWesternDigit(s[i])
  }

  /** `/^\d{4}-\d{2}-\d{2}$/`. */
  predicate IsIsoDate(s: string)
  {
    |s| == 10 && AllDigits(s[..4]) && s[4] == '-' && AllDigits(s[5..7]) && s[7] == '-' && AllDigits(s[8..])
  }

  /** The position of the first `c` in `s`. */
  function IndexOf(s: string, c: char): (r: Option<nat>)
    ensures r.Some? ==> r.value < |s| && s[r.value] == c && c !in s[..r.value]
    ensures r.None? ==> c !in s
    decreases |s|
  {
    if |s| == 0 then None
    else if s[0] == c then Some(0)
    else
      match IndexOf(s[1..], c)
      case None => None
      case Some(i) => assert s[..i + 1] == [s[0]] + s[1..][..i]; Some(i + 1)
  }

  predicate DmyParts(d: string, m: string, y: string)
  {
    1 <= |d| <= 2 && 1 <= |m| <= 2 && |y| == 4 && AllDigits(d) && AllDigits(m) && AllDigits(y)
  }

  /** `/^\d{1,2}-\d{1,2}-\d{4}$/` followed by `split("-")`. */
  function MatchDmy(s: string): (r: Option<(string, string, string)>)
    ensures r.Some? ==> s == r.value.0 + "-" + r.value.1 + "-" + r.value.2 && DmyParts(r.value.0, r.value.1, r.value.2)
  {
    match IndexOf(s, '-')
    case None => None
    case Some(i) =>
      var rest := s[i + 1..];
      match IndexOf(rest, '-')
      case None => None
      case Some(j) =>
        var d := s[..i];
        var m := rest[..j];
        var y := rest[j + 1..];
        if DmyParts(d, m, y) then
          assert s == d + "-" + m + "-" + y by {
            assert s == s[..i] + [s[i]] + rest;
            assert rest == rest[..j] + [rest[j]] + rest[j + 1..];
          }
          Some((d, m, y))
        else None
  }

  lemma {:induction false} IndexOfAfter(x: string, c: char, y: string)
    requires c !in x
    ensures IndexOf(x + [c] + y, c) == Some(|x|)
    decreases |x|
  {
    if |x| > 0 {
      assert (x + [c] + y)[1..] == x[1..] + [c] + y;
      IndexOfAfter(x[1..], c, y);
    }
  }

  lemma NoDashInDigits(x: string)
    requires AllDigits(x)
    ensures '-' !in x
  {
    assert forall i :: 0 <= i < |x| ==> x[i] != '-';
  }

  /** Every string of the D-M-YYYY shape is recognised, with its parts. */
  lemma MatchDmyComplete(d: string, m: string, y: string)
    requires DmyParts(d, m, y)
    ensures MatchDmy(d + "-" + m + "-" + y) == Some((d, m, y))
  {
    var s := d + "-" + m + "-" + y;
    NoDashInDigits(d);
    NoDashInDigits(m);
    assert s == d + ['-'] + (m + "-" + y);
    IndexOfAfter(d, '-', m + "-" + y);
    var rest := s[|d| + 1..];
    assert rest == m + ['-'] + y;
    IndexOfAfter(m, '-', y);
    assert rest[..|m|] == m && rest[|m| + 1..] == y;
    assert s[..|d|] == d;
  }

  /** `padStart(2, "0")` of a one- or two-digit part. */
  function Pad2(x: string): (r: string)
    requires 1 <= |x| <= 2
    ensures |r| == 2 && r[2 - |x|..] == x && (|x| == 1 ==> r[0] == '0')
  {
    if |x| == 1 then "0" + x else x
  }

  /** A YYYY-MM-DD string assembled from digit parts is an ISO date, and
      consists of ASCII digits and dashes only. */
  lemma IsoShape(y: string, mm: string, dd: string)
    requires |y| == 4 && |mm| == 2 && |dd| == 2 && AllDigits(y) && AllDigits(mm) && AllDigits(dd)
    ensures IsIsoDate(y + "-" + mm + "-" + dd)
    ensures Format.FromArabic(y + "-" + mm + "-" + dd) == y + "-" + mm + "-" + dd
    ensures (y + "-" + mm + "-" + dd)[..4] == y
  {
    var s := y + "-" + mm + "-" + dd;
    assert s[..4] == y && s[5..7] == mm && s[8..] == dd;
    forall i | 0 <= i < |s| ensures Format.FromArabicChar(s[i]) == s[i] {
      if i < 4 { assert s[i] == y[i]; }
      else if 4 < i < 7 { assert s[i] == mm[i - 5]; }
      else if 7 < i { assert s[i] == dd[i - 8]; }
    }
  }

  lemma Pad2Digits(x: string)
    requires 1 <= |x| <= 2 && AllDigits(x)
    ensures AllDigits(Pad2(x))
  {
    if |x| == 1 {
      assert Pad2(x) == ['0', x[0]];
    }
  }

  /** `formatDateForBackend` of D-M-YYYY parts. */
  function DmyToIso(d: string, m: string, y: string): (r: string)
    requires DmyParts(d, m, y)
    ensures IsIsoDate(r) && Format.FromArabic(r) == r
    ensures r[..4] == y
  {
    var mm := Pad2(m);
    var dd := Pad2(d);
    Pad2Digits(m);
    Pad2Digits(d);
    IsoShape(y, mm, dd);
    y + "-" + mm + "-" + dd
  }

  datatype BackendDate = NoDate | IsoDate(value: string) | NeedsDateParse(value: string)

  /**
   * `formatDateForBackend` on a string: after converting Arabic-Indic
   * digits, an ISO date is kept, a D-M-YYYY date is rewritten as
   * YYYY-MM-DD; anything else goes to the `Date` parser, which is not
   * modelled.
   */
  function FormatDateForBackend(s: string): (r: BackendDate)
    ensures s == [] ==> r == NoDate
    ensures r.IsoDate? ==> IsIsoDate(r.value)
    ensures s != [] && IsIsoDate(Format.FromArabic(s)) ==> r == IsoDate(Format.FromArabic(s))
  {
    if s == [] then NoDate
    else
      var western := Format.FromArabic(s);
      if IsIsoDate(western) then IsoDate(western)
      else
        match MatchDmy(western)
        case Some(parts) => IsoDate(DmyToIso(parts.0, parts.1, parts.2))
        case None => NeedsDateParse(western)
  }

  /** D-M-YYYY becomes YYYY-MM-DD with the same day, month and year. */
  lemma DmyRewritten(d: string, m: string, y: string)
    requires DmyParts(d, m, y)
    ensures FormatDateForBackend(d + "-" + m + "-" + y) == IsoDate(y + "-" + Pad2(m) + "-" + Pad2(d))
  {
    var s := d + "-" + m + "-" + y;
    forall i | 0 <= i < |s| ensures Format.FromArabicChar(s[i]) == s[i] {
      if i < |d| { assert s[i] == d[i]; }
      else if |d| < i < |d| + 1 + |m| { assert s[i] == m[i - |d| - 1]; }
      else if |d| + 1 + |m| < i { assert s[i] == y[i - |d| - |m| - 2]; }
    }
    assert Format.FromArabic(s) == s;
    assert !IsIsoDate(s) by {
      if |d| == 2 && |m| == 2 {
        assert s[..4][2] == '-';
      }
    }
    MatchDmyComplete(d, m, y);
  }

  /** Normalising a date twice is the same as once. */
  lemma FormatDateIdempotent(s: string)
    requires FormatDateForBackend(s).IsoDate?
    ensures FormatDateForBackend(FormatDateForBackend(s).value) == FormatDateForBackend(s)
  {
    var v := FormatDateForBackend(s).value;
    assert Format.FromArabic(v) == v by {
      var western := Format.FromArabic(s);
      if IsIsoDate(western) {
        Format.FromArabicIdempotent(s);
      }
    }
    assert IsIsoDate(v) && v != [];
  }
}
