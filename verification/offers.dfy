/**
 * Offers of posawesome/posawesome/api/offers.py: the gift-coupon validity
 * window, and the translation of an ERPNext Promotional Scheme into POS
 * offers, one per eligible slab (and per target item, item group or brand
 * unless the scheme applies to the whole transaction). The database
 * queries become inputs: the coupon rows and the loaded scheme.
 */
module Offers {
  import opened Common

  // ---------------------------------------------------------------------
  // Gift coupons (offers.py:22-54)

  /** A coupon row; dates are day numbers, None when unset. */
  datatype GiftCoupon = GiftCoupon(code: string, validFrom: Option<int>, validUpto: Option<int>)

  /** `_is_coupon_active`: neither starting after today nor ending before
      it; a missing bound is open. */
  predicate IsCouponActive(c: GiftCoupon, today: int)
  {
    !(c.validFrom.Some? && c.validFrom.value > today) && !(c.validUpto.Some? && c.validUpto.value < today)
  }

  /** The days a coupon is active on form an interval: active on two days,
      it is active on every day between them. */
  lemma CouponActiveBetween(c: GiftCoupon, t1: int, t: int, t2: int)
    requires IsCouponActive(c, t1) && IsCouponActive(c, t2) && t1 <= t <= t2
    ensures IsCouponActive(c, t)
  {
  }

  /** With both bounds set, active exactly within them (inclusive); with
      none, always active. */
  lemma CouponActiveWindow(c: GiftCoupon, today: int)
    ensures c.validFrom.Some? && c.validUpto.Some? ==>
              (IsCouponActive(c, today) <==> c.validFrom.value <= today <= c.validUpto.value)
    ensures c.validFrom.None? && c.validUpto.None? ==> IsCouponActive(c, today)
  {
  }

  /** `get_active_gift_coupons` after the query: the codes of the active
      coupons, in row order. */
  function ActiveGiftCoupons(rows: seq<GiftCoupon>, today: int): (r: seq<string>)
    ensures |r| <= |rows|
    ensures forall x :: x in r ==> exists k :: 0 <= k < |rows| && rows[k].code == x && IsCouponActive(rows[k], today)
    ensures forall k :: 0 <= k < |rows| && IsCouponActive(rows[k], today) ==> rows[k].code in r
  {
    if rows == [] then []
    else
      var rest := ActiveGiftCoupons(rows[1..], today);
      assert forall x :: x in rest ==> exists k :: 0 <= k < |rows| && rows[k].code == x && IsCouponActive(rows[k], today) by {
        forall x | x in rest ensures exists k :: 0 <= k < |rows| && rows[k].code == x && IsCouponActive(rows[k], today) {
          var k :| 0 <= k < |rows[1..]| && rows[1..][k].code == x && IsCouponActive(rows[1..][k], today);
          assert rows[k + 1] == rows[1..][k];
        }
      }
      assert forall k :: 1 <= k < |rows| && IsCouponActive(rows[k], today) ==> rows[k].code in rest by {
        forall k | 1 <= k < |rows| && IsCouponActive(rows[k], today) ensures rows[k].code in rest {
          assert rows[1..][k - 1] == rows[k];
        }
      }
      if IsCouponActive(rows[0], today) then [rows[0].code] + rest else rest
  }

  // ---------------------------------------------------------------------
  // Discount type and fields (offers.py:345-366)

  datatype DiscountType = Rate | DiscountAmount | DiscountPercentage

  /** The text ERPNext stores for each discount type. */
  function DiscountTypeName(t: DiscountType): string
  {
    match t
    case Rate => "Rate"
    case DiscountAmount => "Discount Amount"
    case DiscountPercentage => "Discount Percentage"
  }

  /** `_map_discount_type`: a known text maps to its type; anything else
      is a percentage discount. */
  function MapDiscountType(text: string): (r: DiscountType)
    ensures text == DiscountTypeName(r) || (r == DiscountPercentage && forall t :: text != DiscountTypeName(t))
  {
    if text == "Rate" then Rate
    else if text == "Discount Amount" then DiscountAmount
    else DiscountPercentage
  }

  lemma MapDiscountTypeRoundTrip(t: DiscountType)
    ensures MapDiscountType(DiscountTypeName(t)) == t
  {
  }

  /** The discount part of an offer. */
  datatype Discount = Discount(kind: DiscountType, rate: real, amount: real, percentage: real)

  /** The field the discount type uses. */
  function Selected(d: Discount): real
  {
    match d.kind
    case Rate => d.rate
    case DiscountAmount => d.amount
    case DiscountPercentage => d.percentage
  }

  /** Every field the discount type does not use is zero. */
  predicate Normalized(d: Discount)
  {
    (d.kind != Rate ==> d.rate == 0.0)
    && (d.kind != DiscountAmount ==> d.amount == 0.0)
    && (d.kind != DiscountPercentage ==> d.percentage == 0.0)
  }

  /** `_normalize_discount_fields`. */
  function NormalizeDiscountFields(d: Discount): (r: Discount)
    ensures r.kind == d.kind && Selected(r) == Selected(d)
    ensures Normalized(r)
  {
    Discount(d.kind,
             if d.kind != Rate then 0.0 else d.rate,
             if d.kind != DiscountAmount then 0.0 else d.amount,
             if d.kind != DiscountPercentage then 0.0 else d.percentage)
  }

  /** Normalised fields are left alone, so normalising is idempotent. */
  lemma NormalizeDiscountFieldsFixes(d: Discount)
    ensures Normalized(d) <==> NormalizeDiscountFields(d) == d
    ensures NormalizeDiscountFields(NormalizeDiscountFields(d)) == NormalizeDiscountFields(d)
  {
  }

  // ---------------------------------------------------------------------
  // Offer identifiers (offers.py:369-373)

  /** `frappe.scrub` of one character: spaces and dashes become
      underscores, ASCII letters are lower-cased. */
  function ScrubChar(c: char): char
  {
    if c == ' ' || c == '-' then '_' else LowerChar(c)
  }

  function Scrub(s: string): (r: string)
    ensures |r| == |s|
    ensures forall i :: 0 <= i < |r| ==> r[i] != '-' && r[i] != ' '
  {
    seq(|s|, i requires 0 <= i < |s| => ScrubChar(s[i]))
  }

  /** `"-".join(parts)`. */
  function JoinDash(parts: seq<string>): string
    decreases |parts|
  {
    if parts == [] then []
    else if |parts| == 1 then parts[0]
    else parts[0] + "-" + JoinDash(parts[1..])
  }

  /** The non-empty parts, scrubbed. */
  function CleanParts(parts: seq<string>): (r: seq<string>)
    ensures |r| <= |parts|
    ensures forall k :: 0 <= k < |r| ==> '-' !in r[k]
  {
    if parts == [] then []
    else if parts[0] == [] then CleanParts(parts[1..])
    else [Scrub(parts[0])] + CleanParts(parts[1..])
  }

  /** The number of dashes in a string. */
  function Dashes(s: string): nat
  {
    if s == [] then 0 else (if s[0] == '-' then 1 else 0) + Dashes(s[1..])
  }

  lemma {:induction false} DashesAppend(a: string, b: string)
    ensures Dashes(a + b) == Dashes(a) + Dashes(b)
    decreases |a|
  {
    if a != [] {
      assert (a + b)[1..] == a[1..] + b;
      DashesAppend(a[1..], b);
    } else {
      assert a + b == b;
    }
  }

  lemma {:induction false} NoDashes(s: string)
    requires '-' !in s
    ensures Dashes(s) == 0
    decreases |s|
  {
    if s != [] {
      assert s == [s[0]] + s[1..];
      NoDashes(s[1..]);
    }
  }

  /** Joining dash-free parts gives one dash fewer than there are parts. */
  lemma {:induction false} JoinDashCount(parts: seq<string>)
    requires |parts| > 0
    requires forall k :: 0 <= k < |parts| ==> '-' !in parts[k]
    ensures Dashes(JoinDash(parts)) == |parts| - 1
    decreases |parts|
  {
    NoDashes(parts[0]);
    if |parts| > 1 {
      JoinDashCount(parts[1..]);
      DashesAppend(parts[0] + "-", JoinDash(parts[1..]));
      DashesAppend(parts[0], "-");
    }
  }

  /**
   * `_make_offer_identifier`: "ps-" followed by the scrubbed non-empty
   * parts joined with dashes; when every part is empty, a random hash
   * (a parameter here) stands in for them.
   */
  function MakeOfferIdentifier(parts: seq<string>, hash: string): (r: string)
    ensures |r| >= 3 && r[..3] == "ps-"
  {
    var cleaned := CleanParts(parts);
    "ps-" + JoinDash(if cleaned == [] then [hash] else cleaned)
  }

  /** The identifier shows how many non-empty parts it was built from:
      one dash after the prefix per part after the first. */
  lemma IdentifierCountsParts(parts: seq<string>, hash: string)
    requires CleanParts(parts) != []
    ensures Dashes(MakeOfferIdentifier(parts, hash)) == |CleanParts(parts)|
  {
    var cleaned := CleanParts(parts);
    JoinDashCount(cleaned);
    DashesAppend("ps-", JoinDash(cleaned));
  }

  // ---------------------------------------------------------------------
  // Schemes and targets (offers.py:142-153, 333-342)

  datatype SchemeOn = OnItemCode | OnItemGroup | OnBrand | OnTransaction | OnOther

  /** A price-discount slab; "" stands for an unset link. */
  datatype PriceSlab = PriceSlab(name: string, disabled: bool, forPriceList: string, warehouse: string,
                                 ruleDescription: string, minQty: real, maxQty: real, minAmount: real,
                                 maxAmount: real, rateOrDiscount: string, rate: real, discountAmount: real,
                                 discountPercentage: real)

  /** A product-discount (free item) slab. */
  datatype ProductSlab = ProductSlab(name: string, disabled: bool, warehouse: string, ruleDescription: string,
                                     minQty: real, maxQty: real, minAmount: real, maxAmount: real,
                                     freeQty: real, freeItemRate: real, freeItem: string, sameItem: bool)

  /** The scheme fields the translation reads. `items`, `itemGroups` and
      `brands` are the link values of the scheme's child rows. */
  datatype Scheme = Scheme(name: string, company: string, applyOn: SchemeOn, applicableFor: string,
                           applyRuleOnOther: string, mixedConditions: bool, isCumulative: bool,
                           priceSlabs: seq<PriceSlab>, productSlabs: seq<ProductSlab>,
                           items: seq<string>, itemGroups: seq<string>, brands: seq<string>)

  datatype Profile = Profile(name: string, sellingPriceList: string, warehouse: string)

  /** The link values of the child table the scheme applies on. */
  function TargetValues(sc: Scheme): seq<string>
  {
    match sc.applyOn
    case OnItemCode => sc.items
    case OnItemGroup => sc.itemGroups
    case OnBrand => sc.brands
    case _ => []
  }

  /** The targets as a value: the empty string counts as already seen. */
  function SchemeTargets(sc: Scheme): seq<string>
  {
    Dedup(TargetValues(sc), {[]})
  }

  /** `_get_scheme_targets`: the non-empty link values without repeats,
      in order of first occurrence. */
  method GetSchemeTargets(sc: Scheme) returns (unique: seq<string>)
    ensures unique == SchemeTargets(sc)
    ensures Distinct(unique)
    ensures forall x :: x in unique <==> x in TargetValues(sc) && x != []
    ensures forall i, j :: 0 <= i < j < |unique| ==>
              FirstPos(TargetValues(sc), unique[i]) < FirstPos(TargetValues(sc), unique[j])
  {
    var targets := TargetValues(sc);
    var seen: set<string> := {};
    unique := [];
    var i := 0;
    assert targets[i..] == targets && seen + {[]} == {[]};
    while i < |targets|
      invariant 0 <= i <= |targets|
      invariant unique + Dedup(targets[i..], seen + {[]}) == Dedup(targets, {[]})
    {
      var t := targets[i];
      DedupStep(targets, i, seen + {[]}, unique, Dedup(targets, {[]}));
      if t != [] && t !in seen {
        assert seen + {[]} + {t} == seen + {t} + {[]};
        seen := seen + {t};
        unique := unique + [t];
      }
      i := i + 1;
    }
    assert targets[i..] == [];
    SchemeTargetsFacts(sc);
  }

  /** The scheme targets are the non-empty link values, each once, in
      order of first occurrence. */
  lemma SchemeTargetsFacts(sc: Scheme)
    ensures Distinct(SchemeTargets(sc))
    ensures forall x :: x in SchemeTargets(sc) <==> x in TargetValues(sc) && x != []
    ensures forall i, j :: 0 <= i < j < |SchemeTargets(sc)| ==>
              FirstPos(TargetValues(sc), SchemeTargets(sc)[i]) < FirstPos(TargetValues(sc), SchemeTargets(sc)[j])
  {
    DedupFacts(TargetValues(sc), {[]});
  }

  // ---------------------------------------------------------------------
  // Offers (offers.py:156-330)

  datatype OfferKind = GrandTotal | ItemPrice | GiveProduct

  /**
   * The offer record, with the fields the translation decides. `target`
   * is the item, item group or brand of a per-target offer; `giveItem` the
   * free item of a product offer naming a different item.
   */
  datatype Offer = Offer(name: string, rowId: string, title: string, description: string, company: string,
                         profile: string, warehouse: string, applyOn: SchemeOn, kind: OfferKind,
                         minQty: real, maxQty: real, minAmt: real, maxAmt: real, discount: Discount,
                         givenQty: real, scheme: string, rule: string, target: Option<string>,
                         giveItem: Option<string>, replaceItem: bool, replaceCheapest: bool)

  /** `a or b` on strings. */
  function OrElse(a: string, b: string): string
  {
    if a != [] then a else b
  }

  /** Both links set and different. */
  predicate Mismatch(a: string, b: string)
  {
    a != [] && b != [] && a != b
  }

  predicate PriceSlabEligible(s: PriceSlab, p: Profile)
  {
    !s.disabled && !Mismatch(s.forPriceList, p.sellingPriceList) && !Mismatch(s.warehouse, p.warehouse)
  }

  predicate ProductSlabEligible(s: ProductSlab, p: Profile)
  {
    !s.disabled && !Mismatch(s.warehouse, p.warehouse) && s.freeQty > 0.0
  }

  /** The offer template of a price slab. */
  function PriceTemplate(sc: Scheme, p: Profile, s: PriceSlab, hash: string): (o: Offer)
    ensures o.name == o.rowId && o.scheme == sc.name && o.rule == s.name && o.target.None?
    ensures o.kind == (if sc.applyOn == OnTransaction then GrandTotal else ItemPrice)
    ensures Normalized(o.discount) && o.discount.kind == MapDiscountType(s.rateOrDiscount)
  {
    var id := MakeOfferIdentifier([sc.name, s.name], hash);
    Offer(id, id, sc.name, OrElse(s.ruleDescription, sc.name), sc.company, p.name, s.warehouse, sc.applyOn,
          if sc.applyOn == OnTransaction then GrandTotal else ItemPrice,
          s.minQty, s.maxQty, s.minAmount, s.maxAmount,
          NormalizeDiscountFields(Discount(MapDiscountType(s.rateOrDiscount), s.rate, s.discountAmount, s.discountPercentage)),
          0.0, sc.name, s.name, None, None, false, false)
  }

  /** The offer template of a product slab: a free item without a rate
      is given at 100% discount. */
  function ProductTemplate(sc: Scheme, p: Profile, s: ProductSlab, hash: string): (o: Offer)
    ensures o.name == o.rowId && o.scheme == sc.name && o.rule == s.name && o.target.None?
    ensures o.kind == GiveProduct && o.givenQty == s.freeQty
    ensures Normalized(o.discount)
    ensures s.freeItemRate != 0.0 ==> o.discount.kind == Rate && o.discount.rate == s.freeItemRate
    ensures s.freeItemRate == 0.0 ==> o.discount.kind == DiscountPercentage && o.discount.percentage == 100.0
    ensures o.giveItem.Some? <==> s.freeItem != [] && !s.sameItem
  {
    var id := MakeOfferIdentifier([sc.name, s.name], hash);
    var kind := if s.freeItemRate != 0.0 then Rate else DiscountPercentage;
    Offer(id, id, sc.name, OrElse(s.ruleDescription, sc.name), sc.company, p.name, s.warehouse, sc.applyOn,
          GiveProduct, s.minQty, s.maxQty, s.minAmount, s.maxAmount,
          NormalizeDiscountFields(Discount(kind, s.freeItemRate, 0.0, if s.freeItemRate == 0.0 then 100.0 else 0.0)),
          s.freeQty, sc.name, s.name, None,
          if s.freeItem != [] && !s.sameItem then Some(s.freeItem) else None, false, false)
  }

  /** The copy of a template for one target: its own name and row id, the
      target, and for product offers the replace flags. */
  function Retarget(sc: Scheme, t: Offer, target: string, sameItem: bool, product: bool, hash: string): (o: Offer)
    ensures o.name == o.rowId && o.target == Some(target)
    ensures o == t.(name := o.name, rowId := o.rowId, target := o.target, replaceItem := o.replaceItem,
                    replaceCheapest := o.replaceCheapest)
  {
    var id := MakeOfferIdentifier([sc.name, target, t.rule], hash);
    t.(name := id, rowId := id, target := Some(target),
       replaceItem := product && sc.applyOn == OnItemCode && sameItem,
       replaceCheapest := product && (sc.applyOn == OnItemGroup || sc.applyOn == OnBrand) && sameItem)
  }

  /** One offer for a transaction-wide scheme, otherwise one per target. */
  function Expand(sc: Scheme, t: Offer, targets: seq<string>, sameItem: bool, product: bool, hash: string): (r: seq<Offer>)
    ensures sc.applyOn == OnTransaction ==> r == [t]
    ensures sc.applyOn != OnTransaction ==> |r| == |targets|
    ensures sc.applyOn != OnTransaction ==> forall k :: 0 <= k < |r| ==> r[k].target == Some(targets[k])
    ensures forall k :: 0 <= k < |r| ==> r[k].rule == t.rule && r[k].kind == t.kind && r[k].discount == t.discount
                                         && r[k].givenQty == t.givenQty && r[k].scheme == t.scheme
    ensures t.name == t.rowId ==> forall k :: 0 <= k < |r| ==> r[k].name == r[k].rowId
  {
    if sc.applyOn == OnTransaction then [t]
    else seq(|targets|, k requires 0 <= k < |targets| => Retarget(sc, t, targets[k], sameItem, product, hash))
  }

  /** Offers per eligible slab: one, or one per target. */
  function PerSlab(sc: Scheme, targets: seq<string>): nat
  {
    if sc.applyOn == OnTransaction then 1 else |targets|
  }

  function CountPriceEligible(slabs: seq<PriceSlab>, p: Profile): nat
  {
    if slabs == [] then 0 else (if PriceSlabEligible(slabs[0], p) then 1 else 0) + CountPriceEligible(slabs[1..], p)
  }

  function CountProductEligible(slabs: seq<ProductSlab>, p: Profile): nat
  {
    if slabs == [] then 0 else (if ProductSlabEligible(slabs[0], p) then 1 else 0) + CountProductEligible(slabs[1..], p)
  }

  /** The offers one price slab contributes. */
  function PriceSlabOffers(sc: Scheme, p: Profile, s: PriceSlab, targets: seq<string>, hash: string): (r: seq<Offer>)
    ensures |r| == if PriceSlabEligible(s, p) then PerSlab(sc, targets) else 0
    ensures forall o :: o in r ==> PriceOk(sc, o) && o.rule == s.name
  {
    if PriceSlabEligible(s, p) then Expand(sc, PriceTemplate(sc, p, s, hash), targets, false, false, hash) else []
  }

  /** What every price offer of a scheme satisfies. */
  predicate PriceOk(sc: Scheme, o: Offer)
  {
    o.name == o.rowId && o.scheme == sc.name && Normalized(o.discount)
    && o.kind == (if sc.applyOn == OnTransaction then GrandTotal else ItemPrice)
  }

  /** What every product offer of a scheme satisfies: a positive free
      quantity, and a free item either at a rate or at 100% discount. */
  predicate ProductOk(sc: Scheme, o: Offer)
  {
    o.name == o.rowId && o.scheme == sc.name && Normalized(o.discount)
    && o.kind == GiveProduct && o.givenQty > 0.0 && (o.discount.kind == Rate || o.discount.percentage == 100.0)
  }

  /** The names of the eligible slabs. */
  function EligiblePriceRules(slabs: seq<PriceSlab>, p: Profile): seq<string>
  {
    if slabs == [] then []
    else (if PriceSlabEligible(slabs[0], p) then [slabs[0].name] else []) + EligiblePriceRules(slabs[1..], p)
  }

  function EligibleProductRules(slabs: seq<ProductSlab>, p: Profile): seq<string>
  {
    if slabs == [] then []
    else (if ProductSlabEligible(slabs[0], p) then [slabs[0].name] else []) + EligibleProductRules(slabs[1..], p)
  }

  /** `_build_price_discount_offers` over the given slabs. */
  function PriceOffers(sc: Scheme, p: Profile, slabs: seq<PriceSlab>, targets: seq<string>, hash: string): (r: seq<Offer>)
    ensures forall o :: o in r ==> PriceOk(sc, o) && o.rule in EligiblePriceRules(slabs, p)
    decreases |slabs|
  {
    if slabs == [] then []
    else
      var here := PriceSlabOffers(sc, p, slabs[0], targets, hash);
      var rest := PriceOffers(sc, p, slabs[1..], targets, hash);
      assert forall o :: o in here + rest ==> o in here || o in rest;
      here + rest
  }

  /** Every eligible price slab contributes one offer per target. */
  lemma {:induction false} PriceOffersCount(sc: Scheme, p: Profile, slabs: seq<PriceSlab>, targets: seq<string>, hash: string)
    ensures |PriceOffers(sc, p, slabs, targets, hash)| == PerSlab(sc, targets) * CountPriceEligible(slabs, p)
    decreases |slabs|
  {
    if slabs != [] {
      PriceOffersCount(sc, p, slabs[1..], targets, hash);
      forall n: int, c: int ensures n * (1 + c) == n + n * c {
      }
    }
  }

  /** The offers one product slab contributes. */
  function ProductSlabOffers(sc: Scheme, p: Profile, s: ProductSlab, targets: seq<string>, hash: string): (r: seq<Offer>)
    ensures |r| == if ProductSlabEligible(s, p) then PerSlab(sc, targets) else 0
    ensures forall o :: o in r ==> ProductOk(sc, o) && o.rule == s.name
  {
    if ProductSlabEligible(s, p) then Expand(sc, ProductTemplate(sc, p, s, hash), targets, s.sameItem, true, hash) else []
  }

  /** `_build_product_discount_offers` over the given slabs. */
  function ProductOffers(sc: Scheme, p: Profile, slabs: seq<ProductSlab>, targets: seq<string>, hash: string): (r: seq<Offer>)
    ensures forall o :: o in r ==> ProductOk(sc, o) && o.rule in EligibleProductRules(slabs, p)
    decreases |slabs|
  {
    if slabs == [] then []
    else
      var here := ProductSlabOffers(sc, p, slabs[0], targets, hash);
      var rest := ProductOffers(sc, p, slabs[1..], targets, hash);
      assert forall o :: o in here + rest ==> o in here || o in rest;
      here + rest
  }

  /** Every eligible product slab contributes one offer per target. */
  lemma {:induction false} ProductOffersCount(sc: Scheme, p: Profile, slabs: seq<ProductSlab>, targets: seq<string>, hash: string)
    ensures |ProductOffers(sc, p, slabs, targets, hash)| == PerSlab(sc, targets) * CountProductEligible(slabs, p)
    decreases |slabs|
  {
    if slabs != [] {
      ProductOffersCount(sc, p, slabs[1..], targets, hash);
      forall n: int, c: int ensures n * (1 + c) == n + n * c {
      }
    }
  }

  /** The scheme uses a feature the POS does not support. */
  predicate Unsupported(sc: Scheme)
  {
    sc.applicableFor != [] || sc.applyRuleOnOther != [] || sc.mixedConditions || sc.isCumulative
  }

  /** `_prepare_promotional_scheme_offers`: nothing for an unsupported
      scheme, else the price offers followed by the product offers. */
  function PrepareSchemeOffers(sc: Scheme, p: Profile, hash: string): (r: seq<Offer>)
    ensures Unsupported(sc) ==> r == []
    ensures !Unsupported(sc) ==>
              |r| == PerSlab(sc, SchemeTargets(sc)) * CountPriceEligible(sc.priceSlabs, p)
                     + PerSlab(sc, SchemeTargets(sc)) * CountProductEligible(sc.productSlabs, p)
    ensures forall o :: o in r ==> o.name == o.rowId && o.scheme == sc.name && Normalized(o.discount)
  {
    if Unsupported(sc) then []
    else
      var targets := SchemeTargets(sc);
      var price := PriceOffers(sc, p, sc.priceSlabs, targets, hash);
      var product := ProductOffers(sc, p, sc.productSlabs, targets, hash);
      PriceOffersCount(sc, p, sc.priceSlabs, targets, hash);
      ProductOffersCount(sc, p, sc.productSlabs, targets, hash);
      assert forall o :: o in price + product ==> o in price || o in product;
      price + product
  }

  /** A scheme whose targets are all blank yields nothing unless it is
      transaction-wide. */
  lemma NoTargetsNoOffers(sc: Scheme, p: Profile, hash: string)
    requires sc.applyOn != OnTransaction
    requires forall k :: 0 <= k < |TargetValues(sc)| ==> TargetValues(sc)[k] == []
    ensures PrepareSchemeOffers(sc, p, hash) == []
  {
    DedupAllSeen(TargetValues(sc), {[]});
    assert SchemeTargets(sc) == [];
    assert PerSlab(sc, SchemeTargets(sc)) == 0;
  }
}
