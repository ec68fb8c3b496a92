/**
 * Unit-of-measure changes on a cart line,
 * frontend/src/posapp/composables/useStockUtils.js: finding the chosen
 * UOM (on the item, in the cached UOM list, or as the stock UOM), the
 * conversion factor and stock quantity that follow, and whether the rate
 * is locked against the next server refresh. The rate a UOM price list
 * or the server gives is a parameter; the rate and currency arithmetic
 * that follows it is left out.
 */
module StockUtils {
  import opened Common

  /** A UOM of an item and its conversion factor to the stock UOM. */
  datatype Uom = Uom(uom: string, factor: real)

  /** The fields of a cart line a UOM change reads and writes. */
  datatype StockItem = StockItem(stockUom: string, uoms: seq<Uom>, conversionFactor: real,
                                 qty: real, stockQty: real, manualRateSet: bool)

  /** `calcStockQty`: the quantity in stock units is the quantity times
      the conversion factor; nothing else changes. */
  function CalcStockQty(item: StockItem, value: real): (r: StockItem)
    ensures r.stockQty == item.conversionFactor * value
    ensures r.(stockQty := item.stockQty) == item
  {
    item.(stockQty := item.conversionFactor * value)
  }

  /** With a non-zero factor the stock quantity converts back to the
      quantity it was computed from. */
  lemma StockQtyConvertsBack(item: StockItem, value: real)
    requires item.conversionFactor != 0.0
    ensures CalcStockQty(item, value).stockQty / item.conversionFactor == value
  {
  }

  /** `u` is a row of `uoms` named `value`, and no earlier row is. */
  predicate FirstNamed(uoms: seq<Uom>, value: string, u: Uom)
  {
    exists i :: 0 <= i < |uoms| && uoms[i] == u && forall j :: 0 <= j < i ==> uoms[j].uom != value
  }

  /** The first UOM row named `value`. */
  function FindUom(uoms: seq<Uom>, value: string): (r: Option<Uom>)
    ensures r.Some? ==> r.value in uoms && r.value.uom == value
    ensures r.None? ==> forall u :: u in uoms ==> u.uom != value
    ensures forall k :: 0 <= k < |uoms| && uoms[k].uom == value ==> r.Some?
    ensures r.Some? ==> FirstNamed(uoms, value, r.value)
  {
    if uoms == [] then None
    else if uoms[0].uom == value then
      assert FirstNamed(uoms, value, uoms[0]) by { assert uoms[0] == uoms[0]; }
      Some(uoms[0])
    else
      assert uoms == [uoms[0]] + uoms[1..];
      var rest := FindUom(uoms[1..], value);
      if rest.Some? then FirstNamedCons(uoms, value, rest.value); rest else rest
  }

  /** A first match after a row that does not match is a first match of
      the longer list. */
  lemma FirstNamedCons(uoms: seq<Uom>, value: string, u: Uom)
    requires uoms != [] && uoms[0].uom != value && FirstNamed(uoms[1..], value, u)
    ensures FirstNamed(uoms, value, u)
  {
    var i :| 0 <= i < |uoms[1..]| && uoms[1..][i] == u && forall j :: 0 <= j < i ==> uoms[1..][j].uom != value;
    assert uoms[i + 1] == u;
    forall j | 0 <= j < i + 1 ensures uoms[j].uom != value {
      if j > 0 {
        assert uoms[j] == uoms[1..][j - 1];
      }
    }
  }

  /** A row appended after the rows that do not match is the one found. */
  lemma {:induction false} FindUomAppended(uoms: seq<Uom>, u: Uom)
    requires forall w :: w in uoms ==> w.uom != u.uom
    ensures FindUom(uoms + [u], u.uom) == Some(u)
  {
    if uoms != [] {
      assert uoms[0] in uoms;
      assert (uoms + [u])[1..] == uoms[1..] + [u];
      forall w | w in uoms[1..] ensures w.uom != u.uom {
        assert w in uoms;
      }
      FindUomAppended(uoms[1..], u);
    }
  }

  /** The item's UOM rows after the lookup, and the row found. */
  datatype Lookup = Lookup(uoms: seq<Uom>, found: Option<Uom>)

  /**
   * The lookup of `calcUom`: the item's own rows first; then, when the
   * cache knows rows for the item, those rows replace the item's and are
   * searched; then the stock UOM is added with factor 1.
   */
  function LookupUom(item: StockItem, value: string, cached: seq<Uom>): (r: Lookup)
    ensures FindUom(item.uoms, value).Some? ==> r == Lookup(item.uoms, FindUom(item.uoms, value))
    ensures FindUom(item.uoms, value).None? ==>
              var rows := if cached != [] then cached else item.uoms;
              if FindUom(rows, value).Some? then r == Lookup(rows, FindUom(rows, value))
              else if item.stockUom == value then r == Lookup(rows + [Uom(value, 1.0)], Some(Uom(value, 1.0)))
              else r == Lookup(rows, None)
    ensures r.found.Some? ==> r.found.value in r.uoms && r.found.value.uom == value
    ensures r.found.Some? ==> FindUom(r.uoms, value) == r.found
  {
    var own := FindUom(item.uoms, value);
    if own.Some? then Lookup(item.uoms, own)
    else
      var rows := if cached != [] then cached else item.uoms;
      var fromCache := FindUom(rows, value);
      if fromCache.Some? then Lookup(rows, fromCache)
      else if item.stockUom == value then
        FindUomAppended(rows, Uom(value, 1.0));
        Lookup(rows + [Uom(value, 1.0)], Some(Uom(value, 1.0)))
      else Lookup(rows, None)
  }

  /** A UOM change: the UOM is unknown (the item keeps everything but
      possibly its rows), or the item takes the new factor. */
  datatype UomChange = UomNotFound(item: StockItem) | UomChanged(item: StockItem)

  /**
   * `calcUom`: an unknown UOM leaves the item unchanged apart from the
   * rows read from the cache. A known UOM sets the conversion factor and
   * the stock quantity; the rate is locked when a price for the UOM was
   * found, and otherwise iff the UOM is not the stock UOM or its factor
   * is not 1.
   */
  function CalcUom(item: StockItem, value: string, cached: seq<Uom>, uomRate: Option<real>): (r: UomChange)
    ensures var l := LookupUom(item, value, cached);
            (l.found.None? <==> r.UomNotFound?)
            && r.item.uoms == l.uoms
            && (r.UomNotFound? ==> r.item == item.(uoms := l.uoms))
            && (r.UomChanged? ==>
                  r.item.conversionFactor == l.found.value.factor
                  && r.item.stockQty == l.found.value.factor * item.qty
                  && r.item.qty == item.qty && r.item.stockUom == item.stockUom
                  && (r.item.manualRateSet <==> (uomRate.Some? && uomRate.value != 0.0)
                                                || value != item.stockUom || l.found.value.factor != 1.0))
  {
    var l := LookupUom(item, value, cached);
    match l.found
    case None => UomNotFound(item.(uoms := l.uoms))
    case Some(u) =>
      var locked := (uomRate.Some? && uomRate.value != 0.0) || value != item.stockUom || u.factor != 1.0;
      UomChanged(StockItem(item.stockUom, l.uoms, u.factor, item.qty, u.factor * item.qty, locked))
  }

  /** Choosing the stock UOM when the item does not list it adds it with
      factor 1, and without a UOM price the rate is not locked. */
  lemma StockUomFallback(item: StockItem, cached: seq<Uom>)
    requires forall u :: u in item.uoms ==> u.uom != item.stockUom
    requires forall u :: u in cached ==> u.uom != item.stockUom
    ensures var r := CalcUom(item, item.stockUom, cached, None);
            r.UomChanged? && r.item.conversionFactor == 1.0 && r.item.stockQty == item.qty
            && Uom(item.stockUom, 1.0) in r.item.uoms && !r.item.manualRateSet
  {
  }

  /** Choosing the same UOM again, with the same cache and price, changes
      nothing further. */
  lemma CalcUomIdempotent(item: StockItem, value: string, cached: seq<Uom>, uomRate: Option<real>)
    requires CalcUom(item, value, cached, uomRate).UomChanged?
    ensures var once := CalcUom(item, value, cached, uomRate).item;
            CalcUom(once, value, cached, uomRate) == UomChanged(once)
  {
    var l := LookupUom(item, value, cached);
    var once := CalcUom(item, value, cached, uomRate).item;
    assert FindUom(once.uoms, value) == l.found;
    assert LookupUom(once, value, cached) == Lookup(once.uoms, l.found);
  }
}
