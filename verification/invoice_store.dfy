/**
 * The invoice store of frontend/src/posapp/stores/invoiceStore.js: the
 * invoice document, its item rows and packed rows, a change counter that
 * every mutation advances, and the totals computed over the rows. Rows
 * are loosely typed records; the clock behind `lastUpdated` is left out.
 */
module InvoiceStore {
  import opened Common
  import opened Numerals

  // ---------------------------------------------------------------------
  // toNumber (invoiceStore.js:9-28)

  /**
   * `toNumber`: a finite number is itself, text is read as by `parseFloat`
   * after trimming, and everything else (missing values, NaN, the
   * infinities, text that is blank or not a number, other types) is 0.
   */
  function ToNumber(v: JsValue): (r: real)
    ensures v.JsNumber? ==> r == v.x
    ensures v.JsNull? || v.JsNaN? || v.JsInfinity? || v.JsBool? || v.JsObject? ==> r == 0.0
    ensures v.JsText? && Trim(v.s) == [] ==> r == 0.0
    ensures v.JsText? && ParseFloat(Trim(v.s)).None? ==> r == 0.0
  {
    match v
    case JsNumber(x) => x
    case JsText(s) =>
      var normalized := Trim(s);
      if normalized == [] then 0.0
      else (match ParseFloat(normalized) case Some(n) => n as real case None => 0.0)
    case _ => 0.0
  }

  /** A numeral, possibly padded and followed by a unit, reads as its value. */
  lemma ToNumberOfNumeral(n: nat, rest: string)
    requires rest == [] || (!IsDigit(rest[0]) && !IsSpace(rest[|rest| - 1]))
    ensures ToNumber(JsText(Decimal(n) + rest)) == n as real
  {
    DecimalRoundTrip(n);
    ToNumberOfDigits(Decimal(n), rest, n);
  }

  /** The same for any non-empty digit string of value `n`. */
  lemma ToNumberOfDigits(d: string, rest: string, n: nat)
    requires d != [] && AllDigits(d) && DigitsValue(d) == n
    requires rest == [] || (!IsDigit(rest[0]) && !IsSpace(rest[|rest| - 1]))
    ensures ToNumber(JsText(d + rest)) == n as real
  {
    NumeralIsTrimmed(d, rest);
    ParseFloatDigits(d, rest);
    ToNumberOfParsed(d + rest, n);
  }

  lemma NumeralIsTrimmed(d: string, rest: string)
    requires d != [] && AllDigits(d)
    requires rest == [] || !IsSpace(rest[|rest| - 1])
    ensures Trim(d + rest) == d + rest
  {
    var s := d + rest;
    assert s[0] == d[0] && IsDigit(d[0]);
    if rest == [] {
      assert s[|s| - 1] == d[|d| - 1] && IsDigit(d[|d| - 1]);
    } else {
      assert s[|s| - 1] == rest[|rest| - 1];
    }
    TrimOfTrimmed(s);
  }

  lemma ToNumberOfParsed(s: string, n: int)
    requires s != [] && Trim(s) == s && ParseFloat(s) == Some(n)
    ensures ToNumber(JsText(s)) == n as real
  {
  }

  /** `x || 0`. */
  function OrZero(v: JsValue): (r: JsValue)
    ensures Truthy(v) ==> r == v
    ensures !Truthy(v) ==> r == JsNumber(0.0)
  {
    if Truthy(v) then v else JsNumber(0.0)
  }

  /** Defaulting a falsy value to 0 never changes what it counts as. */
  lemma OrZeroKeepsNumber(v: JsValue)
    ensures ToNumber(OrZero(v)) == ToNumber(v)
  {
  }

  // ---------------------------------------------------------------------
  // Rows and state

  /** An item row: its `posa_row_id` (empty when missing) and its fields. */
  datatype Item = Item(rowId: string, fields: map<string, JsValue>)

  /** A field of a row; a missing one is `undefined`. */
  function Field(item: Item, name: string): JsValue
  {
    if name in item.fields then item.fields[name] else JsNull
  }

  /** The store state; `changeVersion` counts the mutations. */
  datatype InvoiceState = InvoiceState(doc: Option<map<string, JsValue>>, items: seq<Item>,
                                       packedItems: seq<Item>, changeVersion: nat)

  const Initial := InvoiceState(None, [], [], 0)

  /** `touch` (invoiceStore.js:41-46): one more change. */
  function Touch(s: InvoiceState): (r: InvoiceState)
    ensures r.changeVersion == s.changeVersion + 1
    ensures r.(changeVersion := s.changeVersion) == s
  {
    s.(changeVersion := s.changeVersion + 1)
  }

  // ---------------------------------------------------------------------
  // The document (invoiceStore.js:48-69)

  /** What `setInvoiceDoc` may be given: nothing, a document name, or a
      document. */
  datatype DocInput = DocMissing | DocName(name: string) | DocFields(fields: map<string, JsValue>)

  /** `normalizeDoc`: a name becomes `{name}` unless blank; a document is
      copied. */
  function NormalizeDoc(d: DocInput): (r: Option<map<string, JsValue>>)
    ensures d.DocMissing? ==> r == None
    ensures d.DocName? ==> (r.Some? <==> Trim(d.name) != [])
    ensures d.DocName? && r.Some? ==> r.value == map["name" := JsText(d.name)]
    ensures d.DocFields? ==> r == Some(d.fields)
  {
    match d
    case DocMissing => None
    case DocName(name) => if Trim(name) != [] then Some(map["name" := JsText(name)]) else None
    case DocFields(fields) => Some(fields)
  }

  function SetInvoiceDoc(s: InvoiceState, d: DocInput): (r: InvoiceState)
    ensures r.doc == NormalizeDoc(d) && r.items == s.items && r.packedItems == s.packedItems
    ensures r.changeVersion == s.changeVersion + 1
  {
    Touch(s.(doc := NormalizeDoc(d)))
  }

  /** `mergeInvoiceDoc`: the patch's fields override, the others stay. */
  function MergeInvoiceDoc(s: InvoiceState, patch: map<string, JsValue>): (r: InvoiceState)
    ensures r.doc.Some?
    ensures forall k :: k in patch ==> k in r.doc.value && r.doc.value[k] == patch[k]
    ensures s.doc.Some? ==> forall k :: k in s.doc.value && k !in patch ==> k in r.doc.value && r.doc.value[k] == s.doc.value[k]
    ensures forall k :: k in r.doc.value ==> k in patch || (s.doc.Some? && k in s.doc.value)
    ensures r.items == s.items && r.changeVersion == s.changeVersion + 1
  {
    Touch(s.(doc := Some(s.doc.GetOr(map[]) + patch)))
  }

  // ---------------------------------------------------------------------
  // Row mutations (invoiceStore.js:71-139)

  /** `setItems`: a list replaces the rows; anything else empties them. */
  function SetItems(s: InvoiceState, list: Option<seq<Item>>): (r: InvoiceState)
    ensures r.items == list.GetOr([]) && r.doc == s.doc && r.packedItems == s.packedItems
    ensures r.changeVersion == s.changeVersion + 1
  {
    Touch(s.(items := list.GetOr([])))
  }

  /** `replaceItemAt`: an index outside the rows changes nothing. */
  function ReplaceItemAt(s: InvoiceState, index: int, item: Item): (r: InvoiceState)
    ensures index < 0 || index >= |s.items| ==> r == s
    ensures 0 <= index < |s.items| ==>
              |r.items| == |s.items| && r.items[index] == item && r.changeVersion == s.changeVersion + 1
              && forall j :: 0 <= j < |s.items| && j != index ==> r.items[j] == s.items[j]
    ensures r.doc == s.doc && r.packedItems == s.packedItems
  {
    if index < 0 || index >= |s.items| then s
    else Touch(s.(items := s.items[index := item]))
  }

  /** `findIndex` on the row id: the first row with `id`, or -1. */
  function IndexOfRow(items: seq<Item>, id: string): (r: int)
    ensures -1 <= r < |items|
    ensures r == -1 <==> forall j :: 0 <= j < |items| ==> items[j].rowId != id
    ensures r >= 0 ==> items[r].rowId == id && forall j :: 0 <= j < r ==> items[j].rowId != id
  {
    if items == [] then -1
    else if items[0].rowId == id then 0
    else
      var k := IndexOfRow(items[1..], id);
      if k == -1 then -1 else k + 1
  }

  /** A row patched with `item`: the item's fields win. */
  function MergeRow(existing: Item, item: Item): (r: Item)
    ensures r.rowId == existing.rowId
    ensures forall k :: k in item.fields ==> Field(r, k) == item.fields[k]
    ensures forall k :: k !in item.fields ==> Field(r, k) == Field(existing, k)
  {
    Item(existing.rowId, existing.fields + item.fields)
  }

  /**
   * `upsertItem`: a row without an id, or with an id no row has, is
   * appended; otherwise the first row with that id is patched in place.
   * Nothing happens without an item.
   */
  function UpsertItem(s: InvoiceState, item: Option<Item>): (r: InvoiceState)
    ensures item.None? ==> r == s
    ensures item.Some? ==> r.changeVersion == s.changeVersion + 1
    ensures |s.items| <= |r.items| <= |s.items| + 1
    ensures item.Some? && IndexOfRow(s.items, item.value.rowId) == -1 ==> r.items == s.items + [item.value]
    ensures item.Some? && item.value.rowId == [] ==> r.items == s.items + [item.value]
    ensures item.Some? && item.value.rowId != [] && IndexOfRow(s.items, item.value.rowId) != -1 ==>
              var k := IndexOfRow(s.items, item.value.rowId);
              r.items == s.items[k := MergeRow(s.items[k], item.value)]
    ensures r.doc == s.doc && r.packedItems == s.packedItems
  {
    if item.None? then s
    else
      var it := item.value;
      if it.rowId == [] then Touch(s.(items := s.items + [it]))
      else
        var k := IndexOfRow(s.items, it.rowId);
        if k == -1 then Touch(s.(items := s.items + [it]))
        else Touch(s.(items := s.items[k := MergeRow(s.items[k], it)]))
  }

  /** The rows whose id is not `id`, in order. */
  function WithoutRow(items: seq<Item>, id: string): (r: seq<Item>)
    ensures |r| <= |items|
    ensures forall row :: row in r <==> row in items && row.rowId != id
    ensures |r| == |items| <==> forall j :: 0 <= j < |items| ==> items[j].rowId != id
  {
    if items == [] then []
    else
      var rest := WithoutRow(items[1..], id);
      assert forall row :: row in items <==> row == items[0] || row in items[1..] by {
        assert items == [items[0]] + items[1..];
      }
      if items[0].rowId == id then rest else [items[0]] + rest
  }

  /**
   * `removeItemByRowId`: every row with the id goes and the others stay
   * in order; when no row has it (or the id is missing) nothing changes,
   * not even the change counter.
   */
  function RemoveItemByRowId(s: InvoiceState, id: string): (r: InvoiceState)
    ensures id == [] || IndexOfRow(s.items, id) == -1 ==> r == s
    ensures id != [] ==> r.items == WithoutRow(s.items, id)
    ensures id != [] ==> forall row :: row in r.items ==> row.rowId != id
    ensures id != [] && IndexOfRow(s.items, id) != -1 ==> r.changeVersion == s.changeVersion + 1 && |r.items| < |s.items|
    ensures r.doc == s.doc && r.packedItems == s.packedItems
  {
    if id == [] then s
    else
      var filtered := WithoutRow(s.items, id);
      if |filtered| != |s.items| then Touch(s.(items := filtered))
      else
        WithoutAbsentRow(s.items, id);
        s
  }

  /** Rows without the id are left untouched by the filter. */
  lemma {:induction false} WithoutAbsentRow(items: seq<Item>, id: string)
    requires forall j :: 0 <= j < |items| ==> items[j].rowId != id
    ensures WithoutRow(items, id) == items
    decreases |items|
  {
    if items != [] {
      var tail := items[1..];
      assert forall j :: 0 <= j < |tail| ==> tail[j] == items[j + 1];
      WithoutAbsentRow(tail, id);
      assert items[0].rowId != id;
      assert items == [items[0]] + tail;
    }
  }

  /** Appending a row with a fresh id and removing that id restores the
      rows. */
  lemma UpsertThenRemove(s: InvoiceState, item: Item)
    requires item.rowId != [] && IndexOfRow(s.items, item.rowId) == -1
    ensures RemoveItemByRowId(UpsertItem(s, Some(item)), item.rowId).items == s.items
  {
    var added := s.items + [item];
    WithoutRowAppend(s.items, [item], item.rowId);
    WithoutAbsentRow(s.items, item.rowId);
    assert WithoutRow([item], item.rowId) == [];
  }

  lemma {:induction false} WithoutRowAppend(a: seq<Item>, b: seq<Item>, id: string)
    ensures WithoutRow(a + b, id) == WithoutRow(a, id) + WithoutRow(b, id)
    decreases |a|
  {
    if a == [] {
      assert a + b == b;
    } else {
      assert (a + b)[1..] == a[1..] + b;
      WithoutRowAppend(a[1..], b, id);
    }
  }

  /** `clearItems`: only a non-empty list counts as a change. */
  function ClearItems(s: InvoiceState): (r: InvoiceState)
    ensures r.items == []
    ensures r.changeVersion == if s.items == [] then s.changeVersion else s.changeVersion + 1
    ensures r.doc == s.doc && r.packedItems == s.packedItems
  {
    if s.items != [] then Touch(s.(items := [])) else s
  }

  function SetPackedItems(s: InvoiceState, list: Option<seq<Item>>): (r: InvoiceState)
    ensures r.packedItems == list.GetOr([]) && r.doc == s.doc && r.items == s.items
    ensures r.changeVersion == s.changeVersion + 1
  {
    Touch(s.(packedItems := list.GetOr([])))
  }

  /** `clear`: back to the initial state, but one change later. */
  function Clear(s: InvoiceState): (r: InvoiceState)
    ensures r == Initial.(changeVersion := s.changeVersion + 1)
  {
    Touch(InvoiceState(None, [], [], s.changeVersion))
  }

  // ---------------------------------------------------------------------
  // Totals (invoiceStore.js:141-166)

  function Qty(item: Item): real
  {
    ToNumber(Field(item, "qty"))
  }

  function LineGross(item: Item): real
  {
    Qty(item) * ToNumber(Field(item, "rate"))
  }

  function LineDiscount(item: Item): real
  {
    RAbs(Qty(item)) * ToNumber(OrZero(Field(item, "discount_amount")))
  }

  /** `totalQty`. */
  function TotalQty(items: seq<Item>): real
  {
    if items == [] then 0.0 else Qty(items[0]) + TotalQty(items[1..])
  }

  /** `grossTotal`: the sum of quantity times rate. */
  function GrossTotal(items: seq<Item>): real
  {
    if items == [] then 0.0 else LineGross(items[0]) + GrossTotal(items[1..])
  }

  /** `discountTotal`: the sum of the quantity's magnitude times the
      discount amount. */
  function DiscountTotal(items: seq<Item>): (r: real)
    ensures (forall j :: 0 <= j < |items| ==> ToNumber(Field(items[j], "discount_amount")) >= 0.0) ==> r >= 0.0
  {
    if items == [] then 0.0
    else
      OrZeroKeepsNumber(Field(items[0], "discount_amount"));
      LineDiscount(items[0]) + DiscountTotal(items[1..])
  }

  /** The totals add up over a split of the rows. */
  lemma {:induction false} TotalsAppend(a: seq<Item>, b: seq<Item>)
    ensures TotalQty(a + b) == TotalQty(a) + TotalQty(b)
    ensures GrossTotal(a + b) == GrossTotal(a) + GrossTotal(b)
    ensures DiscountTotal(a + b) == DiscountTotal(a) + DiscountTotal(b)
    decreases |a|
  {
    if a == [] {
      assert a + b == b;
    } else {
      assert (a + b)[1..] == a[1..] + b;
      TotalsAppend(a[1..], b);
    }
  }

  /** Appending a new row adds its own line to each total. */
  lemma UpsertNewRowAddsLine(s: InvoiceState, item: Item)
    requires item.rowId == [] || IndexOfRow(s.items, item.rowId) == -1
    ensures var r := UpsertItem(s, Some(item));
            TotalQty(r.items) == TotalQty(s.items) + Qty(item)
            && GrossTotal(r.items) == GrossTotal(s.items) + LineGross(item)
            && DiscountTotal(r.items) == DiscountTotal(s.items) + LineDiscount(item)
  {
    TotalsAppend(s.items, [item]);
  }

  /** Removing a row id takes exactly that id's lines off the gross total. */
  lemma {:induction false} GrossTotalSplitsById(items: seq<Item>, id: string)
    ensures GrossTotal(items) == GrossTotal(WithoutRow(items, id)) + GrossTotal(OnlyRow(items, id))
    decreases |items|
  {
    if items != [] {
      GrossTotalSplitsById(items[1..], id);
      var rest := WithoutRow(items[1..], id);
      var only := OnlyRow(items[1..], id);
      if items[0].rowId == id {
        assert OnlyRow(items, id) == [items[0]] + only;
        assert ([items[0]] + only)[1..] == only;
      } else {
        assert WithoutRow(items, id) == [items[0]] + rest;
        assert ([items[0]] + rest)[1..] == rest;
        assert OnlyRow(items, id) == only;
      }
    }
  }

  /** The rows with id `id`, in order. */
  function OnlyRow(items: seq<Item>, id: string): (r: seq<Item>)
    ensures forall row :: row in r ==> row in items && row.rowId == id
  {
    if items == [] then []
    else (if items[0].rowId == id then [items[0]] else []) + OnlyRow(items[1..], id)
  }

  /** Row `k` is the last one with id `id`. */
  predicate LastWith(items: seq<Item>, id: string, k: int)
  {
    0 <= k < |items| && items[k].rowId == id && forall j :: k < j < |items| ==> items[j].rowId != id
  }

  /**
   * `itemsMap`: each row id that occurs maps to the index of its last
   * row (a later row overwrites an earlier one).
   */
  function ItemsIndex(items: seq<Item>): map<string, nat>
    decreases |items|
  {
    if items == [] then map[]
    else
      var n := |items| - 1;
      var front := ItemsIndex(items[..n]);
      if items[n].rowId != [] then front[items[n].rowId := n] else front
  }

  /** Every id in the index is a real id, and it maps to that id's last row. */
  lemma {:induction false} ItemsIndexSound(items: seq<Item>, id: string)
    requires id in ItemsIndex(items)
    ensures id != [] && LastWith(items, id, ItemsIndex(items)[id])
    decreases |items|
  {
    var n := |items| - 1;
    var front := ItemsIndex(items[..n]);
    if items[n].rowId != [] && id == items[n].rowId {
      assert ItemsIndex(items)[id] == n;
    } else {
      assert id in front;
      ItemsIndexSound(items[..n], id);
      var k := front[id];
      assert ItemsIndex(items)[id] == k;
      assert items[k] == items[..n][k];
      forall j | k < j < |items| ensures items[j].rowId != id {
        if j < n {
          assert items[j] == items[..n][j];
        }
      }
    }
  }

  /** Every row with an id has that id in the index. */
  lemma {:induction false} ItemsIndexComplete(items: seq<Item>, j: int)
    requires 0 <= j < |items| && items[j].rowId != []
    ensures items[j].rowId in ItemsIndex(items)
    decreases |items|
  {
    var n := |items| - 1;
    if j < n {
      assert items[j] == items[..n][j];
      ItemsIndexComplete(items[..n], j);
    }
  }
}
