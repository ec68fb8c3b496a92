/**
 * Cart line rules of frontend/src/posapp/composables/useItemAddition.js:
 * removing a line, which existing line an added item merges into and how
 * its quantity changes, moving a line to the top, the quantity sign of a
 * new line, and grouping equal lines. Server lookups, serial and batch
 * selection, bundle expansion and the deferred scheduling of follow-up work are left out.
 */
module ItemAddition {
  import opened Common

  /** A cart line; empty text stands for a missing value. */
  datatype CartLine = CartLine(rowId: string, itemCode: string, uom: string, qty: real, rate: real, amount: real,
                               isOffer: bool, isReplace: bool, batchNo: string, isBundle: bool, bundleId: string)

  /** A packed component of a bundle line. */
  datatype PackedLine = PackedLine(bundleId: string, itemCode: string, qty: real)

  /** The cart: its lines, the bundle components and the row ids of the
      expanded lines. */
  datatype Cart = Cart(items: seq<CartLine>, packedItems: seq<PackedLine>, expanded: seq<string>)

  // ---------------------------------------------------------------------
  // removeItem (useItemAddition.js:40-53)

  /** The index of the first line with the row id, or -1. */
  function IndexOfRow(items: seq<CartLine>, rowId: string): (r: int)
    ensures -1 <= r < |items|
    ensures r >= 0 ==> items[r].rowId == rowId && forall j :: 0 <= j < r ==> items[j].rowId != rowId
    ensures r == -1 ==> forall j :: 0 <= j < |items| ==> items[j].rowId != rowId
  {
    if items == [] then -1
    else if items[0].rowId == rowId then 0
    else
      var k := IndexOfRow(items[1..], rowId);
      if k == -1 then -1 else k + 1
  }

  /** The number of lines with the row id. */
  function RowCount(items: seq<CartLine>, rowId: string): nat
  {
    if items == [] then 0 else (if items[0].rowId == rowId then 1 else 0) + RowCount(items[1..], rowId)
  }

  /**
   * `removeItem`: the first line with the item's row id goes, every
   * packed component of the item's bundle goes when the item is a
   * bundle, and the row id leaves the expanded list.
   */
  function RemoveItem(cart: Cart, item: CartLine): (r: Cart)
    ensures r.items == WithoutFirstRow(cart.items, item.rowId)
    ensures item.isBundle ==> forall p :: p in r.packedItems <==> p in cart.packedItems && p.bundleId != item.bundleId
    ensures !item.isBundle ==> r.packedItems == cart.packedItems
    ensures forall id :: id in r.expanded <==> id in cart.expanded && id != item.rowId
  {
    var items := WithoutFirstRow(cart.items, item.rowId);
    var packed := if item.isBundle then WithoutBundle(cart.packedItems, item.bundleId) else cart.packedItems;
    Cart(items, packed, WithoutId(cart.expanded, item.rowId))
  }

  /** The lines without the first one that has the row id. */
  function WithoutFirstRow(items: seq<CartLine>, rowId: string): seq<CartLine>
  {
    var k := IndexOfRow(items, rowId);
    if k >= 0 then items[..k] + items[k + 1..] else items
  }

  /** The packed components of other bundles, in order. */
  function WithoutBundle(packed: seq<PackedLine>, bundleId: string): (r: seq<PackedLine>)
    ensures |r| <= |packed|
    ensures forall p :: p in r <==> p in packed && p.bundleId != bundleId
  {
    if packed == [] then []
    else (if packed[0].bundleId != bundleId then [packed[0]] else []) + WithoutBundle(packed[1..], bundleId)
  }

  /** The row ids other than `rowId`, in order. */
  function WithoutId(ids: seq<string>, rowId: string): (r: seq<string>)
    ensures |r| <= |ids|
    ensures forall id :: id in r <==> id in ids && id != rowId
  {
    if ids == [] then []
    else (if ids[0] != rowId then [ids[0]] else []) + WithoutId(ids[1..], rowId)
  }

  lemma RowCountSplit(a: seq<CartLine>, b: seq<CartLine>, rowId: string)
    ensures RowCount(a + b, rowId) == RowCount(a, rowId) + RowCount(b, rowId)
  {
    if a != [] {
      assert (a + b)[1..] == a[1..] + b;
      RowCountSplit(a[1..], b, rowId);
    } else {
      assert a + b == b;
    }
  }

  lemma {:induction false} RowCountZero(items: seq<CartLine>, rowId: string)
    requires forall j :: 0 <= j < |items| ==> items[j].rowId != rowId
    ensures RowCount(items, rowId) == 0
  {
    if items != [] {
      RowCountZero(items[1..], rowId);
    }
  }

  /** Removing a line takes out exactly one line with its row id when
      there is one, and leaves the lines alone otherwise. */
  lemma RemoveItemTakesOneLine(cart: Cart, item: CartLine)
    ensures var r := RemoveItem(cart, item);
            RowCount(cart.items, item.rowId) == 0 ==> r.items == cart.items
    ensures var r := RemoveItem(cart, item);
            RowCount(cart.items, item.rowId) > 0 ==>
              |r.items| == |cart.items| - 1 && RowCount(r.items, item.rowId) == RowCount(cart.items, item.rowId) - 1
  {
    var k := IndexOfRow(cart.items, item.rowId);
    if k >= 0 {
      var s := cart.items;
      assert s == s[..k] + [s[k]] + s[k + 1..];
      RowCountSplit(s[..k] + [s[k]], s[k + 1..], item.rowId);
      RowCountSplit(s[..k], [s[k]], item.rowId);
      RowCountSplit(s[..k], s[k + 1..], item.rowId);
      assert [s[k]][1..] == [];
    } else {
      RowCountZero(cart.items, item.rowId);
    }
  }

  // ---------------------------------------------------------------------
  // The merge candidate of addItem (useItemAddition.js:132-154)

  /**
   * An existing line an added item may merge into: same code and unit,
   * neither a free offer line nor a replacement, a positive quantity,
   * and, unless batches are set automatically for this batch item, the
   * same batch (or no batch on either side).
   */
  predicate MergeCandidate(el: CartLine, item: CartLine, autoBatch: bool, hasBatchNo: bool)
  {
    el.itemCode == item.itemCode && el.uom == item.uom && !el.isOffer && !el.isReplace && el.qty > 0.0
    && ((autoBatch && hasBatchNo)
        || (el.batchNo != [] && item.batchNo != [] && el.batchNo == item.batchNo)
        || (el.batchNo == [] && item.batchNo == []))
  }

  /** The line an added item merges into: the first candidate, or -1
      when there is none or a new line is forced. */
  function MergeIndex(items: seq<CartLine>, item: CartLine, autoBatch: bool, hasBatchNo: bool, newLine: bool): (r: int)
    ensures -1 <= r < |items|
    ensures newLine ==> r == -1
    ensures r >= 0 ==> MergeCandidate(items[r], item, autoBatch, hasBatchNo)
                       && forall j :: 0 <= j < r ==> !MergeCandidate(items[j], item, autoBatch, hasBatchNo)
    ensures !newLine && r == -1 ==> forall j :: 0 <= j < |items| ==> !MergeCandidate(items[j], item, autoBatch, hasBatchNo)
  {
    if newLine || items == [] then -1
    else if MergeCandidate(items[0], item, autoBatch, hasBatchNo) then 0
    else
      var k := MergeIndex(items[1..], item, autoBatch, hasBatchNo, newLine);
      if k == -1 then -1 else k + 1
  }

  /** A return line, whose quantity is not positive, never takes a merge. */
  lemma ReturnLinesStaySeparate(items: seq<CartLine>, item: CartLine, autoBatch: bool, hasBatchNo: bool, j: nat)
    requires j < |items| && items[j].qty <= 0.0
    ensures MergeIndex(items, item, autoBatch, hasBatchNo, false) != j
  {
  }

  // ---------------------------------------------------------------------
  // Merged quantity (useItemAddition.js:370-375)

  /** `qty || 1`: an added quantity of 0 counts as 1. */
  function AddedQty(qty: real): (r: real)
    ensures r != 0.0
    ensures qty != 0.0 ==> r == qty
  {
    if qty != 0.0 then qty else 1.0
  }

  /** The merged line's quantity: a return takes the added magnitude
      off, a sale adds the added quantity. */
  function MergeQty(current: real, added: real, isReturn: bool): (r: real)
    ensures isReturn ==> r < current && current - r == RAbs(AddedQty(added))
    ensures !isReturn ==> r - current == AddedQty(added)
  {
    if isReturn then current - RAbs(AddedQty(added)) else current + AddedQty(added)
  }

  /** Adding a positive quantity to a sale line increases it; a return
      line only ever moves further below zero. */
  lemma MergeQtyMonotone(current: real, added: real)
    ensures added > 0.0 ==> MergeQty(current, added, false) > current
    ensures current <= 0.0 ==> MergeQty(current, added, true) < 0.0
  {
  }

  // ---------------------------------------------------------------------
  // moveItemToTop (useItemAddition.js:114-121)

  /** `moveItemToTop`: the first line with the target's row id moves to
      the front; every other line keeps its relative order. */
  function MoveItemToTop(items: seq<CartLine>, rowId: string): (r: seq<CartLine>)
    ensures |r| == |items| && multiset(r) == multiset(items)
    ensures var k := IndexOfRow(items, rowId);
            (k <= 0 ==> r == items)
            && (k > 0 ==> r[0] == items[k] && r[1..] == items[..k] + items[k + 1..])
  {
    var k := IndexOfRow(items, rowId);
    if k <= 0 then items
    else
      assert items == items[..k] + [items[k]] + items[k + 1..];
      [items[k]] + (items[..k] + items[k + 1..])
  }

  /** After the move the target is first, so a second move changes
      nothing. */
  lemma MoveItemToTopIdempotent(items: seq<CartLine>, rowId: string)
    ensures MoveItemToTop(MoveItemToTop(items, rowId), rowId) == MoveItemToTop(items, rowId)
  {
    var r := MoveItemToTop(items, rowId);
    var k := IndexOfRow(items, rowId);
    if k > 0 {
      assert r[0].rowId == rowId;
      assert IndexOfRow(r, rowId) == 0;
    }
  }

  // ---------------------------------------------------------------------
  // getNewItem (useItemAddition.js:437-460, 485)

  /** The quantity of a new line: missing or 0 becomes 1, then a sale is
      made positive and a return negative. */
  datatype NewQty = NewQty(qty: real, stockQty: real)

  function NewItemQty(qty: Option<real>, isReturn: bool): (r: NewQty)
    ensures r.stockQty == r.qty
    ensures !isReturn ==> r.qty > 0.0
    ensures isReturn ==> r.qty < 0.0
    ensures qty.Some? && qty.value != 0.0 ==> RAbs(r.qty) == RAbs(qty.value)
    ensures qty.None? || qty.value == 0.0 ==> RAbs(r.qty) == 1.0
  {
    var q := if qty.Some? && qty.value != 0.0 then qty.value else 1.0;
    var signed := if !isReturn && q < 0.0 then RAbs(q) else if isReturn && q > 0.0 then -RAbs(q) else q;
    NewQty(signed, signed)
  }

  /** A quantity that already has the right sign is kept. */
  lemma NewItemQtyKeepsSignedQty(q: real, isReturn: bool)
    requires if isReturn then q < 0.0 else q > 0.0
    ensures NewItemQty(Some(q), isReturn).qty == q
  {
  }

  // ---------------------------------------------------------------------
  // groupAndAddItem (useItemAddition.js:565-580)

  predicate SameGroup(a: CartLine, b: CartLine)
  {
    a.itemCode == b.itemCode && a.uom == b.uom && a.rate == b.rate
  }

  function FirstInGroup(items: seq<CartLine>, item: CartLine): (r: int)
    ensures -1 <= r < |items|
    ensures r >= 0 ==> SameGroup(items[r], item) && forall j :: 0 <= j < r ==> !SameGroup(items[j], item)
    ensures r == -1 ==> forall j :: 0 <= j < |items| ==> !SameGroup(items[j], item)
  {
    if items == [] then -1
    else if SameGroup(items[0], item) then 0
    else
      var k := FirstInGroup(items[1..], item);
      if k == -1 then -1 else k + 1
  }

  /**
   * `groupAndAddItem`: the first line with the same code, unit and rate
   * grows by the new quantity (1 when it is 0) and its amount follows;
   * with no such line a copy of the new line is appended.
   */
  function GroupAndAddItem(items: seq<CartLine>, newItem: CartLine): (r: seq<CartLine>)
    ensures var k := FirstInGroup(items, newItem);
            (k == -1 ==> r == items + [newItem])
            && (k >= 0 ==> |r| == |items| && r[k].qty == items[k].qty + AddedQty(newItem.qty)
                           && r[k].amount == r[k].qty * r[k].rate
                           && forall j :: 0 <= j < |items| && j != k ==> r[j] == items[j])
  {
    var k := FirstInGroup(items, newItem);
    if k == -1 then items + [newItem]
    else
      var qty := items[k].qty + AddedQty(newItem.qty);
      items[k := items[k].(qty := qty, amount := qty * items[k].rate)]
  }

  function TotalQty(items: seq<CartLine>): real
  {
    if items == [] then 0.0 else TotalQty(items[..|items| - 1]) + items[|items| - 1].qty
  }

  lemma {:induction false} TotalQtyUpdate(items: seq<CartLine>, k: nat, line: CartLine)
    requires k < |items|
    ensures TotalQty(items[k := line]) == TotalQty(items) - items[k].qty + line.qty
  {
    var n := |items|;
    var u := items[k := line];
    assert u[..n - 1] == if k == n - 1 then items[..n - 1] else items[..n - 1][k := line];
    if k < n - 1 {
      TotalQtyUpdate(items[..n - 1], k, line);
    }
  }

  /** The quantities in the cart grow by exactly the added quantity (1
      for a 0 merged into an existing group). */
  lemma GroupAndAddItemAddsQty(items: seq<CartLine>, newItem: CartLine)
    ensures TotalQty(GroupAndAddItem(items, newItem))
            == TotalQty(items) + (if FirstInGroup(items, newItem) >= 0 then AddedQty(newItem.qty) else newItem.qty)
  {
    var k := FirstInGroup(items, newItem);
    var r := GroupAndAddItem(items, newItem);
    if k >= 0 {
      TotalQtyUpdate(items, k, r[k]);
    } else {
      assert r[..|r| - 1] == items;
    }
  }
}
