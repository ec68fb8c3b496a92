/**
 * The cart snapshots of frontend/src/posapp/components/pos/invoiceWatchers.js:
 * a snapshot records, per row id, the quantities and the offer-relevant
 * metadata; diffing two snapshots yields the rows whose offers must be
 * re-evaluated. Also the watcher that turns an additional discount amount
 * into a percentage.
 */
module InvoiceWatchers {
  import opened Common

  /** The fields of a row an offer depends on (`snapshot.meta[rowId]`).
      JSON equality of two such objects is equality of the fields. */
  datatype Meta = Meta(itemCode: string, itemGroup: string, brand: string, uom: string,
                       conversionFactor: real, priceListRate: real, stockQty: real,
                       isOffer: bool, isReplace: bool)

  /** A cart row; an empty row id stands for a missing one. */
  datatype CartRow = CartRow(rowId: string, qty: real, stockQty: real, meta: Meta)

  datatype Snapshot = Snapshot(order: seq<string>, qty: map<string, real>, stockQty: map<string, real>,
                               meta: map<string, Meta>)

  const EmptySnapshot := Snapshot([], map[], map[], map[])

  /** A lookup that may find nothing (`undefined`). */
  function Get<V>(m: map<string, V>, k: string): Option<V>
  {
    if k in m then Some(m[k]) else None
  }

  /** The row ids of the rows that have one, in cart order. */
  function RowIds(items: seq<CartRow>): (r: seq<string>)
    ensures |r| <= |items|
  {
    if items == [] then []
    else (if items[0].rowId != [] then [items[0].rowId] else []) + RowIds(items[1..])
  }

  lemma {:induction false} RowIdsMembers(items: seq<CartRow>)
    ensures forall id :: id in RowIds(items) ==> id != [] && exists row :: row in items && row.rowId == id
    ensures forall row :: row in items && row.rowId != [] ==> row.rowId in RowIds(items)
    decreases |items|
  {
    if items != [] {
      RowIdsMembers(items[1..]);
      assert items == [items[0]] + items[1..];
    }
  }

  /**
   * `buildSnapshot`: the row ids in cart order, skipping rows without one,
   * and per id the quantities and metadata of the last row with that id.
   */
  function BuildSnapshot(items: seq<CartRow>): (r: Snapshot)
    ensures r.order == RowIds(items)
    decreases |items|
  {
    if items == [] then EmptySnapshot
    else
      var last := items[|items| - 1];
      var front := BuildSnapshot(items[..|items| - 1]);
      assert RowIds(items) == RowIds(items[..|items| - 1]) + (if last.rowId != [] then [last.rowId] else []) by {
        RowIdsSnoc(items[..|items| - 1], last);
        assert items[..|items| - 1] + [last] == items;
      }
      if last.rowId == [] then front
      else
        Snapshot(front.order + [last.rowId], front.qty[last.rowId := last.qty],
                 front.stockQty[last.rowId := last.stockQty], front.meta[last.rowId := last.meta])
  }

  /** The snapshot holds `row`'s quantities and metadata under its id. */
  predicate Records(s: Snapshot, row: CartRow)
  {
    Get(s.qty, row.rowId) == Some(row.qty) && Get(s.stockQty, row.rowId) == Some(row.stockQty)
    && Get(s.meta, row.rowId) == Some(row.meta)
  }

  /** The snapshot records the values of the last row with each id. */
  lemma {:induction false} SnapshotKeepsLastRow(items: seq<CartRow>, k: int)
    requires 0 <= k < |items| && items[k].rowId != []
    requires forall j :: k < j < |items| ==> items[j].rowId != items[k].rowId
    ensures Records(BuildSnapshot(items), items[k])
    decreases |items|, 1
  {
    var n := |items| - 1;
    SnapshotSnoc(items);
    if k < n {
      FrontKeepsRow(items, k);
      RecordsAfterOtherRow(BuildSnapshot(items[..n]), BuildSnapshot(items), items[k], items[n]);
    }
  }

  /** A row followed by rows of other ids is recorded already in the
      snapshot of the cart without its last row. */
  lemma {:induction false} FrontKeepsRow(items: seq<CartRow>, k: int)
    requires 0 <= k < |items| - 1 && items[k].rowId != []
    requires forall j :: k < j < |items| ==> items[j].rowId != items[k].rowId
    ensures Records(BuildSnapshot(items[..|items| - 1]), items[k])
    ensures items[|items| - 1].rowId != items[k].rowId
    decreases |items|, 0
  {
    var front := items[..|items| - 1];
    assert front[k] == items[k];
    forall j | k < j < |front| ensures front[j].rowId != front[k].rowId {
      assert front[j] == items[j];
    }
    SnapshotKeepsLastRow(front, k);
  }

  /** Recording another id's row keeps what the snapshot holds for `row`. */
  lemma RecordsAfterOtherRow(fs: Snapshot, s: Snapshot, row: CartRow, last: CartRow)
    requires Records(fs, row) && last.rowId != row.rowId
    requires last.rowId == [] ==> s == fs
    requires last.rowId != [] ==> s.qty == fs.qty[last.rowId := last.qty]
                                  && s.stockQty == fs.stockQty[last.rowId := last.stockQty]
                                  && s.meta == fs.meta[last.rowId := last.meta]
    ensures Records(s, row)
  {
  }

  /** Exactly the ids in the snapshot's order have recorded values. */
  lemma {:induction false} SnapshotDomains(items: seq<CartRow>)
    ensures var s := BuildSnapshot(items);
            (forall id :: id in s.qty <==> id in s.order)
            && (forall id :: id in s.stockQty <==> id in s.order)
            && (forall id :: id in s.meta <==> id in s.order)
    decreases |items|
  {
    if items != [] {
      SnapshotDomains(items[..|items| - 1]);
      SnapshotSnoc(items);
    }
  }

  /** The snapshot of a cart is the snapshot of all but its last row,
      with the last row's values recorded under its id. */
  lemma SnapshotSnoc(items: seq<CartRow>)
    requires items != []
    ensures var last := items[|items| - 1];
            var fs := BuildSnapshot(items[..|items| - 1]);
            var s := BuildSnapshot(items);
            (last.rowId == [] ==> s == fs)
            && (last.rowId != [] ==> s.qty == fs.qty[last.rowId := last.qty]
                                     && s.stockQty == fs.stockQty[last.rowId := last.stockQty]
                                     && s.meta == fs.meta[last.rowId := last.meta])
  {
  }

  lemma {:induction false} RowIdsSnoc(items: seq<CartRow>, last: CartRow)
    ensures RowIds(items + [last]) == RowIds(items) + (if last.rowId != [] then [last.rowId] else [])
    decreases |items|
  {
    if items == [] {
      assert [last][1..] == [];
    } else {
      RowIdsSnoc(items[1..], last);
      assert (items + [last])[1..] == items[1..] + [last];
    }
  }

  /** A row present in both snapshots is changed when its quantity, stock
      quantity or metadata differs. */
  predicate RowDiffers(prev: Snapshot, curr: Snapshot, id: string)
  {
    Get(prev.qty, id) != Get(curr.qty, id) || Get(prev.stockQty, id) != Get(curr.stockQty, id)
    || Get(prev.meta, id) != Get(curr.meta, id)
  }

  function Added(currOrder: seq<string>, prevOrder: seq<string>): (r: set<string>)
    ensures forall id :: id in r <==> id in currOrder && id !in prevOrder
  {
    if currOrder == [] then {}
    else
      assert forall id :: id in currOrder <==> id == currOrder[0] || id in currOrder[1..] by {
        assert currOrder == [currOrder[0]] + currOrder[1..];
      }
      (if currOrder[0] !in prevOrder then {currOrder[0]} else {}) + Added(currOrder[1..], prevOrder)
  }

  function Modified(currOrder: seq<string>, prev: Snapshot, curr: Snapshot): (r: set<string>)
    ensures forall id :: id in r <==> id in currOrder && RowDiffers(prev, curr, id)
  {
    if currOrder == [] then {}
    else
      assert forall id :: id in currOrder <==> id == currOrder[0] || id in currOrder[1..] by {
        assert currOrder == [currOrder[0]] + currOrder[1..];
      }
      (if RowDiffers(prev, curr, currOrder[0]) then {currOrder[0]} else {}) + Modified(currOrder[1..], prev, curr)
  }

  function RemovedInfo(prevOrder: seq<string>, currOrder: seq<string>, prevMeta: map<string, Meta>): (r: map<string, Meta>)
    ensures forall id :: id in r <==> id in prevOrder && id !in currOrder && id in prevMeta
    ensures forall id :: id in r ==> r[id] == prevMeta[id]
  {
    if prevOrder == [] then map[]
    else
      var rest := RemovedInfo(prevOrder[1..], currOrder, prevMeta);
      var id0 := prevOrder[0];
      assert forall id :: id in prevOrder <==> id == id0 || id in prevOrder[1..] by {
        assert prevOrder == [id0] + prevOrder[1..];
      }
      if id0 !in currOrder && id0 in prevMeta then rest[id0 := prevMeta[id0]] else rest
  }

  datatype Diff = Diff(changed: set<string>, removedInfo: map<string, Meta>)

  /**
   * `diffSnapshots` (a missing previous snapshot is the empty one): the
   * added rows, the removed rows with their previous metadata, and the
   * rows whose recorded values differ.
   */
  function DiffSnapshots(previous: Option<Snapshot>, current: Snapshot): (r: Diff)
    ensures var prev := previous.GetOr(EmptySnapshot);
            forall id :: id in r.changed <==>
              (id in current.order && id !in prev.order) || (id in prev.order && id !in current.order)
              || (id in current.order && RowDiffers(prev, current, id))
    ensures var prev := previous.GetOr(EmptySnapshot);
            forall id :: id in r.removedInfo <==> id in prev.order && id !in current.order && id in prev.meta
    ensures forall id :: id in r.removedInfo ==> id in r.changed
  {
    var prev := previous.GetOr(EmptySnapshot);
    var removed := RemovedInfo(prev.order, current.order, prev.meta);
    Diff(Added(current.order, prev.order) + Added(prev.order, current.order) + Modified(current.order, prev, current),
         removed)
  }

  /** A snapshot compared with itself has no changes. */
  lemma DiffSelfEmpty(s: Snapshot)
    ensures DiffSnapshots(Some(s), s) == Diff({}, map[])
  {
    var d := DiffSnapshots(Some(s), s);
    assert forall id :: id !in d.changed;
    assert d.removedInfo.Keys == {};
  }

  /** Without a previous snapshot every current row is changed and nothing
      is removed. */
  lemma DiffFromNothing(s: Snapshot)
    ensures DiffSnapshots(None, s).changed == set id | id in s.order
    ensures DiffSnapshots(None, s).removedInfo == map[]
  {
    var d := DiffSnapshots(None, s);
    assert d.removedInfo.Keys == {};
  }

  /** A row kept with identical quantities and metadata is not changed. */
  lemma UnchangedRowNotReported(items: seq<CartRow>, prev: Snapshot, id: string)
    requires id in prev.order && id in BuildSnapshot(items).order
    requires !RowDiffers(prev, BuildSnapshot(items), id)
    ensures id !in DiffSnapshots(Some(prev), BuildSnapshot(items)).changed
  {
  }

  // ---------------------------------------------------------------------
  // The `additional_discount` watcher (invoiceWatchers.js:182-207)

  /**
   * The percentage shown for an additional discount amount: 0 for no
   * discount, outside percentage mode or for a zero total; otherwise the
   * amount as a percentage of the total (of its magnitude for returns),
   * forced non-positive for returns.
   */
  function DiscountPercentage(discount: real, usePercentage: bool, total: real, isReturn: bool): (r: real)
    ensures discount == 0.0 || !usePercentage || total == 0.0 ==> r == 0.0
    ensures isReturn ==> r <= 0.0
    ensures usePercentage && !isReturn && total != 0.0 ==> r * total == discount * 100.0
    ensures usePercentage && isReturn && total != 0.0 ==> r * RAbs(total) == -RAbs(discount * 100.0)
  {
    if discount == 0.0 then 0.0
    else if usePercentage then
      var baseTotal := if total != 0.0 then (if isReturn then RAbs(total) else total) else 0.0;
      if baseTotal != 0.0 then
        var computed := discount / baseTotal * 100.0;
        if isReturn then
          assert RAbs(computed) * baseTotal == RAbs(discount * 100.0) by { RAbsQuotient(discount, baseTotal); }
          -RAbs(computed)
        else computed
      else 0.0
    else 0.0
  }

  lemma RAbsQuotient(a: real, b: real)
    requires b > 0.0
    ensures RAbs(a / b * 100.0) * b == RAbs(a * 100.0)
  {
    if a < 0.0 {
      assert a / b < 0.0;
    } else {
      assert a / b >= 0.0;
    }
  }
}
