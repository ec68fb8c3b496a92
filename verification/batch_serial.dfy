/**
 * Batch and serial selection of
 * frontend/src/posapp/composables/useBatchSerial.js: the quantity left in
 * each batch once the other cart rows of the same item are counted, the
 * expiry-first (FEFO) order of the batches, the batch chosen for a row,
 * and the serial-number text of a row.
 */
module BatchSerial {
  import opened Common
  import opened Numerals

  // ---------------------------------------------------------------------
  // Serial numbers (useBatchSerial.js:5-18)

  /** The serial numbers, each followed by a line break. */
  function SerialText(serials: seq<string>): string
  {
    if serials == [] then [] else serials[0] + "\n" + SerialText(serials[1..])
  }

  /** The text up to the first line break, and what follows it. */
  function FirstLine(s: string): (r: (string, string))
    ensures |r.0| <= |s|
    ensures |r.1| < |s| || (r.1 == [] && s == r.0)
    ensures '\n' !in r.0
  {
    if s == [] then ([], [])
    else if s[0] == '\n' then ([], s[1..])
    else
      var (line, rest) := FirstLine(s[1..]);
      ([s[0]] + line, rest)
  }

  /** The serial numbers written in a serial-number text, one per line. */
  function SerialLines(s: string): seq<string>
    decreases |s|
  {
    if s == [] then []
    else
      var (line, rest) := FirstLine(s);
      if |rest| < |s| then [line] + SerialLines(rest) else [line]
  }

  lemma {:induction false} FirstLineOfJoin(x: string, tail: string)
    requires '\n' !in x
    ensures FirstLine(x + "\n" + tail) == (x, tail)
    decreases |x|
  {
    if x == [] {
      assert x + "\n" + tail == ['\n'] + tail;
    } else {
      assert (x + "\n" + tail)[1..] == x[1..] + "\n" + tail;
      FirstLineOfJoin(x[1..], tail);
      assert [x[0]] + x[1..] == x;
    }
  }

  /** Serial numbers without line breaks are read back from the text
      exactly. */
  lemma {:induction false} SerialTextRoundTrip(serials: seq<string>)
    requires forall k :: 0 <= k < |serials| ==> '\n' !in serials[k]
    ensures SerialLines(SerialText(serials)) == serials
    decreases |serials|
  {
    if serials != [] {
      var tail := SerialText(serials[1..]);
      FirstLineOfJoin(serials[0], tail);
      SerialTextRoundTrip(serials[1..]);
      assert serials == [serials[0]] + serials[1..];
    }
  }

  datatype SerialRow = SerialRow(hasSerialNo: bool, selected: seq<string>, serialNo: string,
                                 selectedCount: nat, qty: real, stockQty: real)

  /**
   * `setSerialNo`: a row without serial numbers is left alone; otherwise
   * the text lists the selected serials, the count is their number, and
   * the quantity becomes the count when it differs from the stock
   * quantity.
   */
  function SetSerialNo(row: SerialRow): (r: SerialRow)
    ensures !row.hasSerialNo ==> r == row
    ensures row.hasSerialNo ==> r.selected == row.selected && r.selectedCount == |row.selected|
    ensures row.hasSerialNo && (forall k :: 0 <= k < |row.selected| ==> '\n' !in row.selected[k]) ==>
              SerialLines(r.serialNo) == row.selected
    ensures row.hasSerialNo ==> r.qty == (if |row.selected| as real != row.stockQty then |row.selected| as real else row.qty)
    ensures r.stockQty == row.stockQty
  {
    if !row.hasSerialNo then row
    else
      var count := |row.selected|;
      SerialTextRoundTripIfClean(row.selected);
      row.(serialNo := SerialText(row.selected), selectedCount := count,
           qty := if count as real != row.stockQty then count as real else row.qty)
  }

  lemma SerialTextRoundTripIfClean(serials: seq<string>)
    ensures (forall k :: 0 <= k < |serials| ==> '\n' !in serials[k]) ==> SerialLines(SerialText(serials)) == serials
  {
    if forall k :: 0 <= k < |serials| ==> '\n' !in serials[k] {
      SerialTextRoundTrip(serials);
    }
  }

  /** Setting the serial numbers twice is setting them once. */
  lemma SetSerialNoIdempotent(row: SerialRow)
    ensures SetSerialNo(SetSerialNo(row)) == SetSerialNo(row)
  {
  }

  // ---------------------------------------------------------------------
  // Remaining batch quantities (useBatchSerial.js:21-43)

  /** A batch as the item's `batch_no_data` lists it; dates are day
      numbers. */
  datatype Batch = Batch(batchNo: string, batchQty: real, expiry: Option<int>, manufactured: Option<int>,
                         batchPrice: real, remaining: real)

  /** The cart rows the count looks at; an empty batch number is none. */
  datatype CartLine = CartLine(rowId: string, itemCode: string, batchNo: string, qty: real)

  /** The quantity of `batchNo` already taken by the other rows of the
      same item. */
  function UsedQty(cart: seq<CartLine>, itemCode: string, rowId: string, batchNo: string): real
  {
    if cart == [] then 0.0
    else
      var l := cart[0];
      (if l.itemCode == itemCode && l.rowId != rowId && l.batchNo != [] && l.batchNo == batchNo then l.qty else 0.0)
      + UsedQty(cart[1..], itemCode, rowId, batchNo)
  }

  /** Rows of other items, the row itself and rows of other batches take
      nothing from a batch. */
  lemma {:induction false} UsedQtyIgnoresOthers(cart: seq<CartLine>, extra: CartLine, itemCode: string, rowId: string, batchNo: string)
    requires extra.itemCode != itemCode || extra.rowId == rowId || extra.batchNo != batchNo
    ensures UsedQty(cart + [extra], itemCode, rowId, batchNo) == UsedQty(cart, itemCode, rowId, batchNo)
    decreases |cart|
  {
    if cart == [] {
      assert [extra][1..] == [];
    } else {
      assert (cart + [extra])[1..] == cart[1..] + [extra];
      UsedQtyIgnoresOthers(cart[1..], extra, itemCode, rowId, batchNo);
    }
  }

  /** A batch with the quantity the other rows use deducted (both
      `batch_qty` and `remaining_qty` are reduced). */
  function WithRemaining(b: Batch, cart: seq<CartLine>, itemCode: string, rowId: string): (r: Batch)
    ensures r.remaining == b.batchQty - UsedQty(cart, itemCode, rowId, b.batchNo)
    ensures r.batchQty == r.remaining
    ensures r.batchNo == b.batchNo && r.expiry == b.expiry && r.manufactured == b.manufactured
  {
    var used := UsedQty(cart, itemCode, rowId, b.batchNo);
    b.(batchQty := b.batchQty - used, remaining := b.batchQty - used)
  }

  /** The batch numbers of `s`, in order. */
  function Numbers(s: seq<Batch>): (r: seq<string>)
    ensures |r| == |s| && forall i :: 0 <= i < |s| ==> r[i] == s[i].batchNo
  {
    seq(|s|, i requires 0 <= i < |s| => s[i].batchNo)
  }

  /** The position of the last batch of `bs` numbered `k`, if any. */
  function LastIndex(bs: seq<Batch>, k: string): (r: Option<nat>)
    ensures r.Some? ==> r.value < |bs| && bs[r.value].batchNo == k
                        && forall j :: r.value < j < |bs| ==> bs[j].batchNo != k
    ensures r.None? ==> forall j :: 0 <= j < |bs| ==> bs[j].batchNo != k
  {
    if bs == [] then None
    else if bs[|bs| - 1].batchNo == k then Some(|bs| - 1)
    else LastIndex(bs[..|bs| - 1], k)
  }

  /** A JavaScript object keyed by batch number: its string keys in the
      order they were created and the value under each. */
  datatype KeyedBatches = KeyedBatches(keys: seq<string>, vals: map<string, Batch>)

  /** Each key once, the same keys in both parts, and every value filed
      under its own batch number. */
  predicate WellKeyed(o: KeyedBatches)
  {
    Distinct(o.keys)
    && (forall k :: k in o.keys ==> k in o.vals)
    && (forall k :: k in o.vals ==> k in o.keys)
    && (forall k :: k in o.vals ==> o.vals[k].batchNo == k)
  }

  /** `used_batches[v.batch_no] = v`: a new key is created after the
      others; an existing key keeps its place and its value is replaced. */
  function Assign(o: KeyedBatches, v: Batch): (r: KeyedBatches)
    requires WellKeyed(o)
    ensures WellKeyed(r)
    ensures r.keys == if v.batchNo in o.keys then o.keys else o.keys + [v.batchNo]
    ensures r.vals.Keys == o.vals.Keys + {v.batchNo} && r.vals[v.batchNo] == v
    ensures forall k :: k in o.vals && k != v.batchNo ==> r.vals[k] == o.vals[k]
  {
    if v.batchNo in o.vals then KeyedBatches(o.keys, o.vals[v.batchNo := v])
    else
      var r := KeyedBatches(o.keys + [v.batchNo], o.vals[v.batchNo := v]);
      assert Distinct(r.keys) by {
        forall i, j | 0 <= i < j < |r.keys| ensures r.keys[i] != r.keys[j] {
          if j == |o.keys| { assert r.keys[i] in o.keys; }
        }
      }
      r
  }

  /**
   * The object `used_batches` of `setBatchQty`: every listed batch, less
   * what the other rows of the item use, assigned under its batch number
   * in list order.
   */
  function UsedBatches(batches: seq<Batch>, cart: seq<CartLine>, itemCode: string, rowId: string): (r: KeyedBatches)
    ensures WellKeyed(r)
    decreases |batches|
  {
    if batches == [] then KeyedBatches([], map[])
    else
      var n := |batches| - 1;
      Assign(UsedBatches(batches[..n], cart, itemCode, rowId), WithRemaining(batches[n], cart, itemCode, rowId))
  }

  /** A batch number has a last listing in `bs + [b]` exactly when it is
      `b`'s or has one in `bs`. */
  lemma LastIndexSnoc(bs: seq<Batch>, k: string)
    requires bs != [] && bs[|bs| - 1].batchNo != k
    ensures LastIndex(bs, k) == LastIndex(bs[..|bs| - 1], k)
  {
  }

  lemma NumbersSnoc(bs: seq<Batch>)
    requires bs != []
    ensures Numbers(bs) == Numbers(bs[..|bs| - 1]) + [bs[|bs| - 1].batchNo]
  {
  }

  /** The keys are the batch numbers in order of first listing. */
  lemma {:induction false} UsedBatchesKeys(batches: seq<Batch>, cart: seq<CartLine>, itemCode: string, rowId: string)
    ensures UsedBatches(batches, cart, itemCode, rowId).keys == Dedup(Numbers(batches), {})
    decreases |batches|
  {
    if batches != [] {
      var n := |batches| - 1;
      var prefix := batches[..n];
      var o := UsedBatches(prefix, cart, itemCode, rowId);
      var last := batches[n];
      var v := WithRemaining(last, cart, itemCode, rowId);
      UsedBatchesKeys(prefix, cart, itemCode, rowId);
      NumbersSnoc(batches);
      DedupSnoc(Numbers(prefix), last.batchNo, {});
      DedupMembers(Numbers(prefix));
      assert UsedBatches(batches, cart, itemCode, rowId) == Assign(o, v);
    }
  }

  /** The value under each key is the batch listed last under it, less
      what the other rows use. */
  lemma {:induction false} UsedBatchesValues(batches: seq<Batch>, cart: seq<CartLine>, itemCode: string, rowId: string)
    ensures forall k :: k in UsedBatches(batches, cart, itemCode, rowId).vals <==> LastIndex(batches, k).Some?
    ensures forall k :: k in UsedBatches(batches, cart, itemCode, rowId).vals ==>
              UsedBatches(batches, cart, itemCode, rowId).vals[k]
                == WithRemaining(batches[LastIndex(batches, k).value], cart, itemCode, rowId)
    decreases |batches|
  {
    if batches != [] {
      var n := |batches| - 1;
      var prefix := batches[..n];
      UsedBatchesValues(prefix, cart, itemCode, rowId);
      forall k | k != batches[n].batchNo ensures LastIndex(batches, k) == LastIndex(prefix, k) {
        LastIndexSnoc(batches, k);
      }
    }
  }

  // ---------------------------------------------------------------------
  // Object.values order (section 10.1.11.1 of ECMA-262)

  /** The number a key names, read as decimal digits (0 for other text). */
  function KeyNumber(k: string): nat
  {
    if AllDigits(k) then DigitsValue(k) else 0
  }

  /** An array index in the sense of section 6.1.7 of ECMA-262: the
      canonical decimal numeral of an integer below 2^32 - 1. */
  predicate IsIndexKey(k: string)
  {
    k != [] && AllDigits(k) && (k[0] != '0' || |k| == 1) && KeyNumber(k) < 0xFFFF_FFFF
  }

  /** Any other key. */
  predicate IsNamedKey(k: string)
  {
    !IsIndexKey(k)
  }

  predicate IndexAscending(s: seq<string>)
  {
    forall i, j :: 0 <= i < j < |s| ==> KeyNumber(s[i]) <= KeyNumber(s[j])
  }

  function InsertKey(k: string, s: seq<string>): (r: seq<string>)
    ensures multiset(r) == multiset(s) + multiset{k}
    decreases |s|
  {
    if s == [] then [k]
    else if KeyNumber(k) <= KeyNumber(s[0]) then [k] + s
    else
      assert s == [s[0]] + s[1..];
      [s[0]] + InsertKey(k, s[1..])
  }

  lemma {:induction false} InsertKeyAscending(k: string, s: seq<string>)
    requires IndexAscending(s)
    ensures IndexAscending(InsertKey(k, s))
    decreases |s|
  {
    if s != [] {
      if KeyNumber(k) <= KeyNumber(s[0]) {
        AscendingCons(k, s);
      } else {
        var tail := s[1..];
        AscendingTail(s);
        InsertKeyAscending(k, tail);
        InsertKeyAbove(s[0], k, tail);
        AscendingCons(s[0], InsertKey(k, tail));
      }
    }
  }

  lemma AscendingCons(h: string, rest: seq<string>)
    requires IndexAscending(rest)
    requires forall j :: 0 <= j < |rest| ==> KeyNumber(h) <= KeyNumber(rest[j])
    ensures IndexAscending([h] + rest)
  {
    var r := [h] + rest;
    forall i, j | 0 <= i < j < |r| ensures KeyNumber(r[i]) <= KeyNumber(r[j]) {
      assert r[j] == rest[j - 1];
      if i > 0 { assert r[i] == rest[i - 1]; }
    }
  }

  lemma AscendingTail(s: seq<string>)
    requires s != [] && IndexAscending(s)
    ensures IndexAscending(s[1..])
    ensures forall j :: 0 <= j < |s[1..]| ==> KeyNumber(s[0]) <= KeyNumber(s[1..][j])
  {
    var tail := s[1..];
    forall i, j | 0 <= i < j < |tail| ensures KeyNumber(tail[i]) <= KeyNumber(tail[j]) {
      assert tail[i] == s[i + 1] && tail[j] == s[j + 1];
    }
    forall j | 0 <= j < |tail| ensures KeyNumber(s[0]) <= KeyNumber(tail[j]) {
      assert tail[j] == s[j + 1];
    }
  }

  /** A key numbered no higher than the inserted key and the whole list
      stays no higher than everything the insertion yields. */
  lemma InsertKeyAbove(h: string, k: string, s: seq<string>)
    requires KeyNumber(h) <= KeyNumber(k)
    requires forall j :: 0 <= j < |s| ==> KeyNumber(h) <= KeyNumber(s[j])
    ensures forall j :: 0 <= j < |InsertKey(k, s)| ==> KeyNumber(h) <= KeyNumber(InsertKey(k, s)[j])
  {
    var r := InsertKey(k, s);
    forall j | 0 <= j < |r| ensures KeyNumber(h) <= KeyNumber(r[j]) {
      assert r[j] in multiset(r);
      if r[j] != k {
        assert r[j] in multiset(s);
        var m :| 0 <= m < |s| && s[m] == r[j];
      }
    }
  }

  /** The array-index keys in ascending numeric order. */
  function SortIndexKeys(s: seq<string>): (r: seq<string>)
    ensures multiset(r) == multiset(s)
    ensures IndexAscending(r)
  {
    if s == [] then []
    else
      assert s == [s[0]] + s[1..];
      InsertKeyAscending(s[0], SortIndexKeys(s[1..]));
      InsertKey(s[0], SortIndexKeys(s[1..]))
  }

  /** The order of an object's own string keys: the array indices in
      ascending numeric order, then the other keys in creation order. */
  function OwnKeys(keys: seq<string>): seq<string>
  {
    SortIndexKeys(Keep(keys, IsIndexKey)) + Keep(keys, IsNamedKey)
  }

  /** Key `a` comes before key `b` in an object whose keys were created
      in the order of first occurrence in `created`. */
  predicate KeyBefore(a: string, b: string, created: seq<string>)
  {
    if IsIndexKey(a) && IsIndexKey(b) then KeyNumber(a) <= KeyNumber(b)
    else if IsIndexKey(a) then true
    else if IsIndexKey(b) then false
    else a in created && b in created && FirstPos(created, a) < FirstPos(created, b)
  }

  /** The own keys of an object are its keys, each once. */
  lemma OwnKeysMembers(keys: seq<string>)
    requires Distinct(keys)
    ensures Distinct(OwnKeys(keys))
    ensures forall k :: k in OwnKeys(keys) <==> k in keys
  {
    var idx := Keep(keys, IsIndexKey);
    var named := Keep(keys, IsNamedKey);
    var sorted := SortIndexKeys(idx);
    KeepSound(keys, IsIndexKey);
    KeepSound(keys, IsNamedKey);
    KeepComplete(keys, IsIndexKey);
    KeepComplete(keys, IsNamedKey);
    KeepDistinct(keys, IsIndexKey);
    KeepDistinct(keys, IsNamedKey);
    SortIndexKeysMembers(idx);
    DistinctConcat(sorted, named);
  }

  /** Sorting the index keys keeps each of them, once. */
  lemma SortIndexKeysMembers(idx: seq<string>)
    requires Distinct(idx)
    ensures Distinct(SortIndexKeys(idx))
    ensures forall k :: k in SortIndexKeys(idx) <==> k in idx
  {
    var sorted := SortIndexKeys(idx);
    DistinctPermutation(idx, sorted);
    forall k ensures k in sorted <==> k in idx {
      assert k in sorted <==> k in multiset(sorted);
    }
  }

  /** The own keys come in key order when the keys were created in order
      of first occurrence in `created`. */
  lemma OwnKeysOrdered(created: seq<string>)
    ensures var o := OwnKeys(Dedup(created, {}));
            forall i, j :: 0 <= i < j < |o| ==> KeyBefore(o[i], o[j], created)
  {
    var keys := Dedup(created, {});
    var named := Keep(keys, IsNamedKey);
    var sorted := SortIndexKeys(Keep(keys, IsIndexKey));
    var o := sorted + named;
    IndexKeysSorted(keys);
    NamedKeysInCreationOrder(created, named);
    forall i, j | 0 <= i < j < |o| ensures KeyBefore(o[i], o[j], created) {
      if j < |sorted| {
        assert o[i] == sorted[i] && o[j] == sorted[j];
        assert IsIndexKey(sorted[i]) && IsIndexKey(sorted[j]);
        assert KeyNumber(sorted[i]) <= KeyNumber(sorted[j]);
      } else if i < |sorted| {
        assert o[i] == sorted[i] && o[j] == named[j - |sorted|];
        assert IsIndexKey(sorted[i]) && IsNamedKey(named[j - |sorted|]);
      } else {
        var a, b := named[i - |sorted|], named[j - |sorted|];
        assert o[i] == a && o[j] == b;
        assert IsNamedKey(a) && IsNamedKey(b);
        assert a in created && b in created && FirstPos(created, a) < FirstPos(created, b);
      }
    }
  }

  /** The sorted index keys are index keys, in ascending numeric order. */
  lemma IndexKeysSorted(keys: seq<string>)
    ensures forall i :: 0 <= i < |SortIndexKeys(Keep(keys, IsIndexKey))| ==> IsIndexKey(SortIndexKeys(Keep(keys, IsIndexKey))[i])
  {
    var idx := Keep(keys, IsIndexKey);
    var sorted := SortIndexKeys(idx);
    KeepSound(keys, IsIndexKey);
    forall i | 0 <= i < |sorted| ensures IsIndexKey(sorted[i]) {
      assert sorted[i] in multiset(sorted);
      assert sorted[i] in idx;
    }
  }

  /** The other keys keep the order of first occurrence in `created`. */
  lemma NamedKeysInCreationOrder(created: seq<string>, named: seq<string>)
    requires named == Keep(Dedup(created, {}), IsNamedKey)
    ensures forall i :: 0 <= i < |named| ==> IsNamedKey(named[i])
    ensures forall i, j :: 0 <= i < j < |named| ==>
              named[i] in created && named[j] in created && FirstPos(created, named[i]) < FirstPos(created, named[j])
  {
    var keys := Dedup(created, {});
    DedupOrdered(created, {});
    KeepSound(keys, IsNamedKey);
    forall i | 0 <= i < |named| ensures !IsIndexKey(named[i]) {
      assert named[i] in named;
    }
    KeepPairs(keys, IsNamedKey, (a, b) => a in created && b in created && FirstPos(created, a) < FirstPos(created, b));
  }

  /** `Object.values(o)`: the values in own-key order. */
  function Values(o: KeyedBatches): (r: seq<Batch>)
    requires WellKeyed(o)
    ensures |r| == |OwnKeys(o.keys)|
    ensures forall i :: 0 <= i < |r| ==> OwnKeys(o.keys)[i] in o.vals && r[i] == o.vals[OwnKeys(o.keys)[i]]
  {
    var ks := OwnKeys(o.keys);
    assert forall k :: k in ks ==> k in o.keys by {
      KeepSound(o.keys, IsIndexKey);
      KeepSound(o.keys, IsNamedKey);
      forall k | k in SortIndexKeys(Keep(o.keys, IsIndexKey)) ensures k in Keep(o.keys, IsIndexKey) {
        assert k in multiset(SortIndexKeys(Keep(o.keys, IsIndexKey)));
      }
    }
    seq(|ks|, i requires 0 <= i < |ks| => o.vals[ks[i]])
  }

  predicate HasStock(b: Batch)
  {
    b.remaining > 0.0
  }

  /**
   * The batches with something left, in `Object.values` order: one per
   * batch number, the one listed last under it, with the array-index
   * numbers first in ascending order and the other numbers in order of
   * first listing.
   */
  function Available(batches: seq<Batch>, cart: seq<CartLine>, itemCode: string, rowId: string): (r: seq<Batch>)
    ensures forall x :: x in r ==> x.remaining > 0.0
    ensures forall x :: x in r ==>
              (LastIndex(batches, x.batchNo).Some?
               && x == WithRemaining(batches[LastIndex(batches, x.batchNo).value], cart, itemCode, rowId))
    ensures forall i :: (0 <= i < |batches| && LastIndex(batches, batches[i].batchNo) == Some(i)
                         && WithRemaining(batches[i], cart, itemCode, rowId).remaining > 0.0) ==>
              WithRemaining(batches[i], cart, itemCode, rowId) in r
    ensures Distinct(Numbers(r))
    ensures forall i, j :: 0 <= i < j < |r| ==> KeyBefore(r[i].batchNo, r[j].batchNo, Numbers(batches))
  {
    var vs := Values(UsedBatches(batches, cart, itemCode, rowId));
    ValuesAreLastListings(batches, cart, itemCode, rowId);
    ValuesInKeyOrder(batches, cart, itemCode, rowId);
    KeepSound(vs, HasStock);
    KeepComplete(vs, HasStock);
    KeepPairs(vs, HasStock, (a: Batch, b: Batch) => a.batchNo != b.batchNo);
    KeepPairs(vs, HasStock, (a: Batch, b: Batch) => KeyBefore(a.batchNo, b.batchNo, Numbers(batches)));
    Keep(vs, HasStock)
  }

  /** The object's values are the last listing under each batch number,
      less what the other rows use, and every batch number has one. */
  lemma ValuesAreLastListings(batches: seq<Batch>, cart: seq<CartLine>, itemCode: string, rowId: string)
    ensures var vs := Values(UsedBatches(batches, cart, itemCode, rowId));
            (forall x :: x in vs ==>
               (LastIndex(batches, x.batchNo).Some?
                && x == WithRemaining(batches[LastIndex(batches, x.batchNo).value], cart, itemCode, rowId)))
            && forall i :: 0 <= i < |batches| && LastIndex(batches, batches[i].batchNo) == Some(i) ==>
                 WithRemaining(batches[i], cart, itemCode, rowId) in vs
  {
    var o := UsedBatches(batches, cart, itemCode, rowId);
    var vs := Values(o);
    var ks := OwnKeys(o.keys);
    UsedBatchesKeys(batches, cart, itemCode, rowId);
    UsedBatchesValues(batches, cart, itemCode, rowId);
    DedupMembers(Numbers(batches));
    OwnKeysMembers(o.keys);
    forall x | x in vs ensures LastIndex(batches, x.batchNo).Some?
                               && x == WithRemaining(batches[LastIndex(batches, x.batchNo).value], cart, itemCode, rowId) {
      var i :| 0 <= i < |vs| && vs[i] == x;
      assert x == o.vals[ks[i]];
    }
    forall i | 0 <= i < |batches| && LastIndex(batches, batches[i].batchNo) == Some(i)
      ensures WithRemaining(batches[i], cart, itemCode, rowId) in vs
    {
      var k := batches[i].batchNo;
      assert k in Numbers(batches);
      var m :| 0 <= m < |ks| && ks[m] == k;
      assert vs[m] == o.vals[k];
    }
  }

  /** The object's values come one per batch number, in key order. */
  lemma ValuesInKeyOrder(batches: seq<Batch>, cart: seq<CartLine>, itemCode: string, rowId: string)
    ensures var vs := Values(UsedBatches(batches, cart, itemCode, rowId));
            forall i, j :: 0 <= i < j < |vs| ==>
              vs[i].batchNo != vs[j].batchNo && KeyBefore(vs[i].batchNo, vs[j].batchNo, Numbers(batches))
  {
    var o := UsedBatches(batches, cart, itemCode, rowId);
    var vs := Values(o);
    var ks := OwnKeys(o.keys);
    UsedBatchesKeys(batches, cart, itemCode, rowId);
    OwnKeysMembers(o.keys);
    OwnKeysOrdered(Numbers(batches));
    forall i, j | 0 <= i < j < |vs|
      ensures vs[i].batchNo != vs[j].batchNo && KeyBefore(vs[i].batchNo, vs[j].batchNo, Numbers(batches))
    {
      assert vs[i].batchNo == ks[i] && vs[j].batchNo == ks[j];
    }
  }

  // ---------------------------------------------------------------------
  // FEFO order (useBatchSerial.js:44-60)

  /** Orders two optional dates: both set by date, a set date before an
      unset one. `None` when neither is set. */
  function DateOrder(a: Option<int>, b: Option<int>): Option<bool>
  {
    if a.Some? && b.Some? then Some(a.value <= b.value)
    else if a.Some? then Some(true)
    else if b.Some? then Some(false)
    else None
  }

  /** `a` may come before `b`: earlier expiry first (dated before undated),
      then earlier manufacturing date the same way, then more remaining
      quantity first. */
  predicate BatchLe(a: Batch, b: Batch)
  {
    var e := DateOrder(a.expiry, b.expiry);
    if e.Some? then e.value
    else
      var m := DateOrder(a.manufactured, b.manufactured);
      if m.Some? then m.value else a.remaining >= b.remaining
  }

  lemma BatchLeTotal(a: Batch, b: Batch)
    ensures BatchLe(a, b) || BatchLe(b, a)
  {
  }

  lemma BatchLeTransitive(a: Batch, b: Batch, c: Batch)
    requires BatchLe(a, b) && BatchLe(b, c)
    ensures BatchLe(a, c)
  {
  }

  predicate FefoSorted(s: seq<Batch>)
  {
    forall i, j :: 0 <= i < j < |s| ==> BatchLe(s[i], s[j])
  }

  /** Places `x` before the first element it may precede, so that among
      batches the comparator ties the earlier input stays first, as the
      stable `Array.prototype.sort` keeps them. */
  function Insert(x: Batch, s: seq<Batch>): (r: seq<Batch>)
    ensures multiset(r) == multiset(s) + multiset{x}
    decreases |s|
  {
    if s == [] then [x]
    else if BatchLe(x, s[0]) then [x] + s
    else
      assert s == [s[0]] + s[1..];
      [s[0]] + Insert(x, s[1..])
  }

  lemma {:induction false} InsertSorted(x: Batch, s: seq<Batch>)
    requires FefoSorted(s)
    ensures FefoSorted(Insert(x, s))
    decreases |s|
  {
    if s != [] {
      if BatchLe(x, s[0]) {
        forall j | 0 <= j < |s| ensures BatchLe(x, s[j]) {
          if j > 0 { BatchLeTransitive(x, s[0], s[j]); }
        }
        FefoCons(x, s);
      } else {
        BatchLeTotal(s[0], x);
        var rest := Insert(x, s[1..]);
        InsertSorted(x, s[1..]);
        InsertBelow(s[0], x, s[1..]);
        FefoCons(s[0], rest);
      }
    }
  }

  /** A batch that may precede every element of a sorted list may head it. */
  lemma FefoCons(h: Batch, rest: seq<Batch>)
    requires FefoSorted(rest)
    requires forall j :: 0 <= j < |rest| ==> BatchLe(h, rest[j])
    ensures FefoSorted([h] + rest)
  {
    var r := [h] + rest;
    assert forall j :: 1 <= j < |r| ==> r[j] == rest[j - 1];
  }

  /** The head of a sorted list may precede everything an insertion into
      its tail yields, when it may precede the inserted batch. */
  lemma InsertBelow(h: Batch, x: Batch, tail: seq<Batch>)
    requires BatchLe(h, x)
    requires forall k :: 0 <= k < |tail| ==> BatchLe(h, tail[k])
    ensures forall j :: 0 <= j < |Insert(x, tail)| ==> BatchLe(h, Insert(x, tail)[j])
  {
    var rest := Insert(x, tail);
    forall j | 0 <= j < |rest| ensures BatchLe(h, rest[j]) {
      assert rest[j] in multiset(rest);
      assert rest[j] in multiset(tail) + multiset{x};
      if rest[j] != x {
        assert rest[j] in tail;
        var k :| 0 <= k < |tail| && tail[k] == rest[j];
      }
    }
  }

  /** The JavaScript `sort` with the FEFO comparator. */
  function SortFefo(s: seq<Batch>): (r: seq<Batch>)
    ensures FefoSorted(r)
    ensures multiset(r) == multiset(s)
  {
    if s == [] then []
    else
      var rest := SortFefo(s[1..]);
      assert s == [s[0]] + s[1..];
      assert FefoSorted(Insert(s[0], rest)) by { InsertSorted(s[0], rest); }
      Insert(s[0], rest)
  }

  /** Batch `s[k]` is the first of `s` that may precede every batch of `s`. */
  predicate FirstLeast(s: seq<Batch>, k: int)
  {
    0 <= k < |s|
    && (forall j :: 0 <= j < |s| ==> BatchLe(s[k], s[j]))
    && (forall j :: 0 <= j < k ==> !BatchLe(s[j], s[k]))
  }

  /** Stability where it shows: the sorted list starts with the earliest
      input batch among those that sort first. */
  lemma {:induction false} SortFefoHead(s: seq<Batch>)
    requires s != []
    ensures exists k :: FirstLeast(s, k) && SortFefo(s)[0] == s[k]
    decreases |s|
  {
    var tail := s[1..];
    var r := SortFefo(tail);
    if tail == [] {
      assert FirstLeast(s, 0);
    } else {
      assert tail[0] in multiset(r);
      SortFefoHead(tail);
      var k :| FirstLeast(tail, k) && r[0] == tail[k];
      assert SortFefo(s) == Insert(s[0], r);
      if BatchLe(s[0], r[0]) {
        assert Insert(s[0], r) == [s[0]] + r;
        HeadLeast(s, k);
      } else {
        assert Insert(s[0], r) == [r[0]] + Insert(s[0], r[1..]);
        TailLeast(s, k);
        assert s[k + 1] == tail[k];
      }
    }
  }

  /** A head that may precede the first least batch of the tail is the
      first least batch of the whole. */
  lemma HeadLeast(s: seq<Batch>, k: int)
    requires |s| > 1 && FirstLeast(s[1..], k) && BatchLe(s[0], s[1..][k])
    ensures FirstLeast(s, 0)
  {
    var tail := s[1..];
    forall j | 0 <= j < |s| ensures BatchLe(s[0], s[j]) {
      if j > 0 {
        assert s[j] == tail[j - 1];
        BatchLeTransitive(s[0], tail[k], s[j]);
      }
    }
  }

  /** Otherwise the first least batch of the tail stays first least. */
  lemma TailLeast(s: seq<Batch>, k: int)
    requires |s| > 1 && FirstLeast(s[1..], k) && !BatchLe(s[0], s[1..][k])
    ensures FirstLeast(s, k + 1)
  {
    var tail := s[1..];
    assert s[k + 1] == tail[k];
    BatchLeTotal(s[0], tail[k]);
    forall j | 0 <= j < |s| ensures BatchLe(s[k + 1], s[j]) {
      if j > 0 { assert s[j] == tail[j - 1]; }
    }
    forall j | 0 <= j < k + 1 ensures !BatchLe(s[j], s[k + 1]) {
      if j > 0 { assert s[j] == tail[j - 1]; }
    }
  }

  /** Two batches the comparator ties keep their input order. */
  lemma TiedBatchesKeepOrder(a: Batch, b: Batch)
    requires BatchLe(a, b) && BatchLe(b, a)
    ensures SortFefo([a, b]) == [a, b]
  {
    assert [a, b][1..] == [b];
    assert SortFefo([b]) == [b];
  }

  /** After sorting no undated batch precedes a dated one. */
  lemma DatedBeforeUndated(s: seq<Batch>)
    ensures var r := SortFefo(s);
            forall i, j :: 0 <= i < j < |r| && r[j].expiry.Some? ==> r[i].expiry.Some?
  {
    var r := SortFefo(s);
    forall i, j | 0 <= i < j < |r| && r[j].expiry.Some? ensures r[i].expiry.Some? {
      assert BatchLe(r[i], r[j]);
    }
  }

  // ---------------------------------------------------------------------
  // The chosen batch (useBatchSerial.js:62-74, 124-133)

  function FindBatch(s: seq<Batch>, batchNo: string): (r: Option<Batch>)
    ensures r.Some? ==> r.value in s && r.value.batchNo == batchNo
    ensures r.None? ==> forall x :: x in s ==> x.batchNo != batchNo
    ensures r.Some? ==> exists i :: 0 <= i < |s| && s[i] == r.value && forall j :: 0 <= j < i ==> s[j].batchNo != batchNo
  {
    if s == [] then None
    else if s[0].batchNo == batchNo then Some(s[0])
    else
      assert s == [s[0]] + s[1..];
      FindBatch(s[1..], batchNo)
  }

  /** The batch fields of a row after `setBatchQty`; `None` means null. */
  datatype BatchChoice = BatchChoice(batchNo: Option<string>, actualBatchQty: Option<real>, expiry: Option<int>,
                                     batchData: seq<Batch>)

  /**
   * `setBatchQty` on the batch fields: the batches with something left,
   * in FEFO order; the requested batch when it is among them, else the
   * first; all fields null when none is left.
   */
  function SetBatchQty(batches: seq<Batch>, cart: seq<CartLine>, itemCode: string, rowId: string, requested: string): (r: BatchChoice)
    ensures r.batchData == SortFefo(Available(batches, cart, itemCode, rowId))
    ensures r.batchData == [] <==> r.batchNo.None?
    ensures r.batchData == [] ==> r.actualBatchQty.None? && r.expiry.None?
    ensures requested != [] && FindBatch(r.batchData, requested).Some? ==>
              r.batchNo == Some(requested) && r.actualBatchQty == Some(FindBatch(r.batchData, requested).value.remaining)
    ensures r.batchData != [] && (requested == [] || FindBatch(r.batchData, requested).None?) ==>
              r.batchNo == Some(r.batchData[0].batchNo) && r.actualBatchQty == Some(r.batchData[0].remaining)
  {
    var sorted := SortFefo(Available(batches, cart, itemCode, rowId));
    if sorted == [] then BatchChoice(None, None, None, sorted)
    else
      var found := if requested != [] then FindBatch(sorted, requested) else None;
      var chosen := if found.Some? then found.value else sorted[0];
      BatchChoice(Some(chosen.batchNo), Some(chosen.remaining), chosen.expiry, sorted)
  }

  /** Without a usable requested batch, the row gets the earliest listed
      batch among those with stock left that sort first. */
  lemma SetBatchQtyPicksFirstLeast(batches: seq<Batch>, cart: seq<CartLine>, itemCode: string, rowId: string, requested: string)
    requires Available(batches, cart, itemCode, rowId) != []
    requires requested == [] || FindBatch(SortFefo(Available(batches, cart, itemCode, rowId)), requested).None?
    ensures var avail := Available(batches, cart, itemCode, rowId);
            exists k :: FirstLeast(avail, k) && SetBatchQty(batches, cart, itemCode, rowId, requested).batchNo == Some(avail[k].batchNo)
  {
    var avail := Available(batches, cart, itemCode, rowId);
    SortFefoHead(avail);
    var k :| FirstLeast(avail, k) && SortFefo(avail)[0] == avail[k];
    assert |SortFefo(avail)| == |avail| by {
      assert |multiset(SortFefo(avail))| == |multiset(avail)|;
    }
  }

  /** On a comparator tie the object's key order decides: a batch
      numbered like an array index ("7") goes ahead of one listed before
      it under a name ("B1"). */
  lemma IndexNumberedBatchFirstOnTie(b1: Batch, b7: Batch)
    requires b1.batchNo == "B1" && b7.batchNo == "7"
    requires b1.expiry.None? && b1.manufactured.None? && b7.expiry.None? && b7.manufactured.None?
    requires b1.batchQty == b7.batchQty > 0.0
    ensures SetBatchQty([b1, b7], [], "ITEM", "ROW", "").batchNo == Some("7")
  {
    var w1 := WithRemaining(b1, [], "ITEM", "ROW");
    var w7 := WithRemaining(b7, [], "ITEM", "ROW");
    TwoBatchesAvailable(b1, b7);
    TiedBatchesKeepOrder(w7, w1);
  }

  lemma TwoBatchesAvailable(b1: Batch, b7: Batch)
    requires b1.batchNo == "B1" && b7.batchNo == "7"
    requires b1.batchQty > 0.0 && b7.batchQty > 0.0
    ensures Available([b1, b7], [], "ITEM", "ROW") == [WithRemaining(b7, [], "ITEM", "ROW"), WithRemaining(b1, [], "ITEM", "ROW")]
  {
    var bs := [b1, b7];
    var w1 := WithRemaining(b1, [], "ITEM", "ROW");
    var w7 := WithRemaining(b7, [], "ITEM", "ROW");
    var r := Available(bs, [], "ITEM", "ROW");
    LastIndexOfTwo(b1, b7);
    assert w1 in r && w7 in r;
    forall x | x in r ensures x == w1 || x == w7 {
      var i := LastIndex(bs, x.batchNo).value;
      assert i == 0 || i == 1;
    }
    IndexKeyExamples();
    IndexKeyGoesFirst(r, w7, w1, Numbers(bs));
  }

  lemma LastIndexOfTwo(b1: Batch, b7: Batch)
    requires b1.batchNo != b7.batchNo
    ensures LastIndex([b1, b7], b1.batchNo) == Some(0) && LastIndex([b1, b7], b7.batchNo) == Some(1)
  {
    assert [b1, b7][..1] == [b1];
  }

  /** "7" names an array index and "B1" does not. */
  lemma IndexKeyExamples()
    ensures IsIndexKey("7") && !IsIndexKey("B1")
  {
    assert "7"[..0] == [];
    assert KeyNumber("7") == 7;
    assert !IsDigit("B1"[0]);
  }

  /** A list that holds exactly two batches, one numbered like an array
      index and one not, each once and in key order, lists the first
      one first. */
  lemma IndexKeyGoesFirst(r: seq<Batch>, a: Batch, b: Batch, created: seq<string>)
    requires a in r && b in r && forall x :: x in r ==> x == a || x == b
    requires IsIndexKey(a.batchNo) && !IsIndexKey(b.batchNo)
    requires Distinct(Numbers(r))
    requires forall i, j :: 0 <= i < j < |r| ==> KeyBefore(r[i].batchNo, r[j].batchNo, created)
    ensures r == [a, b]
  {
    var ia :| 0 <= ia < |r| && r[ia] == a;
    var ib :| 0 <= ib < |r| && r[ib] == b;
    assert !KeyBefore(b.batchNo, a.batchNo, created);
    assert ia < ib;
    AtOneOf(r, a, b, ia, ib, 0);
    AtOneOf(r, a, b, ia, ib, 1);
    AtOneOf(r, a, b, ia, ib, |r| - 1);
  }

  /** In a list with distinct batch numbers that holds only `a` and `b`,
      every position is the position of one of them. */
  lemma AtOneOf(r: seq<Batch>, a: Batch, b: Batch, ia: int, ib: int, k: int)
    requires forall x :: x in r ==> x == a || x == b
    requires Distinct(Numbers(r))
    requires 0 <= ia < |r| && r[ia] == a && 0 <= ib < |r| && r[ib] == b && 0 <= k < |r|
    ensures k == ia || k == ib
  {
    assert r[k] in r;
    assert Numbers(r)[k] == Numbers(r)[ia] || Numbers(r)[k] == Numbers(r)[ib];
  }

  /** The chosen batch always has stock left, and it is one of the item's
      batches less what the other rows use. */
  lemma ChosenBatchHasStock(batches: seq<Batch>, cart: seq<CartLine>, itemCode: string, rowId: string, requested: string)
    ensures var r := SetBatchQty(batches, cart, itemCode, rowId, requested);
            r.batchNo.Some? ==> exists x :: x in Available(batches, cart, itemCode, rowId)
                                  && Some(x.batchNo) == r.batchNo && r.actualBatchQty == Some(x.remaining) && x.remaining > 0.0
  {
    var avail := Available(batches, cart, itemCode, rowId);
    var r := SetBatchQty(batches, cart, itemCode, rowId, requested);
    var sorted := r.batchData;
    if sorted != [] {
      var found := if requested != [] then FindBatch(sorted, requested) else None;
      var chosen := if found.Some? then found.value else sorted[0];
      assert chosen in sorted;
      assert chosen in multiset(sorted);
      assert chosen in multiset(avail);
    }
  }
}
