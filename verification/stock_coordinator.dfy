/**
 * The client-side stock availability ledger
 * (frontend/src/posapp/utils/stockCoordinator.js): three maps keyed by
 * item code — the base (actual) quantity, the quantity reserved by open
 * carts, and a cache of `base - reserved`. Quantities are reals, as the numbers JavaScript reads;
 * listener notification is left out.
 */
module StockCoordinator {
  import opened Common

  datatype Coordinator = Coordinator(base: map<string, real>, reserved: map<string, real>, avail: map<string, real>)

  const Empty := Coordinator(map[], map[], map[])

  // ---------------------------------------------------------------------
  // Codes and lookups

  /** `normalizeCode`: null stays null, otherwise the trimmed text, or null
      when nothing is left after trimming. */
  function NormalizeCode(raw: Option<string>): (r: Option<string>)
    ensures raw.None? ==> r.None?
    ensures raw.Some? ==> (r.None? <==> forall i :: 0 <= i < |raw.value| ==> IsSpace(raw.value[i]))
    ensures r.Some? ==> |r.value| > 0 && !IsSpace(r.value[0]) && !IsSpace(r.value[|r.value| - 1])
    ensures r.Some? ==> |r.value| <= |raw.value|
  {
    match raw
    case None => None
    case Some(s) =>
      TrimEmptyIffBlank(s);
      var t := Trim(s);
      if t == [] then None else Some(t)
  }

  /** A normalised code normalises to itself. */
  lemma NormalizeIdempotent(raw: Option<string>)
    ensures NormalizeCode(NormalizeCode(raw)) == NormalizeCode(raw)
  {
    if NormalizeCode(raw).Some? {
      TrimOfTrimmed(NormalizeCode(raw).value);
    }
  }

  /** `reservedQuantities.get(code) || 0`. */
  function ReservedOf(st: Coordinator, c: string): real
  {
    if c in st.reserved then st.reserved[c] else 0.0
  }

  function Lookup(m: map<string, real>, c: string): Option<real>
  {
    if c in m then Some(m[c]) else None
  }

  /** Base quantities are keyed by normalised (non-empty) codes, and the
      availability cache only ever holds `base - reserved` of a code that has
      a base quantity. */
  ghost predicate Consistent(st: Coordinator)
  {
    [] !in st.base && forall c :: c in st.avail ==> c in st.base && st.avail[c] == st.base[c] - ReservedOf(st, c)
  }

  /** Reservations are strictly positive. */
  ghost predicate ReservationsPositive(st: Coordinator)
  {
    forall c :: c in st.reserved ==> st.reserved[c] > 0.0
  }

  /** Base and reserved quantity of `c` agree in the two states. */
  ghost predicate SameStock(a: Coordinator, b: Coordinator, c: string)
  {
    Lookup(a.base, c) == Lookup(b.base, c) && ReservedOf(a, c) == ReservedOf(b, c)
  }

  // ---------------------------------------------------------------------
  // Availability (stockCoordinator.js:25-38)

  /** `computeAvailability`: base − reserved when the code has a base (and
      caches it), otherwise the cached entry is dropped and there is none. */
  function ComputeAvailability(st: Coordinator, c: string): (r: (Coordinator, Option<real>))
    ensures r.0.base == st.base && r.0.reserved == st.reserved
    ensures c == [] ==> r == (st, None)
    ensures c != [] ==> r.1 == (if c in st.base then Some(st.base[c] - ReservedOf(st, c)) else None)
    ensures c != [] ==> Lookup(r.0.avail, c) == r.1
    ensures forall d :: d != c ==> Lookup(r.0.avail, d) == Lookup(st.avail, d)
  {
    if c == [] then (st, None)
    else if c !in st.base then (st.(avail := st.avail - {c}), None)
    else
      var a := st.base[c] - ReservedOf(st, c);
      (st.(avail := st.avail[c := a]), Some(a))
  }

  /** `affected.forEach(computeAvailability)`; the empty code is left alone. */
  function Refresh(st: Coordinator, codes: set<string>): (r: Coordinator)
    ensures r.base == st.base && r.reserved == st.reserved
    ensures forall c :: c in codes && c != [] ==> Lookup(r.avail, c) == ComputeAvailability(st, c).1
    ensures forall c :: c !in codes || c == [] ==> Lookup(r.avail, c) == Lookup(st.avail, c)
  {
    var avail := map c | c in st.avail.Keys + codes && (if c in codes && c != [] then c in st.base else c in st.avail)
                  :: if c in codes && c != [] then st.base[c] - ReservedOf(st, c) else st.avail[c];
    st.(avail := avail)
  }

  /** Refreshing the codes whose stock moved re-establishes the cache. */
  lemma RefreshRestores(before: Coordinator, st: Coordinator, codes: set<string>)
    requires Consistent(before) && st.avail == before.avail && [] !in st.base
    requires forall c :: c !in codes ==> SameStock(before, st, c)
    ensures Consistent(Refresh(st, codes))
  {
    var r := Refresh(st, codes);
    forall c | c in r.avail
      ensures c in r.base && r.avail[c] == r.base[c] - ReservedOf(r, c)
    {
      assert Lookup(r.avail, c).Some?;
      if c !in codes || c == [] {
        assert SameStock(before, st, c);
        assert Lookup(before.avail, c).Some?;
        assert Lookup(before.base, c) == Lookup(st.base, c);
      }
    }
  }

  // ---------------------------------------------------------------------
  // Base quantities (stockCoordinator.js:76-127)

  /** One entry of `updateBaseQuantities`: its code (the first of
      item_code/code/name that is set) and its quantity (the first quantity
      field that is set, None when that is not a finite number). */
  datatype BaseEntry = BaseEntry(code: Option<string>, qty: Option<real>)

  datatype BaseWalk = BaseWalk(base: map<string, real>, seen: set<string>, changed: set<string>)

  function BaseStep(w: BaseWalk, e: BaseEntry): BaseWalk
  {
    match NormalizeCode(e.code)
    case None => w
    case Some(c) =>
      match e.qty
      case None => w.(seen := w.seen + {c})
      case Some(q) =>
        if c !in w.base || w.base[c] != q then BaseWalk(w.base[c := q], w.seen + {c}, w.changed + {c})
        else w.(seen := w.seen + {c})
  }

  function WalkBase(w: BaseWalk, entries: seq<BaseEntry>): BaseWalk
    decreases |entries|
  {
    if |entries| == 0 then w else WalkBase(BaseStep(w, entries[0]), entries[1..])
  }

  /** The non-empty codes the entries name. */
  function SeenCodes(entries: seq<BaseEntry>): (r: set<string>)
    ensures [] !in r
    decreases |entries|
  {
    if |entries| == 0 then {}
    else
      (match NormalizeCode(entries[0].code) case None => {} case Some(c) => {c}) + SeenCodes(entries[1..])
  }

  /** The quantity the last entry with a usable quantity gives for `c`. */
  function LastQty(entries: seq<BaseEntry>, c: string): Option<real>
    decreases |entries|
  {
    if |entries| == 0 then None
    else
      var later := LastQty(entries[1..], c);
      if later.Some? then later
      else if NormalizeCode(entries[0].code) == Some(c) && entries[0].qty.Some? then entries[0].qty
      else None
  }

  function PruneMissing(w: BaseWalk): BaseWalk
  {
    BaseWalk(map c | c in w.base && c in w.seen :: w.base[c], w.seen, w.changed + (w.base.Keys - w.seen))
  }

  lemma {:induction false} WalkSeen(w: BaseWalk, entries: seq<BaseEntry>)
    ensures var r := WalkBase(w, entries);
      && r.seen == w.seen + SeenCodes(entries)
      && w.changed <= r.changed
      && r.changed - w.changed <= SeenCodes(entries)
    decreases |entries|
  {
    if |entries| > 0 {
      WalkSeen(BaseStep(w, entries[0]), entries[1..]);
    }
  }

  lemma {:induction false} WalkKeys(w: BaseWalk, entries: seq<BaseEntry>)
    ensures var r := WalkBase(w, entries);
      && (forall c :: c in w.base ==> c in r.base)
      && (forall c :: c in r.base ==> c in w.base || c in SeenCodes(entries))
      && (forall c :: c !in r.changed ==> Lookup(r.base, c) == Lookup(w.base, c))
    decreases |entries|
  {
    if |entries| > 0 {
      var s := BaseStep(w, entries[0]);
      WalkKeys(s, entries[1..]);
      WalkSeen(s, entries[1..]);
    }
  }

  lemma {:induction false} WalkStoresLast(w: BaseWalk, entries: seq<BaseEntry>, c: string)
    ensures LastQty(entries, c).Some? ==> Lookup(WalkBase(w, entries).base, c) == LastQty(entries, c)
    ensures LastQty(entries, c).Some? ==> c in SeenCodes(entries)
    decreases |entries|
  {
    if |entries| > 0 {
      var s := BaseStep(w, entries[0]);
      WalkStoresLast(s, entries[1..], c);
      if LastQty(entries[1..], c).None? && LastQty(entries, c).Some? {
        WalkUntouched(s, entries[1..], c);
      }
    }
  }

  /** Entries that never give `c` a quantity leave it where it was. */
  lemma {:induction false} WalkUntouched(w: BaseWalk, entries: seq<BaseEntry>, c: string)
    requires LastQty(entries, c).None?
    ensures Lookup(WalkBase(w, entries).base, c) == Lookup(w.base, c)
    decreases |entries|
  {
    if |entries| > 0 {
      WalkUntouched(BaseStep(w, entries[0]), entries[1..], c);
    }
  }

  /**
   * `updateBaseQuantities`: every code named with a usable quantity ends
   * with the last such quantity, and a code is reported only if its stored
   * quantity moved (or, with `pruneMissing`, it was dropped); the
   * availability cache follows.
   */
  function UpdateBaseQuantities(st: Coordinator, entries: seq<BaseEntry>, pruneMissing: bool): (r: (Coordinator, set<string>))
  {
    var w := UpdatedBase(st, entries, pruneMissing);
    (Refresh(st.(base := w.base), w.changed), w.changed)
  }

  /** The walk over the entries, pruned on request. */
  function UpdatedBase(st: Coordinator, entries: seq<BaseEntry>, pruneMissing: bool): BaseWalk
  {
    var walked := WalkBase(BaseWalk(st.base, {}, {}), entries);
    if pruneMissing then PruneMissing(walked) else walked
  }

  /** The walk reports only named or stored codes, keeps every other code
      where it was, and never stores the empty code. */
  lemma UpdatedBaseFrame(st: Coordinator, entries: seq<BaseEntry>, pruneMissing: bool)
    requires [] !in st.base
    ensures var w := UpdatedBase(st, entries, pruneMissing);
      && w.changed <= st.base.Keys + SeenCodes(entries)
      && [] !in w.base
      && (forall c :: c !in w.changed ==> Lookup(w.base, c) == Lookup(st.base, c))
  {
    var w0 := BaseWalk(st.base, {}, {});
    var walked := WalkBase(w0, entries);
    WalkSeen(w0, entries);
    WalkKeys(w0, entries);
  }

  /** Only named or stored codes are reported, an unreported code keeps its
      stock, reservations are untouched, and the cache stays consistent. */
  lemma UpdateBaseFrame(st: Coordinator, entries: seq<BaseEntry>, pruneMissing: bool)
    ensures var r := UpdateBaseQuantities(st, entries, pruneMissing);
      && r.1 <= st.base.Keys + SeenCodes(entries)
      && r.0.reserved == st.reserved
      && (forall c :: c !in r.1 ==> SameStock(st, r.0, c))
      && (Consistent(st) ==> Consistent(r.0))
  {
    var w := UpdatedBase(st, entries, pruneMissing);
    if [] !in st.base {
      UpdatedBaseFrame(st, entries, pruneMissing);
    } else {
      var w0 := BaseWalk(st.base, {}, {});
      WalkSeen(w0, entries);
      WalkKeys(w0, entries);
    }
    var next := st.(base := w.base);
    if Consistent(st) {
      RefreshRestores(st, next, w.changed);
    }
  }

  /** The content of the update: the last usable quantity per code wins;
      without pruning no code disappears; with pruning exactly the codes the
      entries do not name disappear, and are reported. */
  lemma UpdateBaseContent(st: Coordinator, entries: seq<BaseEntry>, pruneMissing: bool, c: string)
    ensures var r := UpdateBaseQuantities(st, entries, pruneMissing);
      LastQty(entries, c).Some? ==> Lookup(r.0.base, c) == LastQty(entries, c)
    ensures var r := UpdateBaseQuantities(st, entries, pruneMissing);
      !pruneMissing && c in st.base ==> c in r.0.base
    ensures var r := UpdateBaseQuantities(st, entries, pruneMissing);
      pruneMissing ==> (c in r.0.base ==> c in SeenCodes(entries))
    ensures var r := UpdateBaseQuantities(st, entries, pruneMissing);
      pruneMissing && c in st.base && c !in SeenCodes(entries) ==> c in r.1 && c !in r.0.base
  {
    var w0 := BaseWalk(st.base, {}, {});
    WalkSeen(w0, entries);
    WalkKeys(w0, entries);
    WalkStoresLast(w0, entries, c);
  }

  /** A single entry reports its code exactly when the stored quantity
      differs from the new one. */
  lemma BaseEntryChangesIffDiffers(st: Coordinator, e: BaseEntry)
    requires NormalizeCode(e.code).Some? && e.qty.Some?
    ensures var c := NormalizeCode(e.code).value;
      var r := UpdateBaseQuantities(st, [e], false);
      && Lookup(r.0.base, c) == e.qty
      && (c in r.1 <==> Lookup(st.base, c) != e.qty)
      && (forall d :: d != c ==> d !in r.1)
  {
    var w0 := BaseWalk(st.base, {}, {});
    assert WalkBase(w0, [e]) == WalkBase(BaseStep(w0, e), []);
  }

  // ---------------------------------------------------------------------
  // Reservations (stockCoordinator.js:129-176)

  /** One `[code, qty]` pair of the totals object; `qty` is None when the
      value is not a finite number. */
  datatype ReservationTotal = ReservationTotal(code: string, qty: Option<real>)

  predicate PositiveFor(t: ReservationTotal, c: string)
  {
    NormalizeCode(Some(t.code)) == Some(c) && t.qty.Some? && t.qty.value > 0.0
  }

  /** The last element satisfying `p`. */
  function LastWhere<T>(xs: seq<T>, p: T -> bool): Option<T>
    decreases |xs|
  {
    if |xs| == 0 then None
    else if p(xs[|xs| - 1]) then Some(xs[|xs| - 1])
    else LastWhere(xs[..|xs| - 1], p)
  }

  lemma {:induction false} LastWhereExists<T>(xs: seq<T>, p: T -> bool)
    ensures LastWhere(xs, p).Some? <==> exists i :: 0 <= i < |xs| && p(xs[i])
    ensures LastWhere(xs, p).Some? ==> p(LastWhere(xs, p).value)
    decreases |xs|
  {
    if |xs| > 0 {
      var n := |xs| - 1;
      LastWhereExists(xs[..n], p);
      if LastWhere(xs, p).Some? {
        if !p(xs[n]) {
          var i :| 0 <= i < n && p(xs[..n][i]);
          assert xs[..n][i] == xs[i];
        }
      } else {
        forall i | 0 <= i < |xs| ensures !p(xs[i]) {
          if i < n {
            assert xs[..n][i] == xs[i];
          }
        }
      }
    }
  }

  function PositiveTo(c: string): ReservationTotal -> bool
  {
    t => PositiveFor(t, c)
  }

  /** The reference reading of one code: its last positive quantity. */
  function LastPositive(totals: seq<ReservationTotal>, c: string): Option<real>
  {
    match LastWhere(totals, PositiveTo(c))
    case None => None
    case Some(t) => t.qty
  }

  /** The `incoming` map, built entry by entry. */
  function Incoming(totals: seq<ReservationTotal>): map<string, real>
    decreases |totals|
  {
    if |totals| == 0 then map[]
    else
      var n := |totals| - 1;
      var t := totals[n];
      var code := NormalizeCode(Some(t.code));
      if code.Some? && t.qty.Some? && t.qty.value > 0.0 then Incoming(totals[..n])[code.value := t.qty.value]
      else Incoming(totals[..n])
  }

  lemma {:induction false} IncomingIsLastPositive(totals: seq<ReservationTotal>, c: string)
    ensures Lookup(Incoming(totals), c) == LastPositive(totals, c)
    decreases |totals|
  {
    if |totals| > 0 {
      IncomingIsLastPositive(totals[..|totals| - 1], c);
      assert LastWhere(totals, PositiveTo(c)) == 
        if PositiveFor(totals[|totals| - 1], c) then Some(totals[|totals| - 1])
        else LastWhere(totals[..|totals| - 1], PositiveTo(c));
    }
  }

  /**
   * `updateReservations`: afterwards every code is reserved at the last
   * positive quantity the input gives it (0, i.e. absent, when none), and
   * a code is reported exactly when its reservation moved.
   */
  function UpdateReservations(st: Coordinator, totals: seq<ReservationTotal>): (r: (Coordinator, set<string>))
    ensures r.0.base == st.base
    ensures ReservationsPositive(r.0)
    ensures forall c :: ReservedOf(r.0, c) == LastPositive(totals, c).GetOr(0.0)
    ensures forall c :: c in r.1 <==> ReservedOf(st, c) != ReservedOf(r.0, c)
    ensures Consistent(st) ==> Consistent(r.0)
  {
    var incoming := Incoming(totals);
    assert forall c :: Lookup(incoming, c) == LastPositive(totals, c) by {
      forall c ensures Lookup(incoming, c) == LastPositive(totals, c) {
        IncomingIsLastPositive(totals, c);
      }
    }
    assert forall c :: c in incoming ==> incoming[c] > 0.0 by {
      forall c | c in incoming ensures incoming[c] > 0.0 {
        LastWhereExists(totals, PositiveTo(c));
        assert Lookup(incoming, c) == LastPositive(totals, c);
      }
    }
    var changed := (set c | c in incoming && ReservedOf(st, c) != incoming[c])
                 + (set c | c in st.reserved && c !in incoming && st.reserved[c] != 0.0);
    var next := st.(reserved := incoming);
    assert forall c :: c in changed <==> ReservedOf(st, c) != ReservedOf(next, c);
    assert Consistent(st) ==> Consistent(Refresh(next, changed)) by {
      if Consistent(st) { RefreshRestores(st, next, changed); }
    }
    (Refresh(next, changed), changed)
  }

  /** The reference reading, restated over positions: a code is reserved
      exactly when some entry gives it a positive quantity. */
  lemma ReservationsMatchInput(st: Coordinator, totals: seq<ReservationTotal>, c: string)
    ensures var r := UpdateReservations(st, totals).0;
      c in r.reserved <==> exists i :: 0 <= i < |totals| && PositiveFor(totals[i], c)
  {
    var r := UpdateReservations(st, totals).0;
    LastWhereExists(totals, PositiveTo(c));
    assert forall i :: 0 <= i < |totals| ==> (PositiveTo(c)(totals[i]) <==> PositiveFor(totals[i], c));
    assert ReservedOf(r, c) == LastPositive(totals, c).GetOr(0.0);
    if LastPositive(totals, c).Some? {
      assert PositiveFor(LastWhere(totals, PositiveTo(c)).value, c);
    }
  }

  // ---------------------------------------------------------------------
  // Clearing and reads (stockCoordinator.js:178-220)

  function ClearAll(st: Coordinator): (r: (Coordinator, set<string>))
    ensures r.1 == st.base.Keys + st.reserved.Keys + st.avail.Keys
  {
    (Empty, st.base.Keys + st.reserved.Keys + st.avail.Keys)
  }

  /** `getAvailability`: the cached value, else a fresh computation. */
  function GetAvailability(st: Coordinator, raw: Option<string>): (r: (Coordinator, Option<real>))
    ensures NormalizeCode(raw).None? ==> r == (st, None)
    ensures Consistent(st) && NormalizeCode(raw).Some? ==>
              var c := NormalizeCode(raw).value;
              r.1 == (if c in st.base then Some(st.base[c] - ReservedOf(st, c)) else None)
    ensures Consistent(st) ==> Consistent(r.0)
  {
    match NormalizeCode(raw)
    case None => (st, None)
    case Some(c) =>
      if c in st.avail then (st, Some(st.avail[c]))
      else
        var r := ComputeAvailability(st, c);
        assert Consistent(st) ==> Consistent(r.0) by {
          if Consistent(st) {
            forall d | d in r.0.avail ensures d in r.0.base && r.0.avail[d] == r.0.base[d] - ReservedOf(r.0, d) {
              assert Lookup(r.0.avail, d).Some?;
              if d != c {
                assert Lookup(st.avail, d) == Lookup(r.0.avail, d);
              }
            }
          }
        }
        r
  }

  /** `getReserved`: 0 for an invalid or unknown code. */
  function GetReserved(st: Coordinator, raw: Option<string>): (r: real)
    ensures NormalizeCode(raw).None? ==> r == 0.0
    ensures NormalizeCode(raw).Some? && NormalizeCode(raw).value !in st.reserved ==> r == 0.0
    ensures ReservationsPositive(st) ==> r >= 0.0
  {
    match NormalizeCode(raw)
    case None => 0.0
    case Some(c) => ReservedOf(st, c)
  }

  function GetBase(st: Coordinator, raw: Option<string>): (r: Option<real>)
    ensures NormalizeCode(raw).None? ==> r.None?
    ensures r.Some? ==> NormalizeCode(raw).value in st.base && r.value == st.base[NormalizeCode(raw).value]
  {
    match NormalizeCode(raw)
    case None => None
    case Some(c) => Lookup(st.base, c)
  }

  /** After `clearAll` nothing is known about any code. */
  lemma ClearAllForgets(st: Coordinator, raw: Option<string>)
    ensures var r := ClearAll(st).0;
      && GetBase(r, raw).None? && GetReserved(r, raw) == 0.0 && GetAvailability(r, raw).1.None?
      && Consistent(r) && ReservationsPositive(r)
  {
  }

  // ---------------------------------------------------------------------
  // Invoice consumption (stockCoordinator.js:325-365)

  datatype ConsumptionLine = ConsumptionLine(code: Option<string>, stockQty: Option<real>,
                                             qty: Option<real>, factor: Option<real>)

  /** `stock_qty`, else `qty × factor` with a missing or zero factor read as 1. */
  function Consumption(l: ConsumptionLine): Option<real>
  {
    if l.stockQty.Some? then l.stockQty
    else if l.qty.Some? then
      var multiplier := if l.factor.Some? && l.factor.value != 0.0 then l.factor.value else 1.0;
      Some(l.qty.value * multiplier)
    else None
  }

  /** What the lines consume of `c` in total. */
  function ConsumedOf(lines: seq<ConsumptionLine>, c: string): real
    decreases |lines|
  {
    if |lines| == 0 then 0.0
    else
      (if NormalizeCode(lines[0].code) == Some(c) && Consumption(lines[0]).Some? then Consumption(lines[0]).value else 0.0)
      + ConsumedOf(lines[1..], c)
  }

  function ConsumeStep(base: map<string, real>, changed: set<string>, l: ConsumptionLine): (map<string, real>, set<string>)
  {
    match NormalizeCode(l.code)
    case None => (base, changed)
    case Some(c) =>
      if c !in base || Consumption(l).None? || Consumption(l).value == 0.0 then (base, changed)
      else (base[c := base[c] - Consumption(l).value], changed + {c})
  }

  function ConsumeAll(base: map<string, real>, changed: set<string>, lines: seq<ConsumptionLine>): (map<string, real>, set<string>)
    decreases |lines|
  {
    if |lines| == 0 then (base, changed)
    else
      var s := ConsumeStep(base, changed, lines[0]);
      ConsumeAll(s.0, s.1, lines[1..])
  }

  /** What one line takes from `c`. */
  function LineConsumes(l: ConsumptionLine, c: string): real
  {
    if NormalizeCode(l.code) == Some(c) && Consumption(l).Some? then Consumption(l).value else 0.0
  }

  /** One line lowers only its own code, by its consumption. */
  lemma ConsumeStepFacts(base: map<string, real>, changed: set<string>, l: ConsumptionLine)
    requires [] !in changed
    ensures var s := ConsumeStep(base, changed, l);
      && s.0.Keys == base.Keys
      && [] !in s.1 && changed <= s.1 && s.1 - changed <= base.Keys
      && (forall c :: c in base ==> s.0[c] == base[c] - LineConsumes(l, c))
      && (forall c :: c !in s.1 ==> Lookup(s.0, c) == Lookup(base, c))
  {
  }

  lemma {:induction false} ConsumeAllFrame(base: map<string, real>, changed: set<string>, lines: seq<ConsumptionLine>)
    requires [] !in changed
    ensures var r := ConsumeAll(base, changed, lines);
      && r.0.Keys == base.Keys
      && [] !in r.1 && changed <= r.1 && r.1 - changed <= base.Keys
      && (forall c :: c !in r.1 ==> Lookup(r.0, c) == Lookup(base, c))
    decreases |lines|
  {
    if |lines| > 0 {
      var s := ConsumeStep(base, changed, lines[0]);
      ConsumeStepFacts(base, changed, lines[0]);
      ConsumeAllFrame(s.0, s.1, lines[1..]);
    }
  }

  lemma {:induction false} ConsumeAllValues(base: map<string, real>, changed: set<string>, lines: seq<ConsumptionLine>)
    requires [] !in changed
    ensures var r := ConsumeAll(base, changed, lines);
      forall c :: c in base ==> c in r.0 && r.0[c] == base[c] - ConsumedOf(lines, c)
    decreases |lines|
  {
    if |lines| > 0 {
      var s := ConsumeStep(base, changed, lines[0]);
      ConsumeStepFacts(base, changed, lines[0]);
      ConsumeAllValues(s.0, s.1, lines[1..]);
      forall c | c in base ensures ConsumedOf(lines, c) == LineConsumes(lines[0], c) + ConsumedOf(lines[1..], c) {
      }
    }
  }

  lemma ConsumeAllFacts(base: map<string, real>, changed: set<string>, lines: seq<ConsumptionLine>)
    requires [] !in changed
    ensures var r := ConsumeAll(base, changed, lines);
      && r.0.Keys == base.Keys
      && [] !in r.1 && changed <= r.1 && r.1 - changed <= base.Keys
      && (forall c :: c in base ==> r.0[c] == base[c] - ConsumedOf(lines, c))
      && (forall c :: c !in r.1 ==> Lookup(r.0, c) == Lookup(base, c))
  {
    ConsumeAllFrame(base, changed, lines);
    ConsumeAllValues(base, changed, lines);
  }

  function ApplyInvoiceConsumption(st: Coordinator, lines: seq<ConsumptionLine>): (r: (Coordinator, set<string>))
    ensures r.0.base.Keys == st.base.Keys && r.0.reserved == st.reserved
    ensures forall c :: c in st.base ==> r.0.base[c] == st.base[c] - ConsumedOf(lines, c)
    ensures r.1 <= st.base.Keys
    ensures forall c :: c !in r.1 ==> SameStock(st, r.0, c)
    ensures Consistent(st) ==> Consistent(r.0)
  {
    var walked := ConsumeAll(st.base, {}, lines);
    ConsumeAllFacts(st.base, {}, lines);
    var next := st.(base := walked.0);
    assert Consistent(st) ==> Consistent(Refresh(next, walked.1)) by {
      if Consistent(st) { RefreshRestores(st, next, walked.1); }
    }
    (Refresh(next, walked.1), walked.1)
  }

  /** Lines for codes without a base quantity, or without any quantity,
      consume nothing. */
  lemma ConsumptionIgnoresUnknown(st: Coordinator, lines: seq<ConsumptionLine>)
    requires forall i :: 0 <= i < |lines| ==>
               NormalizeCode(lines[i].code).None? || NormalizeCode(lines[i].code).value !in st.base
    ensures ApplyInvoiceConsumption(st, lines).1 == {}
    ensures ApplyInvoiceConsumption(st, lines).0.base == st.base
  {
    ConsumeUnknown(st.base, {}, lines);
  }

  lemma {:induction false} ConsumeUnknown(base: map<string, real>, changed: set<string>, lines: seq<ConsumptionLine>)
    requires forall i :: 0 <= i < |lines| ==>
               NormalizeCode(lines[i].code).None? || NormalizeCode(lines[i].code).value !in base
    ensures ConsumeAll(base, changed, lines) == (base, changed)
    decreases |lines|
  {
    if |lines| > 0 {
      assert forall i :: 0 <= i < |lines[1..]| ==> lines[1..][i] == lines[i + 1];
      ConsumeUnknown(base, changed, lines[1..]);
    }
  }
}
