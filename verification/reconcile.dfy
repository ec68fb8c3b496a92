/**
 * Receivable allocation and automatic reconciliation
 * (`auto_reconcile_customer_invoices` and its helpers in
 * posawesome/posawesome/api/payment_entry.py).
 *
 * A customer's open invoices are walked oldest first; each available credit
 * (an unallocated Payment Entry or a return credit note) is spread over them
 * greedily. The in-memory outstanding amounts are lowered as the walk goes
 * and are restored, exactly, when the ledger refuses to post the credit.
 * Amounts are integers in minor currency units.
 */
module Reconcile {
  import opened Common
  import opened Ordering

  /** An invoice as the allocation loops see it: its voucher number and the
      amount still owed. */
  datatype Receivable = Receivable(name: string, outstanding: int)

  /** An open invoice as fetched, with the dates that order it. */
  datatype OpenInvoice = OpenInvoice(voucherNo: string, outstanding: int,
                                     postingDate: Option<int>, dueDate: Option<int>)

  /** One `{"invoice": ..., "amount": ...}` record of a credit's plan. */
  datatype Allocation = Allocation(invoice: string, amount: int)

  /** What one greedy walk produced: the lowered invoices, the per-invoice
      allocations in walk order, and the credit left over. */
  datatype Plan = Plan(invoices: seq<Receivable>, allocations: seq<Allocation>, leftover: int)

  // ---------------------------------------------------------------------
  // Sums and counts over invoice lists

  function Total(invs: seq<Receivable>): int
  {
    if |invs| == 0 then 0 else invs[0].outstanding + Total(invs[1..])
  }

  /** Σ of the strictly positive outstanding amounts. */
  function PositiveTotal(invs: seq<Receivable>): int
  {
    if |invs| == 0 then 0
    else (if invs[0].outstanding > 0 then invs[0].outstanding else 0) + PositiveTotal(invs[1..])
  }

  /** Number of invoices with a strictly positive outstanding amount. */
  function OpenCount(invs: seq<Receivable>): nat
  {
    if |invs| == 0 then 0
    else (if invs[0].outstanding > 0 then 1 else 0) + OpenCount(invs[1..])
  }

  function AllocSum(allocs: seq<Allocation>): int
  {
    if |allocs| == 0 then 0 else allocs[0].amount + AllocSum(allocs[1..])
  }

  /** Σ of the amounts recorded against invoice `name`. */
  function AmountFor(allocs: seq<Allocation>, name: string): int
  {
    if |allocs| == 0 then 0
    else (if allocs[0].invoice == name then allocs[0].amount else 0) + AmountFor(allocs[1..], name)
  }

  predicate UniqueNames(invs: seq<Receivable>)
  {
    forall i, j :: 0 <= i < j < |invs| ==> invs[i].name != invs[j].name
  }

  predicate SameNames(a: seq<Receivable>, b: seq<Receivable>)
  {
    |a| == |b| && forall i :: 0 <= i < |a| ==> a[i].name == b[i].name
  }

  /** The allocations that turn `before` into `after`: one record per
      invoice whose amount changed, in list order. */
  function Moves(before: seq<Receivable>, after: seq<Receivable>): seq<Allocation>
    requires |before| == |after|
  {
    if |before| == 0 then []
    else
      (if before[0].outstanding != after[0].outstanding
       then [Allocation(before[0].name, before[0].outstanding - after[0].outstanding)]
       else [])
      + Moves(before[1..], after[1..])
  }

  // ---------------------------------------------------------------------
  // The greedy step (payment_entry.py:417-463, 524-569, 759-796, 857-891,
  // 940-960)

  /**
   * Spreads `credit` over `invs` in order. Each invoice with a positive
   * outstanding amount receives min(remaining credit, outstanding); the walk
   * stops as soon as the credit is no longer positive. The guard
   * `allocation <= 0` of the source cannot fire here: both operands of the
   * min are positive.
   *
   * The contract and the lemmas below say what the walk means without
   * reference to how it is done: only positive invoices are lowered, none
   * below zero; the drop in outstanding equals the credit used; the
   * allocation records are exactly the per-invoice drops; a later invoice is
   * touched only once every earlier one is settled (FIFO); and credit is
   * left over only when every invoice is settled.
   */
  function PlanCredit(invs: seq<Receivable>, credit: int): (p: Plan)
    decreases |invs|
    ensures |p.invoices| == |invs|
    ensures credit <= 0 ==> p.invoices == invs && p.allocations == [] && p.leftover == credit
    ensures credit > 0 ==> 0 <= p.leftover <= credit
  {
    if |invs| == 0 || credit <= 0 then Plan(invs, [], credit)
    else
      var head := invs[0];
      if head.outstanding <= 0 then
        var rest := PlanCredit(invs[1..], credit);
        Plan([head] + rest.invoices, rest.allocations, rest.leftover)
      else
        var a := Min(credit, head.outstanding);
        var rest := PlanCredit(invs[1..], credit - a);
        Plan([head.(outstanding := head.outstanding - a)] + rest.invoices,
             [Allocation(head.name, a)] + rest.allocations,
             rest.leftover)
  }

  /** How the walk may change one invoice: only its outstanding amount, a
      non-positive invoice not at all, a positive one lowered but never
      below zero. */
  predicate Lowered(before: Receivable, after: Receivable)
  {
    && after == before.(outstanding := after.outstanding)
    && (before.outstanding <= 0 ==> after == before)
    && (before.outstanding > 0 ==> 0 <= after.outstanding <= before.outstanding)
  }

  /** Only the outstanding amounts change; a non-positive invoice is never
      touched; a positive one is lowered but never below zero. */
  lemma PlanShape(invs: seq<Receivable>, credit: int)
    ensures var p := PlanCredit(invs, credit);
      && SameNames(invs, p.invoices)
      && (forall i :: 0 <= i < |invs| ==> p.invoices[i] == invs[i].(outstanding := p.invoices[i].outstanding))
      && (forall i :: 0 <= i < |invs| && invs[i].outstanding <= 0 ==> p.invoices[i] == invs[i])
      && (forall i :: 0 <= i < |invs| && invs[i].outstanding > 0 ==>
            0 <= p.invoices[i].outstanding <= invs[i].outstanding)
  {
    PlanLowered(invs, credit);
  }

  /** What the walk takes from the first invoice. */
  function Cut(head: Receivable, credit: int): int
  {
    if head.outstanding <= 0 then 0 else Min(credit, head.outstanding)
  }

  lemma PlanUnfold(invs: seq<Receivable>, credit: int)
    requires |invs| > 0 && credit > 0
    ensures var a := Cut(invs[0], credit);
      var rest := PlanCredit(invs[1..], credit - a);
      && PlanCredit(invs, credit).invoices == [invs[0].(outstanding := invs[0].outstanding - a)] + rest.invoices
      && PlanCredit(invs, credit).leftover == rest.leftover
  {
    PlanStep(invs, credit);
    assert invs[0].(outstanding := invs[0].outstanding - 0) == invs[0];
  }

  lemma {:induction false} PlanLowered(invs: seq<Receivable>, credit: int)
    ensures var p := PlanCredit(invs, credit);
      forall i :: 0 <= i < |invs| ==> Lowered(invs[i], p.invoices[i])
    decreases |invs|
  {
    if |invs| > 0 && credit > 0 {
      var head := invs[0];
      var a := Cut(head, credit);
      PlanLowered(invs[1..], credit - a);
      var rest := PlanCredit(invs[1..], credit - a);
      var first := head.(outstanding := head.outstanding - a);
      PlanUnfold(invs, credit);
      assert first == head || head.outstanding > 0;
      assert Lowered(head, first);
      forall i | 1 <= i < |invs|
        ensures Lowered(invs[i], PlanCredit(invs, credit).invoices[i])
      {
        assert invs[i] == invs[1..][i - 1];
      }
    }
  }

  lemma TotalCons(r: Receivable, rest: seq<Receivable>)
    ensures Total([r] + rest) == r.outstanding + Total(rest)
    ensures PositiveTotal([r] + rest) == (if r.outstanding > 0 then r.outstanding else 0) + PositiveTotal(rest)
  {
    assert ([r] + rest)[1..] == rest;
  }

  lemma AllocSumCons(a: Allocation, rest: seq<Allocation>)
    ensures AllocSum([a] + rest) == a.amount + AllocSum(rest)
  {
    assert ([a] + rest)[1..] == rest;
  }

  /** Conservation: the invoices drop by exactly the credit used, and the
      allocation records add up to the same amount. */
  lemma {:induction false} PlanConserves(invs: seq<Receivable>, credit: int)
    ensures var p := PlanCredit(invs, credit);
      && Total(invs) - Total(p.invoices) == credit - p.leftover
      && AllocSum(p.allocations) == credit - p.leftover
    decreases |invs|
  {
    if |invs| > 0 && credit > 0 {
      var head := invs[0];
      assert invs == [head] + invs[1..];
      TotalCons(head, invs[1..]);
      if head.outstanding <= 0 {
        PlanConserves(invs[1..], credit);
        TotalCons(head, PlanCredit(invs[1..], credit).invoices);
      } else {
        var a := Min(credit, head.outstanding);
        PlanConserves(invs[1..], credit - a);
        TotalCons(head.(outstanding := head.outstanding - a), PlanCredit(invs[1..], credit - a).invoices);
        AllocSumCons(Allocation(head.name, a), PlanCredit(invs[1..], credit - a).allocations);
      }
    }
  }

  lemma {:induction false} PositiveTotalBounds(invs: seq<Receivable>)
    ensures 0 <= PositiveTotal(invs)
    ensures Total(invs) <= PositiveTotal(invs)
    decreases |invs|
  {
    if |invs| > 0 {
      PositiveTotalBounds(invs[1..]);
    }
  }

  /** The credit a walk uses is min(credit, Σ positive outstanding): the walk
      consumes as much as the open invoices can take and no more. */
  lemma {:induction false} PlanUsesMin(invs: seq<Receivable>, credit: int)
    requires credit > 0
    ensures credit - PlanCredit(invs, credit).leftover == Min(credit, PositiveTotal(invs))
    decreases |invs|
  {
    if |invs| > 0 {
      var head := invs[0];
      PositiveTotalBounds(invs[1..]);
      if head.outstanding <= 0 {
        PlanUsesMin(invs[1..], credit);
      } else {
        var a := Min(credit, head.outstanding);
        if credit - a > 0 {
          PlanUsesMin(invs[1..], credit - a);
        }
      }
    }
  }

  lemma MovesCons(b: Receivable, a: Receivable, before: seq<Receivable>, after: seq<Receivable>)
    requires |before| == |after|
    ensures Moves([b] + before, [a] + after)
            == (if b.outstanding != a.outstanding
                then [Allocation(b.name, b.outstanding - a.outstanding)] else []) + Moves(before, after)
  {
    assert ([b] + before)[1..] == before;
    assert ([a] + after)[1..] == after;
  }

  lemma {:induction false} MovesSelf(xs: seq<Receivable>)
    ensures Moves(xs, xs) == []
    decreases |xs|
  {
    if |xs| > 0 {
      MovesSelf(xs[1..]);
    }
  }

  /** The allocation records are exactly the per-invoice drops, in invoice
      order, each one positive; no record means no invoice changed. */
  lemma PlanMoves(invs: seq<Receivable>, credit: int)
    ensures var p := PlanCredit(invs, credit);
      && p.allocations == Moves(invs, p.invoices)
      && (forall k :: 0 <= k < |p.allocations| ==> p.allocations[k].amount > 0)
      && (|p.allocations| == 0 ==> p.invoices == invs)
  {
    var p := PlanCredit(invs, credit);
    PlanMovesExact(invs, credit);
    forall k | 0 <= k < |p.allocations| ensures p.allocations[k].amount > 0 {
      PlanAllocationPositive(invs, credit, k);
    }
  }

  /** Each allocation record moves a positive amount. */
  lemma {:induction false} PlanAllocationPositive(invs: seq<Receivable>, credit: int, k: int)
    requires 0 <= k < |PlanCredit(invs, credit).allocations|
    ensures PlanCredit(invs, credit).allocations[k].amount > 0
    decreases |invs|
  {
    var head := invs[0];
    if head.outstanding <= 0 {
      PlanAllocationPositive(invs[1..], credit, k);
    } else if k > 0 {
      var a := Min(credit, head.outstanding);
      assert PlanCredit(invs, credit).allocations[k] == PlanCredit(invs[1..], credit - a).allocations[k - 1];
      PlanAllocationPositive(invs[1..], credit - a, k - 1);
    }
  }

  lemma {:induction false} PlanMovesExact(invs: seq<Receivable>, credit: int)
    ensures var p := PlanCredit(invs, credit);
      && p.allocations == Moves(invs, p.invoices)
      && (|p.allocations| == 0 ==> p.invoices == invs)
    decreases |invs|
  {
    if |invs| > 0 && credit > 0 {
      var head := invs[0];
      assert invs == [head] + invs[1..];
      var p := PlanCredit(invs, credit);
      if head.outstanding <= 0 {
        var rest := PlanCredit(invs[1..], credit);
        PlanMovesExact(invs[1..], credit);
        MovesCons(head, head, invs[1..], rest.invoices);
        assert p.invoices == [head] + rest.invoices;
        assert Moves(invs, p.invoices) == Moves([head] + invs[1..], [head] + rest.invoices);
      } else {
        var a := Min(credit, head.outstanding);
        var rest := PlanCredit(invs[1..], credit - a);
        PlanMovesExact(invs[1..], credit - a);
        MovesCons(head, head.(outstanding := head.outstanding - a), invs[1..], rest.invoices);
        assert p.invoices == [head.(outstanding := head.outstanding - a)] + rest.invoices;
        assert Moves(invs, p.invoices)
            == Moves([head] + invs[1..], [head.(outstanding := head.outstanding - a)] + rest.invoices);
      }
    } else {
      MovesSelf(invs);
    }
  }

  /** FIFO: an invoice is lowered only when every earlier invoice is
      settled; and credit is left over only when every invoice is settled. */
  lemma PlanFifo(invs: seq<Receivable>, credit: int)
    ensures var p := PlanCredit(invs, credit);
      && (forall i, j :: 0 <= i < j < |invs| && p.invoices[j].outstanding != invs[j].outstanding ==>
            p.invoices[i].outstanding <= 0)
      && (p.leftover > 0 ==> forall i :: 0 <= i < |invs| ==> p.invoices[i].outstanding <= 0)
  {
    PlanFifoOrder(invs, credit);
    PlanFifoLeftover(invs, credit);
  }

  /** Every invoice before position `j` of `after` is settled. */
  predicate SettledBefore(after: seq<Receivable>, j: int)
    requires 0 <= j <= |after|
  {
    forall i :: 0 <= i < j ==> after[i].outstanding <= 0
  }

  lemma PlanFifoOrder(invs: seq<Receivable>, credit: int)
    ensures var p := PlanCredit(invs, credit);
      forall j :: 0 <= j < |invs| && p.invoices[j].outstanding != invs[j].outstanding ==>
        SettledBefore(p.invoices, j)
  {
    var p := PlanCredit(invs, credit);
    forall j | 0 <= j < |invs| && p.invoices[j].outstanding != invs[j].outstanding
      ensures SettledBefore(p.invoices, j)
    {
      forall i | 0 <= i < j ensures p.invoices[i].outstanding <= 0 {
        PlanFifoPair(invs, credit, i, j);
      }
    }
  }

  /** When invoice `j` is lowered, every earlier invoice `i` is settled. */
  lemma {:induction false} PlanFifoPair(invs: seq<Receivable>, credit: int, i: int, j: int)
    requires 0 <= i < j < |invs|
    requires PlanCredit(invs, credit).invoices[j].outstanding != invs[j].outstanding
    ensures PlanCredit(invs, credit).invoices[i].outstanding <= 0
    decreases |invs|
  {
    LaterChange(invs, credit, j);
    var a := Cut(invs[0], credit);
    var rest := PlanCredit(invs[1..], credit - a);
    var p := PlanCredit(invs, credit);
    PlanUnfold(invs, credit);
    if i == 0 {
      HeadSettled(invs[0], credit);
      assert p.invoices[0] == invs[0].(outstanding := invs[0].outstanding - a);
    } else {
      assert p.invoices[i] == rest.invoices[i - 1];
      PlanFifoPair(invs[1..], credit - a, i - 1, j - 1);
    }
  }

  /** A lowered invoice means the walk had credit when it got there. */
  lemma ChangedNeedsCredit(invs: seq<Receivable>, credit: int, j: int)
    requires 0 <= j < |invs|
    requires PlanCredit(invs, credit).invoices[j].outstanding != invs[j].outstanding
    ensures credit > 0
  {
  }

  /** A lowered invoice past the first is lowered by the walk of the rest,
      which starts with credit to spare. */
  lemma LaterChange(invs: seq<Receivable>, credit: int, j: int)
    requires 0 < j < |invs|
    requires PlanCredit(invs, credit).invoices[j].outstanding != invs[j].outstanding
    ensures credit > 0 && credit - Cut(invs[0], credit) > 0
    ensures PlanCredit(invs[1..], credit - Cut(invs[0], credit)).invoices[j - 1].outstanding != invs[1..][j - 1].outstanding
  {
    ChangedNeedsCredit(invs, credit, j);
    var a := Cut(invs[0], credit);
    var rest := PlanCredit(invs[1..], credit - a);
    PlanUnfold(invs, credit);
    assert PlanCredit(invs, credit).invoices[j] == rest.invoices[j - 1];
    assert invs[j] == invs[1..][j - 1];
    ChangedNeedsCredit(invs[1..], credit - a, j - 1);
  }

  /** Credit that outlasts the first invoice has settled it. */
  lemma HeadSettled(head: Receivable, credit: int)
    requires credit - Cut(head, credit) > 0
    ensures head.outstanding - Cut(head, credit) <= 0
  {
  }

  lemma {:induction false} PlanFifoLeftover(invs: seq<Receivable>, credit: int)
    ensures var p := PlanCredit(invs, credit);
      p.leftover > 0 ==> forall i :: 0 <= i < |invs| ==> p.invoices[i].outstanding <= 0
    decreases |invs|
  {
    if |invs| > 0 && credit > 0 {
      var head := invs[0];
      var a := Cut(head, credit);
      PlanFifoLeftover(invs[1..], credit - a);
      var rest := PlanCredit(invs[1..], credit - a);
      var first := head.(outstanding := head.outstanding - a);
      var p := PlanCredit(invs, credit);
      PlanUnfold(invs, credit);
      if p.leftover > 0 {
        assert rest.leftover > 0;
        assert credit - a > 0;
        assert first.outstanding <= 0;
        forall i | 1 <= i < |invs| ensures p.invoices[i].outstanding <= 0 {
          assert p.invoices[i] == rest.invoices[i - 1];
          assert rest.invoices[i - 1].outstanding <= 0;
        }
      }
    }
  }

  /** One step of the walk, unfolded. */
  lemma PlanStep(xs: seq<Receivable>, c: int)
    requires |xs| > 0 && c > 0
    ensures var rest := PlanCredit(xs[1..], c);
      xs[0].outstanding <= 0 ==>
        PlanCredit(xs, c) == Plan([xs[0]] + rest.invoices, rest.allocations, rest.leftover)
    ensures var a := Min(c, xs[0].outstanding);
      var rest := PlanCredit(xs[1..], c - a);
      xs[0].outstanding > 0 ==>
        PlanCredit(xs, c) == Plan([xs[0].(outstanding := xs[0].outstanding - a)] + rest.invoices,
                                  [Allocation(xs[0].name, a)] + rest.allocations, rest.leftover)
  {
  }

  lemma WalkStep(invs: seq<Receivable>, i: int, c: int)
    requires 0 <= i < |invs| && c > 0
    ensures var rest := PlanCredit(invs[i + 1..], c);
      invs[i].outstanding <= 0 ==>
        PlanCredit(invs[i..], c) == Plan([invs[i]] + rest.invoices, [] + rest.allocations, rest.leftover)
    ensures var a := Min(c, invs[i].outstanding);
      var rest := PlanCredit(invs[i + 1..], c - a);
      invs[i].outstanding > 0 ==>
        PlanCredit(invs[i..], c) == Plan([invs[i].(outstanding := invs[i].outstanding - a)] + rest.invoices,
                                         [Allocation(invs[i].name, a)] + rest.allocations, rest.leftover)
  {
    assert invs[i..][0] == invs[i] && invs[i..][1..] == invs[i + 1..];
    PlanStep(invs[i..], c);
    assert [] + PlanCredit(invs[i + 1..], c).allocations == PlanCredit(invs[i + 1..], c).allocations;
  }

  /** A walk resumed after `done` invoices, with `taken` already recorded. */
  function Resume(done: seq<Receivable>, taken: seq<Allocation>, p: Plan): Plan
  {
    Plan(done + p.invoices, taken + p.allocations, p.leftover)
  }

  lemma ResumeNothing(p: Plan)
    ensures Resume([], [], p) == p
  {
    assert [] + p.invoices == p.invoices;
    assert [] + p.allocations == p.allocations;
  }

  lemma ResumeShift(done: seq<Receivable>, taken: seq<Allocation>, x: Receivable, t: seq<Allocation>, rest: Plan)
    ensures Resume(done, taken, Plan([x] + rest.invoices, t + rest.allocations, rest.leftover))
            == Resume(done + [x], taken + t, rest)
  {
    assert done + ([x] + rest.invoices) == (done + [x]) + rest.invoices;
    assert taken + (t + rest.allocations) == (taken + t) + rest.allocations;
  }

  /**
   * The allocation loop as the source writes it: invoices are visited in
   * order and lowered, allocations are appended, and the loop breaks once
   * the credit is spent, leaving the rest of the list as it was. It
   * computes exactly the plan above.
   */
  method AllocateCredit(invs: seq<Receivable>, credit: int)
    returns (updated: seq<Receivable>, allocations: seq<Allocation>, remaining: int)
    ensures Plan(updated, allocations, remaining) == PlanCredit(invs, credit)
    ensures AllocSum(allocations) == credit - remaining
  {
    var visited: seq<Receivable> := [];
    allocations := [];
    remaining := credit;
    var i := 0;
    assert invs[i..] == invs;
    ResumeNothing(PlanCredit(invs, credit));
    while i < |invs|
      invariant 0 <= i <= |invs|
      invariant PlanCredit(invs, credit) == Resume(visited, allocations, PlanCredit(invs[i..], remaining))
    {
      if remaining <= 0 {
        break;
      }
      var invoice := invs[i];
      WalkStep(invs, i, remaining);
      if invoice.outstanding <= 0 {
        ResumeShift(visited, allocations, invoice, [], PlanCredit(invs[i + 1..], remaining));
        visited := visited + [invoice];
        i := i + 1;
        continue;
      }
      var allocation := Min(remaining, invoice.outstanding);
      var lowered := invoice.(outstanding := invoice.outstanding - allocation);
      ResumeShift(visited, allocations, lowered, [Allocation(invoice.name, allocation)],
                  PlanCredit(invs[i + 1..], remaining - allocation));
      visited := visited + [lowered];
      allocations := allocations + [Allocation(invoice.name, allocation)];
      remaining := remaining - allocation;
      i := i + 1;
    }
    updated := visited + invs[i..];
    if i == |invs| {
      assert invs[i..] == [];
    }
    PlanConserves(invs, credit);
  }

  // ---------------------------------------------------------------------
  // Rollback (`_restore_outstandings`, payment_entry.py:376-383)

  /** Adds the allocation back to every invoice with that voucher number. */
  function AddBack(invs: seq<Receivable>, a: Allocation): (r: seq<Receivable>)
    ensures |r| == |invs|
  {
    seq(|invs|, i requires 0 <= i < |invs| =>
      if invs[i].name == a.invoice then invs[i].(outstanding := invs[i].outstanding + a.amount)
      else invs[i])
  }

  function Restore(invs: seq<Receivable>, allocs: seq<Allocation>): seq<Receivable>
    decreases |allocs|
  {
    if |allocs| == 0 then invs else Restore(AddBack(invs, allocs[0]), allocs[1..])
  }

  /** Restoring adds back to each invoice exactly the amounts recorded under
      its voucher number; an invoice no record names is left as it was. */
  lemma {:induction false} RestoreAddsBack(invs: seq<Receivable>, allocs: seq<Allocation>)
    ensures |Restore(invs, allocs)| == |invs|
    ensures forall i :: 0 <= i < |invs| ==>
              Restore(invs, allocs)[i]
              == invs[i].(outstanding := invs[i].outstanding + AmountFor(allocs, invs[i].name))
    decreases |allocs|
  {
    if |allocs| > 0 {
      RestoreAddsBack(AddBack(invs, allocs[0]), allocs[1..]);
    }
  }

  lemma {:induction false} MovesAmountFor(before: seq<Receivable>, after: seq<Receivable>, i: int)
    requires SameNames(before, after) && UniqueNames(before)
    requires 0 <= i < |before|
    ensures AmountFor(Moves(before, after), before[i].name)
            == before[i].outstanding - after[i].outstanding
    decreases |before|
  {
    AmountForAppend(
      if before[0].outstanding != after[0].outstanding
      then [Allocation(before[0].name, before[0].outstanding - after[0].outstanding)] else [],
      Moves(before[1..], after[1..]), before[i].name);
    if i > 0 {
      MovesAmountFor(before[1..], after[1..], i - 1);
    } else {
      MovesAmountAbsent(before[1..], after[1..], before[0].name);
    }
  }

  lemma {:induction false} MovesAmountAbsent(before: seq<Receivable>, after: seq<Receivable>, name: string)
    requires SameNames(before, after)
    requires forall k :: 0 <= k < |before| ==> before[k].name != name
    ensures AmountFor(Moves(before, after), name) == 0
    decreases |before|
  {
    if |before| > 0 {
      AmountForAppend(
        if before[0].outstanding != after[0].outstanding
        then [Allocation(before[0].name, before[0].outstanding - after[0].outstanding)] else [],
        Moves(before[1..], after[1..]), name);
      MovesAmountAbsent(before[1..], after[1..], name);
    }
  }

  lemma {:induction false} AmountForAppend(a: seq<Allocation>, b: seq<Allocation>, name: string)
    ensures AmountFor(a + b, name) == AmountFor(a, name) + AmountFor(b, name)
    decreases |a|
  {
    if |a| == 0 {
      assert a + b == b;
    } else {
      assert (a + b)[0] == a[0];
      assert (a + b)[1..] == a[1..] + b;
      AmountForAppend(a[1..], b, name);
    }
  }

  /**
   * Rollback identity: when voucher numbers are unique, restoring the
   * allocations of a plan gives back the invoice list the plan started from.
   */
  lemma RestoreUndoesPlan(invs: seq<Receivable>, credit: int)
    requires UniqueNames(invs)
    ensures Restore(PlanCredit(invs, credit).invoices, PlanCredit(invs, credit).allocations) == invs
  {
    var p := PlanCredit(invs, credit);
    PlanMoves(invs, credit);
    PlanShape(invs, credit);
    RestoreAddsBack(p.invoices, p.allocations);
    forall i | 0 <= i < |invs|
      ensures Restore(p.invoices, p.allocations)[i] == invs[i]
    {
      MovesAmountFor(invs, p.invoices, i);
    }
  }

  // ---------------------------------------------------------------------
  // Credits and their order (`get_unallocated_payments`,
  // payment_entry.py:211-296)

  datatype CreditKind = PaymentEntry | CreditNote

  /** An entry of the unallocated-credits list. */
  datatype Credit = Credit(name: string, kind: CreditKind, postingDate: Option<int>)

  /** A submitted Payment Entry row as fetched (already filtered to a
      positive unallocated amount by the query). */
  datatype PaymentRow = PaymentRow(name: string, postingDate: Option<int>, unallocated: int)

  /** A submitted return invoice as fetched (filtered to a negative
      outstanding amount by the query). */
  datatype NoteRow = NoteRow(name: string, postingDate: Option<int>, outstanding: int)

  /** Invoices: (posting date, due date or else posting date, voucher no);
      a missing date sorts as today. */
  function InvoiceKey(today: int): OpenInvoice -> SortKey
  {
    (inv: OpenInvoice) =>
      var posting := inv.postingDate.GetOr(today);
      SortKey(posting, inv.dueDate.GetOr(posting), inv.voucherNo)
  }

  /** Credits: (posting date or today, name); notes and payments interleave. */
  function CreditKey(today: int): Credit -> SortKey
  {
    (c: Credit) => SortKey(c.postingDate.GetOr(today), 0, c.name)
  }

  function PaymentCredits(rows: seq<PaymentRow>): (r: seq<Credit>)
    ensures |r| == |rows|
    ensures forall i :: 0 <= i < |rows| ==> r[i] == Credit(rows[i].name, PaymentEntry, rows[i].postingDate)
  {
    if |rows| == 0 then [] else [Credit(rows[0].name, PaymentEntry, rows[0].postingDate)] + PaymentCredits(rows[1..])
  }

  /** Return invoices become credit-note entries; one whose outstanding
      amount is zero is dropped. */
  function NoteCredits(notes: seq<NoteRow>): (r: seq<Credit>)
    ensures forall c :: c in r ==> c.kind == CreditNote
    ensures forall c :: c in r <==>
              exists n :: n in notes && n.outstanding != 0 && c == Credit(n.name, CreditNote, n.postingDate)
  {
    if |notes| == 0 then []
    else
      var rest := NoteCredits(notes[1..]);
      assert forall n :: n in notes <==> n == notes[0] || n in notes[1..];
      if notes[0].outstanding == 0 then rest
      else [Credit(notes[0].name, CreditNote, notes[0].postingDate)] + rest
  }

  /** The combined list of credits, oldest first. */
  function UnallocatedCredits(payments: seq<PaymentRow>, notes: seq<NoteRow>, today: int): (r: seq<Credit>)
    ensures SortedBy(r, CreditKey(today))
    ensures multiset(r) == multiset(PaymentCredits(payments)) + multiset(NoteCredits(notes))
  {
    SortBy(PaymentCredits(payments) + NoteCredits(notes), CreditKey(today))
  }

  /** The reconciliation re-sorts the credits it fetched by the same key, so
      that second sort leaves their order unchanged. */
  lemma ResortIsNoOp(payments: seq<PaymentRow>, notes: seq<NoteRow>, today: int)
    ensures SortBy(UnallocatedCredits(payments, notes, today), CreditKey(today))
            == UnallocatedCredits(payments, notes, today)
  {
    SortOfSorted(UnallocatedCredits(payments, notes, today), CreditKey(today));
  }

  // ---------------------------------------------------------------------
  // One credit against the ledger (payment_entry.py:385-609)

  /** What the ledger did with a posting request. For a Payment Entry a
      successful posting also reports the entry's unallocated amount after a
      reload. */
  datatype Posting = Posted(unallocatedAfter: int) | PostFailed(message: string)

  /**
   * The framework and ledger calls the reconciliation makes, as functions of
   * their inputs: `load` reads a credit's document (the credit note's
   * outstanding amount or the Payment Entry's unallocated amount; None when
   * loading raises), `post` is `reconcile_dr_cr_note` or
   * `reconcile_against_document`.
   */
  datatype Ledger = Ledger(load: Credit -> Option<int>, post: (Credit, seq<Allocation>) -> Posting)

  datatype Skip =
    | LoadFailed(credit: string, kind: CreditKind)
    | NoBalance(credit: string, kind: CreditKind)
    | NoOpenInvoices(credit: string, kind: CreditKind)
    | PostingFailed(credit: string, kind: CreditKind, message: string)
    | NothingRecorded(credit: string, kind: CreditKind)

  /** One entry of the `allocations` list of the summary. */
  datatype CreditAllocation = CreditAllocation(credit: string, kind: CreditKind,
                                               recorded: int, allocations: seq<Allocation>)

  /** The state threaded through the loop over credits. */
  datatype Run = Run(invoices: seq<Receivable>, allocations: seq<CreditAllocation>,
                     skipped: seq<Skip>, totalAllocated: int)

  /** The amount a loaded credit offers: |outstanding| of a credit note, the
      unallocated amount of a Payment Entry. */
  function Available(c: Credit, docAmount: int): int
  {
    if c.kind == CreditNote then Abs(docAmount) else docAmount
  }

  /** What a committed credit records as allocated: for a credit note the
      local drop in its balance, for a Payment Entry the ledger's own drop in
      the unallocated amount. */
  function Recorded(c: Credit, available: int, p: Plan, after: int): int
  {
    if c.kind == CreditNote then available - p.leftover else available - after
  }

  function ProcessCredit(run: Run, c: Credit, ledger: Ledger): Run
  {
    match ledger.load(c)
    case None => run.(skipped := run.skipped + [LoadFailed(c.name, c.kind)])
    case Some(docAmount) =>
      var available := Available(c, docAmount);
      if available <= 0 then run.(skipped := run.skipped + [NoBalance(c.name, c.kind)])
      else
        var p := PlanCredit(run.invoices, available);
        if |p.allocations| == 0 then run.(skipped := run.skipped + [NoOpenInvoices(c.name, c.kind)])
        else
          match ledger.post(c, p.allocations)
          case PostFailed(msg) =>
            run.(invoices := Restore(p.invoices, p.allocations),
                 skipped := run.skipped + [PostingFailed(c.name, c.kind, msg)])
          case Posted(after) =>
            var recorded := Recorded(c, available, p, after);
            if recorded <= 0 then
              run.(invoices := Restore(p.invoices, p.allocations),
                   skipped := run.skipped + [NothingRecorded(c.name, c.kind)])
            else
              Run(p.invoices,
                  run.allocations + [CreditAllocation(c.name, c.kind, recorded, p.allocations)],
                  run.skipped,
                  run.totalAllocated + recorded)
  }

  /** The credit the ledger was asked to post, if it got that far. */
  predicate Commits(run: Run, c: Credit, ledger: Ledger)
  {
    && ledger.load(c).Some?
    && Available(c, ledger.load(c).value) > 0
    && var p := PlanCredit(run.invoices, Available(c, ledger.load(c).value));
    && |p.allocations| > 0
    && ledger.post(c, p.allocations).Posted?
    && Recorded(c, Available(c, ledger.load(c).value), p, ledger.post(c, p.allocations).unallocatedAfter) > 0
  }

  /**
   * Per-credit isolation: a credit either commits (its plan's invoices
   * become current and exactly one allocation entry is added, carrying the
   * plan's records) or is skipped with exactly one skip entry and the
   * invoice list exactly as it was before this credit — also when the
   * posting failed after the invoices had been lowered.
   */
  lemma ProcessCreditCommitsOrSkips(run: Run, c: Credit, ledger: Ledger)
    requires UniqueNames(run.invoices)
    ensures var r := ProcessCredit(run, c, ledger);
      if Commits(run, c, ledger) then
        && var p := PlanCredit(run.invoices, Available(c, ledger.load(c).value));
        && r.invoices == p.invoices
        && r.skipped == run.skipped
        && |r.allocations| == |run.allocations| + 1
        && r.allocations[..|run.allocations|] == run.allocations
        && r.allocations[|run.allocations|].allocations == p.allocations
        && r.allocations[|run.allocations|].recorded > 0
        && r.totalAllocated == run.totalAllocated + r.allocations[|run.allocations|].recorded
      else
        && r.invoices == run.invoices
        && r.allocations == run.allocations
        && r.totalAllocated == run.totalAllocated
        && |r.skipped| == |run.skipped| + 1
        && r.skipped[..|run.skipped|] == run.skipped
  {
    var r := ProcessCredit(run, c, ledger);
    if ledger.load(c).Some? && Available(c, ledger.load(c).value) > 0 {
      var available := Available(c, ledger.load(c).value);
      var p := PlanCredit(run.invoices, available);
      PlanMoves(run.invoices, available);
      if |p.allocations| > 0 {
        RestoreUndoesPlan(run.invoices, available);
      }
    }
  }

  /** A credit note that planned at least one allocation and was posted
      always records a positive amount: the "no allocation was recorded"
      branch (payment_entry.py:486-492) is unreachable for credit notes. */
  lemma CreditNoteRecordsItsPlan(run: Run, c: Credit, ledger: Ledger)
    requires c.kind == CreditNote
    requires ledger.load(c).Some? && Available(c, ledger.load(c).value) > 0
    requires |PlanCredit(run.invoices, Available(c, ledger.load(c).value)).allocations| > 0
    ensures var available := Available(c, ledger.load(c).value);
            var p := PlanCredit(run.invoices, available);
            Recorded(c, available, p, 0) == AllocSum(p.allocations) > 0
  {
    var p := PlanCredit(run.invoices, Available(c, ledger.load(c).value));
    PlanConserves(run.invoices, Available(c, ledger.load(c).value));
    PlanMoves(run.invoices, Available(c, ledger.load(c).value));
    PositiveAllocSum(p.allocations);
  }

  lemma {:induction false} PositiveAllocSum(allocs: seq<Allocation>)
    requires |allocs| > 0
    requires forall k :: 0 <= k < |allocs| ==> allocs[k].amount > 0
    ensures AllocSum(allocs) > 0
    decreases |allocs|
  {
    if |allocs| > 1 {
      PositiveAllocSum(allocs[1..]);
    }
  }

  function RunCredits(run: Run, credits: seq<Credit>, ledger: Ledger): Run
    decreases |credits|
  {
    if |credits| == 0 then run else RunCredits(ProcessCredit(run, credits[0], ledger), credits[1..], ledger)
  }

  // ---------------------------------------------------------------------
  // Batch-level accounting

  function CommittedLocal(entries: seq<CreditAllocation>): int
  {
    if |entries| == 0 then 0 else AllocSum(entries[0].allocations) + CommittedLocal(entries[1..])
  }

  function CommittedRecorded(entries: seq<CreditAllocation>): int
  {
    if |entries| == 0 then 0 else entries[0].recorded + CommittedRecorded(entries[1..])
  }

  lemma {:induction false} CommittedAppend(a: seq<CreditAllocation>, e: CreditAllocation)
    ensures CommittedLocal(a + [e]) == CommittedLocal(a) + AllocSum(e.allocations)
    ensures CommittedRecorded(a + [e]) == CommittedRecorded(a) + e.recorded
    decreases |a|
  {
    if |a| > 0 {
      assert (a + [e])[1..] == a[1..] + [e];
      CommittedAppend(a[1..], e);
    }
  }

  /** The bookkeeping a run keeps relative to the invoice list it began
      with. */
  predicate RunInvariant(start: seq<Receivable>, run: Run, processed: nat)
  {
    && TracksStart(start, run.invoices)
    && Total(start) - Total(run.invoices) == CommittedLocal(run.allocations)
    && run.totalAllocated == CommittedRecorded(run.allocations)
    && |run.allocations| + |run.skipped| == processed
    && (forall k :: 0 <= k < |run.allocations| ==> run.allocations[k].recorded > 0)
    && (forall k :: 0 <= k < |run.allocations| && run.allocations[k].kind == CreditNote ==>
          run.allocations[k].recorded == AllocSum(run.allocations[k].allocations))
  }

  lemma ProcessCreditKeepsInvariant(start: seq<Receivable>, run: Run, c: Credit, ledger: Ledger, processed: nat)
    requires RunInvariant(start, run, processed)
    ensures RunInvariant(start, ProcessCredit(run, c, ledger), processed + 1)
  {
    ProcessCreditCommitsOrSkips(run, c, ledger);
    var r := ProcessCredit(run, c, ledger);
    if Commits(run, c, ledger) {
      var available := Available(c, ledger.load(c).value);
      var p := PlanCredit(run.invoices, available);
      var e := r.allocations[|run.allocations|];
      PlanConserves(run.invoices, available);
      PlanLowered(run.invoices, available);
      assert r.allocations == run.allocations + [e];
      assert e.kind == c.kind && e.recorded == Recorded(c, available, p, ledger.post(c, p.allocations).unallocatedAfter);
      CommitKeepsInvariant(start, run, p.invoices, e, processed);
      assert r == Run(p.invoices, run.allocations + [e], run.skipped, run.totalAllocated + e.recorded);
    }
  }

  /** The invoice half of the bookkeeping: names kept, non-positive
      invoices untouched, positive ones between zero and where they began. */
  predicate TracksStart(start: seq<Receivable>, invs: seq<Receivable>)
  {
    && SameNames(start, invs)
    && UniqueNames(invs)
    && (forall i :: 0 <= i < |start| && start[i].outstanding <= 0 ==> invs[i] == start[i])
    && (forall i :: 0 <= i < |start| && start[i].outstanding > 0 ==>
          0 <= invs[i].outstanding <= start[i].outstanding)
  }

  lemma LoweringKeepsTrack(start: seq<Receivable>, invs: seq<Receivable>, after: seq<Receivable>)
    requires TracksStart(start, invs)
    requires |after| == |invs| && forall i :: 0 <= i < |after| ==> Lowered(invs[i], after[i])
    ensures TracksStart(start, after)
  {
    forall i | 0 <= i < |after| ensures after[i].name == start[i].name {
      assert Lowered(invs[i], after[i]);
    }
    forall i | 0 <= i < |start| && start[i].outstanding <= 0 ensures after[i] == start[i] {
      assert Lowered(invs[i], after[i]);
    }
    forall i | 0 <= i < |start| && start[i].outstanding > 0
      ensures 0 <= after[i].outstanding <= start[i].outstanding
    {
      assert Lowered(invs[i], after[i]);
    }
  }

  /** Committing one credit's lowered invoices and its allocation entry keeps
      the bookkeeping. */
  lemma CommitKeepsInvariant(start: seq<Receivable>, run: Run, after: seq<Receivable>, e: CreditAllocation,
                             processed: nat)
    requires RunInvariant(start, run, processed)
    requires |after| == |run.invoices|
    requires forall i :: 0 <= i < |after| ==> Lowered(run.invoices[i], after[i])
    requires Total(run.invoices) - Total(after) == AllocSum(e.allocations)
    requires e.recorded > 0
    requires e.kind == CreditNote ==> e.recorded == AllocSum(e.allocations)
    ensures RunInvariant(start, Run(after, run.allocations + [e], run.skipped, run.totalAllocated + e.recorded),
                         processed + 1)
  {
    var r := Run(after, run.allocations + [e], run.skipped, run.totalAllocated + e.recorded);
    CommittedAppend(run.allocations, e);
    LoweringKeepsTrack(start, run.invoices, after);
    forall k | 0 <= k < |r.allocations| ensures r.allocations[k].recorded > 0 {
      if k < |run.allocations| { assert r.allocations[k] == run.allocations[k]; }
    }
    forall k | 0 <= k < |r.allocations| && r.allocations[k].kind == CreditNote
      ensures r.allocations[k].recorded == AllocSum(r.allocations[k].allocations)
    {
      if k < |run.allocations| { assert r.allocations[k] == run.allocations[k]; }
    }
  }


  /**
   * Batch conservation over any sequence of credits: the invoices drop by
   * exactly the amounts recorded in the committed plans (rolled-back credits
   * contribute nothing), no invoice is allocated past zero, non-positive
   * invoices are never touched, `total_allocated` is the sum of the
   * recorded amounts, a credit note records exactly its per-invoice sum, and
   * every credit ends up either in `allocations` or in `skipped_payments`.
   */
  lemma {:induction false} RunCreditsKeepsInvariant(start: seq<Receivable>, run: Run, credits: seq<Credit>,
                                                    ledger: Ledger, processed: nat)
    requires RunInvariant(start, run, processed)
    ensures RunInvariant(start, RunCredits(run, credits, ledger), processed + |credits|)
    decreases |credits|
  {
    if |credits| > 0 {
      ProcessCreditKeepsInvariant(start, run, credits[0], ledger, processed);
      RunCreditsKeepsInvariant(start, ProcessCredit(run, credits[0], ledger), credits[1..], ledger, processed + 1);
    }
  }

  // ---------------------------------------------------------------------
  // The endpoint (`auto_reconcile_customer_invoices`,
  // payment_entry.py:299-648)

  datatype ReconcileError = CustomerRequired | CompanyRequired

  datatype Outcome<T> = Done(value: T) | Rejected(error: ReconcileError)

  /** The structured part of the returned dictionary; the human-readable
      summary sentence is left out. */
  datatype Summary = Summary(allocations: seq<CreditAllocation>, skipped: seq<Skip>,
                             totalAllocated: int, remainingOutstanding: int,
                             outstandingCount: nat, processedPayments: nat,
                             reconciledPayments: nat)

  function AsReceivables(invs: seq<OpenInvoice>): (r: seq<Receivable>)
    ensures |r| == |invs|
    ensures forall i :: 0 <= i < |invs| ==> r[i] == Receivable(invs[i].voucherNo, invs[i].outstanding)
  {
    seq(|invs|, i requires 0 <= i < |invs| => Receivable(invs[i].voucherNo, invs[i].outstanding))
  }

  /** The invoices in the order the loop consumes them. */
  function OrderedReceivables(invoices: seq<OpenInvoice>, today: int): seq<Receivable>
  {
    AsReceivables(SortBy(invoices, InvoiceKey(today)))
  }

  /** The invoices as the credit loop leaves them. */
  function FinalInvoices(invoices: seq<OpenInvoice>, credits: seq<Credit>, today: int, ledger: Ledger): seq<Receivable>
  {
    RunCredits(Run(OrderedReceivables(invoices, today), [], [], 0), SortBy(credits, CreditKey(today)), ledger).invoices
  }

  /**
   * `auto_reconcile_customer_invoices`: refused without a customer or a
   * company; with no invoices everything is 0; with invoices but no
   * credits, the plain sum of the outstanding amounts and the number of
   * invoices; otherwise the sum and the number of the invoices the loop
   * leaves with a positive outstanding amount.
   */
  function AutoReconcile(customer: string, company: string, invoices: seq<OpenInvoice>,
                         credits: seq<Credit>, today: int, ledger: Ledger): (o: Outcome<Summary>)
    ensures customer == [] ==> o == Rejected(CustomerRequired)
    ensures customer != [] && company == [] ==> o == Rejected(CompanyRequired)
    ensures customer != [] && company != [] ==> o.Done?
    ensures o.Done? ==> o.value.processedPayments == (if |invoices| > 0 && |credits| == 0 then 0 else |credits|)
    ensures o.Done? && |invoices| == 0 ==>
              o.value.allocations == [] && o.value.totalAllocated == 0 && o.value.outstandingCount == 0
              && o.value.remainingOutstanding == 0
    ensures o.Done? && |credits| == 0 ==> o.value.allocations == [] && o.value.totalAllocated == 0
    ensures o.Done? && |invoices| > 0 && |credits| == 0 ==>
              o.value.remainingOutstanding == Total(AsReceivables(invoices)) && o.value.outstandingCount == |invoices|
    ensures o.Done? && |invoices| > 0 && |credits| > 0 ==>
              var final := FinalInvoices(invoices, credits, today, ledger);
              o.value.outstandingCount == OpenCount(final) && o.value.remainingOutstanding == PositiveTotal(final)
    ensures o.Done? ==> o.value.reconciledPayments == |o.value.allocations|
  {
    if customer == [] then Rejected(CustomerRequired)
    else if company == [] then Rejected(CompanyRequired)
    else if |invoices| == 0 then Done(Summary([], [], 0, 0, 0, |credits|, 0))
    else if |credits| == 0 then
      Done(Summary([], [], 0, Total(AsReceivables(invoices)), |invoices|, 0, 0))
    else
      var start := OrderedReceivables(invoices, today);
      var run := RunCredits(Run(start, [], [], 0), SortBy(credits, CreditKey(today)), ledger);
      Done(Summary(run.allocations, run.skipped, run.totalAllocated,
                   PositiveTotal(run.invoices), OpenCount(run.invoices),
                   |credits|, |run.allocations|))
  }

  lemma {:induction false} TotalOfNonNegative(invs: seq<Receivable>)
    requires forall i :: 0 <= i < |invs| ==> invs[i].outstanding >= 0
    ensures PositiveTotal(invs) == Total(invs)
    decreases |invs|
  {
    if |invs| > 0 {
      TotalOfNonNegative(invs[1..]);
    }
  }

  lemma {:induction false} OpenCountBound(invs: seq<Receivable>)
    ensures OpenCount(invs) <= |invs|
    decreases |invs|
  {
    if |invs| > 0 {
      OpenCountBound(invs[1..]);
    }
  }

  lemma UniqueAfterSort(invoices: seq<OpenInvoice>, today: int)
    requires forall i, j :: 0 <= i < j < |invoices| ==> invoices[i].voucherNo != invoices[j].voucherNo
    ensures UniqueNames(OrderedReceivables(invoices, today))
  {
    SortKeepsInjective(invoices, InvoiceKey(today), (inv: OpenInvoice) => inv.voucherNo);
  }

  /**
   * The summary of a full run. The invoices are consumed in (posting date,
   * due date, voucher no) order. When every fetched invoice is open (the
   * query filters on outstanding > 0) and voucher numbers are unique:
   * `remaining_outstanding` is the starting total minus exactly what the
   * committed credits allocated locally, `outstanding_count` never exceeds
   * the number of invoices, `total_allocated` is the sum of the recorded
   * amounts, and every credit is either reconciled or skipped.
   */
  lemma AutoReconcileSummary(customer: string, company: string, invoices: seq<OpenInvoice>,
                             credits: seq<Credit>, today: int, ledger: Ledger)
    requires customer != [] && company != [] && |invoices| > 0 && |credits| > 0
    requires forall i :: 0 <= i < |invoices| ==> invoices[i].outstanding > 0
    requires forall i, j :: 0 <= i < j < |invoices| ==> invoices[i].voucherNo != invoices[j].voucherNo
    ensures var o := AutoReconcile(customer, company, invoices, credits, today, ledger);
      && o.Done?
      && o.value.remainingOutstanding
         == Total(OrderedReceivables(invoices, today)) - CommittedLocal(o.value.allocations)
      && o.value.outstandingCount <= |invoices|
      && (o.value.outstandingCount == 0 <==> o.value.remainingOutstanding == 0)
      && o.value.totalAllocated == CommittedRecorded(o.value.allocations)
      && o.value.reconciledPayments + |o.value.skipped| == o.value.processedPayments == |credits|
      && (forall k :: 0 <= k < |o.value.allocations| ==> o.value.allocations[k].recorded > 0)
  {
    var start := OrderedReceivables(invoices, today);
    OrderedPositive(invoices, today);
    UniqueAfterSort(invoices, today);
    RunFromStart(start, SortBy(credits, CreditKey(today)), ledger);
    OpenCountZeroIff(FinalInvoices(invoices, credits, today, ledger));
  }

  /** No invoice is open exactly when nothing is outstanding. */
  lemma {:induction false} OpenCountZeroIff(invs: seq<Receivable>)
    ensures OpenCount(invs) == 0 <==> PositiveTotal(invs) == 0
    decreases |invs|
  {
    if |invs| > 0 {
      OpenCountZeroIff(invs[1..]);
      PositiveTotalBounds(invs[1..]);
    }
  }

  lemma OrderedPositive(invoices: seq<OpenInvoice>, today: int)
    requires forall i :: 0 <= i < |invoices| ==> invoices[i].outstanding > 0
    ensures var start := OrderedReceivables(invoices, today);
      |start| == |invoices| && forall i :: 0 <= i < |start| ==> start[i].outstanding > 0
  {
    var start := OrderedReceivables(invoices, today);
    var sorted := SortBy(invoices, InvoiceKey(today));
    forall i | 0 <= i < |start| ensures start[i].outstanding > 0 {
      assert sorted[i] in multiset(invoices);
    }
  }

  /** A whole run over open invoices with distinct names: what is still open
      is what was open minus what the committed credits allocated. */
  lemma RunFromStart(start: seq<Receivable>, credits: seq<Credit>, ledger: Ledger)
    requires UniqueNames(start)
    requires forall i :: 0 <= i < |start| ==> start[i].outstanding > 0
    ensures var run := RunCredits(Run(start, [], [], 0), credits, ledger);
      && PositiveTotal(run.invoices) == Total(start) - CommittedLocal(run.allocations)
      && OpenCount(run.invoices) <= |start|
      && run.totalAllocated == CommittedRecorded(run.allocations)
      && |run.allocations| + |run.skipped| == |credits|
      && (forall k :: 0 <= k < |run.allocations| ==> run.allocations[k].recorded > 0)
  {
    assert RunInvariant(start, Run(start, [], [], 0), 0);
    RunCreditsKeepsInvariant(start, Run(start, [], [], 0), credits, ledger, 0);
    var run := RunCredits(Run(start, [], [], 0), credits, ledger);
    TotalOfNonNegative(run.invoices);
    OpenCountBound(run.invoices);
  }

  /** The ordering the loop sees: a permutation of the fetched invoices
      sorted by (posting date, due date or posting date, voucher no). */
  lemma InvoiceOrder(invoices: seq<OpenInvoice>, today: int)
    ensures var sorted := SortBy(invoices, InvoiceKey(today));
      && multiset(sorted) == multiset(invoices)
      && forall i, j :: 0 <= i < j < |sorted| ==> KeyLe(InvoiceKey(today)(sorted[i]), InvoiceKey(today)(sorted[j]))
  {
  }
}
