/**
 * POS payment processing (`process_pos_payment` and
 * `set_paid_amount_and_received_amount` in
 * posawesome/posawesome/api/payment_entry.py).
 *
 * After validating the request, three phases run in a fixed order against
 * one shared list of the selected invoices: M-Pesa settlements, then the
 * selected existing credits (credit notes and unallocated Payment Entries),
 * then newly created payments. Every per-item failure becomes an entry of
 * `errors` and processing continues. Unlike the automatic reconciliation,
 * a failed posting here does not put the lowered outstanding amounts back.
 */
module PosPayment {
  import opened Common
  import opened Reconcile

  // ---------------------------------------------------------------------
  // Amount conversion (payment_entry.py:123-149)

  /**
   * `(paid_amount, received_amount)` for a payment of `amount`. With equal
   * party and bank currencies both are |amount|. Otherwise the party side
   * gets |amount| and the bank side the explicit bank amount, or the party
   * side converted at `rate` when no (or a zero) bank amount is given.
   */
  function PaidAndReceived(partyCurrency: string, bankCurrency: string, amount: real,
                           receive: bool, bankAmount: Option<real>, rate: real): (r: (real, real))
    ensures partyCurrency == bankCurrency ==> r.0 == r.1 && r.0 >= 0.0 && (r.0 == amount || r.0 == -amount)
    ensures partyCurrency != bankCurrency && receive ==>
              (r.0 == amount || r.0 == -amount) && r.0 >= 0.0
              && (bankAmount.Some? && bankAmount.value != 0.0 ==> r.1 == bankAmount.value)
              && ((bankAmount.None? || bankAmount.value == 0.0) ==> r.1 == r.0 * rate)
    ensures partyCurrency != bankCurrency && !receive ==>
              (r.1 == amount || r.1 == -amount) && r.1 >= 0.0
              && (bankAmount.Some? && bankAmount.value != 0.0 ==> r.0 == bankAmount.value)
              && ((bankAmount.None? || bankAmount.value == 0.0) ==> r.0 == r.1 * rate)
  {
    var magnitude := if amount < 0.0 then -amount else amount;
    var given := bankAmount.Some? && bankAmount.value != 0.0;
    if partyCurrency == bankCurrency then (magnitude, magnitude)
    else if receive then (magnitude, if given then bankAmount.value else magnitude * rate)
    else (if given then bankAmount.value else magnitude * rate, magnitude)
  }

  // ---------------------------------------------------------------------
  // Request and collaborators

  datatype ProfileFlags = ProfileFlags(usePosPayments: bool, allowNewPayments: bool,
                                       allowReconcile: bool, allowMpesaReconcile: bool)

  /** A selected invoice; an empty string stands for a missing field. */
  datatype SelectedInvoice = SelectedInvoice(voucherNo: string, name: string, outstanding: int)

  /** A selected existing credit as the client sends it. */
  datatype SelectedCredit = SelectedCredit(name: string, isCreditNote: bool, voucherType: string)

  datatype PaymentMethod = PaymentMethod(mode: string, amount: int)

  datatype Payload = Payload(
    customer: string, company: string, currency: string,
    profileName: string, shiftName: string, flags: ProfileFlags,
    invoices: seq<SelectedInvoice>,
    mpesa: seq<string>, totalMpesa: int,
    credits: seq<SelectedCredit>, totalCredits: int,
    methods: seq<PaymentMethod>, totalMethods: int)

  datatype Submission = Submitted(entry: string) | SubmitFailed(message: string)

  datatype Creation = Created(entry: string, paidAmount: int) | CreateFailed(message: string)

  /**
   * The framework calls the endpoint makes, as functions of their inputs.
   * `invoiceOutstanding` re-reads a Sales Invoice; `loadNote` and
   * `loadPayment` read a credit note's outstanding amount and a Payment
   * Entry's unallocated amount (None: the load raised); `postNote` is
   * `reconcile_dr_cr_note` (Some(message) when it raises); `postPayment` is
   * `reconcile_against_document` followed by a reload; `createPayment` is
   * `create_payment_entry`; `finalize` is the save and submit of the new
   * entry (Some(message) when either raises).
   */
  datatype Gateway = Gateway(
    invoiceOutstanding: string -> Option<int>,
    submitMpesa: string -> Submission,
    loadNote: string -> Option<int>,
    loadPayment: string -> Option<int>,
    postNote: (string, seq<Allocation>) -> Option<string>,
    postPayment: (string, seq<Allocation>) -> Posting,
    createPayment: PaymentMethod -> Creation,
    finalize: (string, seq<Allocation>) -> Option<string>)

  datatype PosError =
    | Raised(message: string)
    | NoteLoadFailed(credit: string)
    | PaymentLoadFailed(credit: string)
    | NoteFullyAllocated(credit: string)
    | NoOutstandingForNote(credit: string)
    | NoAllocationForNote(credit: string)
    | NoteUnapplied(credit: string, balance: int)
    | PaymentFullyAllocated(credit: string)
    | NoOutstandingForPayment(credit: string)
    | PaymentExceedsOutstanding(credit: string)
    | NoAllocationForPayment(credit: string)

  /** A document placed in `new_payments_entry` / `all_payments_entry`. */
  datatype EntryRef =
    | MpesaEntry(name: string)
    | NoteEntry(name: string)
    | PaymentDoc(name: string)
    | NewPayment(name: string, paidAmount: int, allocatedAmount: int, unallocatedAmount: int,
                 references: seq<Allocation>)

  datatype Reconciled = Reconciled(entry: string, amount: int)

  /** The state the three phases thread through, with `remaining_invoices`. */
  datatype State = State(invoices: seq<Receivable>, newEntries: seq<EntryRef>,
                         allEntries: seq<EntryRef>, reconciled: seq<Reconciled>,
                         errors: seq<PosError>)

  datatype Refusal =
    | PaymentsDisabled | CustomerMissing | CompanyMissing
    | CurrencyMissing | ProfileMissing | ShiftMissing

  datatype Response = Refused(reason: Refusal) | Processed(state: State)

  // ---------------------------------------------------------------------
  // The invoice list (payment_entry.py:686-698)

  function InvoiceName(inv: SelectedInvoice): string
  {
    if inv.voucherNo != [] then inv.voucherNo else inv.name
  }

  /** An invoice without a name is dropped; a non-positive outstanding
      amount is re-read from the document, 0 when that read fails. */
  function PrepareInvoices(sel: seq<SelectedInvoice>, fetch: string -> Option<int>): seq<Receivable>
  {
    if |sel| == 0 then []
    else
      var rest := PrepareInvoices(sel[1..], fetch);
      var name := InvoiceName(sel[0]);
      if name == [] then rest
      else
        var outstanding := if sel[0].outstanding <= 0 then fetch(name).GetOr(0) else sel[0].outstanding;
        [Receivable(name, outstanding)] + rest
  }

  /** Every selected invoice has a name. */
  predicate AllNamed(sel: seq<SelectedInvoice>)
  {
    forall i :: 0 <= i < |sel| ==> InvoiceName(sel[i]) != []
  }

  /** Every prepared invoice is named after a selected one, and none is
      dropped when every selected invoice has a name. */
  lemma PrepareInvoicesFacts(sel: seq<SelectedInvoice>, fetch: string -> Option<int>)
    ensures var r := PrepareInvoices(sel, fetch);
            && |r| <= |sel|
            && (forall k :: 0 <= k < |r| ==> r[k].name != [])
            && (forall k :: 0 <= k < |r| ==> exists i :: 0 <= i < |sel| && r[k].name == InvoiceName(sel[i]))
            && (AllNamed(sel) ==> |r| == |sel|)
  {
    var r := PrepareInvoices(sel, fetch);
    PreparedCount(sel, fetch);
    forall k | 0 <= k < |r| ensures r[k].name != [] && exists i :: 0 <= i < |sel| && r[k].name == InvoiceName(sel[i]) {
      PreparedFrom(sel, fetch, k);
    }
  }

  /** No more invoices come out than go in, and all of them when all are named. */
  lemma {:induction false} PreparedCount(sel: seq<SelectedInvoice>, fetch: string -> Option<int>)
    ensures |PrepareInvoices(sel, fetch)| <= |sel|
    ensures AllNamed(sel) ==> |PrepareInvoices(sel, fetch)| == |sel|
    decreases |sel|
  {
    if |sel| > 0 {
      var tail := sel[1..];
      PreparedCount(tail, fetch);
      if AllNamed(sel) {
        assert InvoiceName(sel[0]) != [];
        assert AllNamed(tail) by {
          forall i | 0 <= i < |tail| ensures InvoiceName(tail[i]) != [] {
            assert tail[i] == sel[i + 1];
          }
        }
      }
    }
  }

  /** Prepared invoice `k` has a name, the name of some selected invoice. */
  lemma {:induction false} PreparedFrom(sel: seq<SelectedInvoice>, fetch: string -> Option<int>, k: int)
    requires 0 <= k < |PrepareInvoices(sel, fetch)|
    ensures PrepareInvoices(sel, fetch)[k].name != []
    ensures exists i :: 0 <= i < |sel| && PrepareInvoices(sel, fetch)[k].name == InvoiceName(sel[i])
    decreases |sel|
  {
    var tail := sel[1..];
    var rest := PrepareInvoices(tail, fetch);
    var r := PrepareInvoices(sel, fetch);
    if InvoiceName(sel[0]) == [] {
      assert r == rest;
      PreparedFrom(tail, fetch, k);
      var i :| 0 <= i < |tail| && rest[k].name == InvoiceName(tail[i]);
      assert tail[i] == sel[i + 1];
    } else if k == 0 {
      assert r[0].name == InvoiceName(sel[0]);
    } else {
      assert r[k] == rest[k - 1];
      PreparedFrom(tail, fetch, k - 1);
      var i :| 0 <= i < |tail| && rest[k - 1].name == InvoiceName(tail[i]);
      assert tail[i] == sel[i + 1];
    }
  }

  // ---------------------------------------------------------------------
  // Phase 1: M-Pesa (payment_entry.py:705-717)

  function SubmitMpesa(st: State, names: seq<string>, gw: Gateway): State
    decreases |names|
  {
    if |names| == 0 then st
    else
      var next := match gw.submitMpesa(names[0])
        case Submitted(entry) =>
          st.(newEntries := st.newEntries + [MpesaEntry(entry)], allEntries := st.allEntries + [MpesaEntry(entry)])
        case SubmitFailed(msg) => st.(errors := st.errors + [Raised(msg)]);
      SubmitMpesa(next, names[1..], gw)
  }

  function MpesaPhase(st: State, p: Payload, gw: Gateway): State
  {
    if p.flags.allowMpesaReconcile && |p.mpesa| > 0 && p.totalMpesa > 0 then SubmitMpesa(st, p.mpesa, gw) else st
  }

  // ---------------------------------------------------------------------
  // Phase 2: selected credits (payment_entry.py:719-915)

  predicate IsNote(c: SelectedCredit)
  {
    c.isCreditNote || c.voucherType == "Sales Invoice"
  }

  function Fail(st: State, e: PosError): State
  {
    st.(errors := st.errors + [e])
  }

  /** A credit note (payment_entry.py:725-829). */
  function SettleNote(st: State, name: string, gw: Gateway): State
  {
    match gw.loadNote(name)
    case None => Fail(st, NoteLoadFailed(name))
    case Some(docOutstanding) =>
      var credit := Abs(docOutstanding);
      if credit <= 0 then Fail(st, NoteFullyAllocated(name))
      else if Total(st.invoices) <= 0 then Fail(st, NoOutstandingForNote(name))
      else
        var p := PlanCredit(st.invoices, credit);
        var placed := credit - p.leftover;
        if placed <= 0 then Fail(st.(invoices := p.invoices), NoAllocationForNote(name))
        else
          match gw.postNote(name, p.allocations)
          case Some(msg) => Fail(st.(invoices := p.invoices), Raised(msg))
          case None =>
            st.(invoices := p.invoices,
                reconciled := st.reconciled + [Reconciled(name, placed)],
                allEntries := st.allEntries + [NoteEntry(name)],
                errors := st.errors + (if p.leftover > 0 then [NoteUnapplied(name, p.leftover)] else []))
  }

  /** An unallocated Payment Entry (payment_entry.py:831-915). */
  function SettlePayment(st: State, name: string, gw: Gateway): State
  {
    match gw.loadPayment(name)
    case None => Fail(st, PaymentLoadFailed(name))
    case Some(unallocated) =>
      if unallocated <= 0 then Fail(st, PaymentFullyAllocated(name))
      else if Total(st.invoices) <= 0 then Fail(st, NoOutstandingForPayment(name))
      else if unallocated > Total(st.invoices) then Fail(st, PaymentExceedsOutstanding(name))
      else
        var p := PlanCredit(st.invoices, unallocated);
        if unallocated - p.leftover <= 0 then Fail(st.(invoices := p.invoices), NoAllocationForPayment(name))
        else
          match gw.postPayment(name, p.allocations)
          case PostFailed(msg) => Fail(st.(invoices := p.invoices), Raised(msg))
          case Posted(after) =>
            st.(invoices := p.invoices,
                reconciled := st.reconciled + [Reconciled(name, unallocated - after)],
                allEntries := st.allEntries + [PaymentDoc(name)])
  }

  function SettleCredits(st: State, credits: seq<SelectedCredit>, gw: Gateway): State
    decreases |credits|
  {
    if |credits| == 0 then st
    else
      var c := credits[0];
      var next := if IsNote(c) then SettleNote(st, c.name, gw) else SettlePayment(st, c.name, gw);
      SettleCredits(next, credits[1..], gw)
  }

  function CreditsPhase(st: State, p: Payload, gw: Gateway): State
  {
    if p.flags.allowReconcile && |p.credits| > 0 && p.totalCredits > 0 then SettleCredits(st, p.credits, gw) else st
  }

  // ---------------------------------------------------------------------
  // Phase 3: new payments (payment_entry.py:917-973)

  /** A zero amount is skipped; any other amount (a negative one too) creates
      an entry, whose references come from the same greedy walk. */
  function PayWith(st: State, m: PaymentMethod, gw: Gateway): State
  {
    if m.amount == 0 then st
    else
      match gw.createPayment(m)
      case CreateFailed(msg) => Fail(st, Raised(msg))
      case Created(entry, paid) =>
        var p := PlanCredit(st.invoices, m.amount);
        var placed := m.amount - p.leftover;
        var doc := NewPayment(entry, paid, placed, paid - placed, p.allocations);
        match gw.finalize(entry, p.allocations)
        case Some(msg) => Fail(st.(invoices := p.invoices), Raised(msg))
        case None =>
          st.(invoices := p.invoices, newEntries := st.newEntries + [doc], allEntries := st.allEntries + [doc])
  }

  function PayAll(st: State, methods: seq<PaymentMethod>, gw: Gateway): State
    decreases |methods|
  {
    if |methods| == 0 then st else PayAll(PayWith(st, methods[0], gw), methods[1..], gw)
  }

  function NewPaymentsPhase(st: State, p: Payload, gw: Gateway): State
  {
    if p.flags.allowNewPayments && |p.methods| > 0 && p.totalMethods > 0 then PayAll(st, p.methods, gw) else st
  }

  // ---------------------------------------------------------------------
  // The endpoint (payment_entry.py:651-1019)

  function FirstMissing(p: Payload): Option<Refusal>
  {
    if !p.flags.usePosPayments then Some(PaymentsDisabled)
    else if p.customer == [] then Some(CustomerMissing)
    else if p.company == [] then Some(CompanyMissing)
    else if p.currency == [] then Some(CurrencyMissing)
    else if p.profileName == [] then Some(ProfileMissing)
    else if p.shiftName == [] then Some(ShiftMissing)
    else None
  }

  /** The three phases, in their fixed order, over one shared invoice list.
      The HTML message built for display is left out. */
  function ProcessPosPayment(p: Payload, gw: Gateway): (r: Response)
    ensures r.Refused? <==>
              !p.flags.usePosPayments || p.customer == [] || p.company == [] || p.currency == []
              || p.profileName == [] || p.shiftName == []
    ensures r.Refused? && p.flags.usePosPayments ==> r.reason != PaymentsDisabled
    ensures r.Refused? && p.customer != [] ==> r.reason != CustomerMissing
    ensures r.Refused? && p.customer == [] && p.flags.usePosPayments ==> r.reason == CustomerMissing
  {
    match FirstMissing(p)
    case Some(reason) => Refused(reason)
    case None =>
      var start := State(PrepareInvoices(p.invoices, gw.invoiceOutstanding), [], [], [], []);
      Processed(NewPaymentsPhase(CreditsPhase(MpesaPhase(start, p, gw), p, gw), p, gw))
  }

  // ---------------------------------------------------------------------
  // Properties

  /** Validation happens before anything else: the first missing field, in
      the order profile flag, customer, company, currency, profile name,
      shift, is the one reported. */
  lemma ValidationOrder(p: Payload, gw: Gateway)
    ensures ProcessPosPayment(p, gw).Refused? ==> Some(ProcessPosPayment(p, gw).reason) == FirstMissing(p)
    ensures p.flags.usePosPayments && p.customer != [] && p.company != [] && p.currency == [] ==>
              ProcessPosPayment(p, gw) == Refused(CurrencyMissing)
    ensures p.flags.usePosPayments && p.customer != [] && p.company != [] && p.currency != []
            && p.profileName != [] && p.shiftName == [] ==>
              ProcessPosPayment(p, gw) == Refused(ShiftMissing)
  {
  }

  lemma {:induction false} SomePositive(invs: seq<Receivable>)
    requires Total(invs) > 0
    ensures exists i :: 0 <= i < |invs| && invs[i].outstanding > 0
    decreases |invs|
  {
    if invs[0].outstanding <= 0 {
      SomePositive(invs[1..]);
      var i :| 0 <= i < |invs[1..]| && invs[1..][i].outstanding > 0;
      assert invs[i + 1].outstanding > 0;
    }
  }

  /** With a positive credit and a positive total outstanding, the walk
      always allocates something, so the "no allocation made" branches of
      both credit kinds (payment_entry.py:798-803, 893-896) never fire. */
  lemma WalkAllocates(invs: seq<Receivable>, credit: int)
    requires credit > 0 && Total(invs) > 0
    ensures credit - PlanCredit(invs, credit).leftover > 0
  {
    PlanUsesMin(invs, credit);
    PositiveTotalBounds(invs);
  }

  /** A Payment Entry worth more than the total outstanding is refused with
      an error and leaves the invoice list untouched. */
  lemma ExcessPaymentRefused(st: State, name: string, gw: Gateway)
    requires gw.loadPayment(name).Some?
    requires gw.loadPayment(name).value > 0 && Total(st.invoices) > 0
    requires gw.loadPayment(name).value > Total(st.invoices)
    ensures SettlePayment(st, name, gw)
            == st.(errors := st.errors + [PaymentExceedsOutstanding(name)])
  {
  }

  /** A Payment Entry that passes the checks is allocated in full: its whole
      unallocated amount is spread over the invoices, which drop by exactly
      that amount, whether or not the ledger then accepts the posting. */
  lemma PaymentFullyPlaced(st: State, name: string, gw: Gateway)
    requires gw.loadPayment(name).Some?
    requires 0 < gw.loadPayment(name).value <= Total(st.invoices)
    ensures var p := PlanCredit(st.invoices, gw.loadPayment(name).value);
      && p.leftover == 0
      && SettlePayment(st, name, gw).invoices == p.invoices
      && Total(st.invoices) - Total(p.invoices) == gw.loadPayment(name).value
      && AllocSum(p.allocations) == gw.loadPayment(name).value
  {
    var u := gw.loadPayment(name).value;
    PlanUsesMin(st.invoices, u);
    PositiveTotalBounds(st.invoices);
    PlanConserves(st.invoices, u);
  }

  /**
   * A credit note worth more than the open invoices allocates what they can
   * take, is reported as reconciled for that amount, and its remainder is
   * reported as an unapplied balance rather than dropped: reconciled amount
   * plus reported balance equals the note's balance.
   */
  lemma NoteRemainderReported(st: State, name: string, gw: Gateway)
    requires gw.loadNote(name).Some?
    requires Abs(gw.loadNote(name).value) > 0 && Total(st.invoices) > 0
    requires gw.postNote(name, PlanCredit(st.invoices, Abs(gw.loadNote(name).value)).allocations).None?
    ensures var credit := Abs(gw.loadNote(name).value);
      var r := SettleNote(st, name, gw);
      && |r.reconciled| == |st.reconciled| + 1
      && r.reconciled[|st.reconciled|].amount == Min(credit, PositiveTotal(st.invoices))
      && (credit > PositiveTotal(st.invoices) ==>
            r.errors == st.errors + [NoteUnapplied(name, credit - PositiveTotal(st.invoices))])
      && (credit <= PositiveTotal(st.invoices) ==> r.errors == st.errors)
  {
    var credit := Abs(gw.loadNote(name).value);
    WalkAllocates(st.invoices, credit);
    PlanUsesMin(st.invoices, credit);
  }

  /** A failed posting is not rolled back here: the invoice list keeps the
      lowered amounts of the failed plan, so later phases see less
      outstanding than the ledger holds. */
  lemma FailedNoteNotRestored(st: State, name: string, gw: Gateway)
    requires gw.loadNote(name).Some?
    requires Abs(gw.loadNote(name).value) > 0 && Total(st.invoices) > 0
    requires gw.postNote(name, PlanCredit(st.invoices, Abs(gw.loadNote(name).value)).allocations).Some?
    ensures var credit := Abs(gw.loadNote(name).value);
      && SettleNote(st, name, gw).invoices == PlanCredit(st.invoices, credit).invoices
      && Total(SettleNote(st, name, gw).invoices) == Total(st.invoices) - Min(credit, PositiveTotal(st.invoices))
      && Total(SettleNote(st, name, gw).invoices) < Total(st.invoices)
  {
    var credit := Abs(gw.loadNote(name).value);
    WalkAllocates(st.invoices, credit);
    PlanUsesMin(st.invoices, credit);
    PlanConserves(st.invoices, credit);
  }

  /** A new payment records unallocated = paid − allocated, where the
      allocated part is what its references add up to: min(amount, Σ positive
      outstanding) for a positive amount and nothing for a negative one. */
  lemma NewPaymentAccounts(st: State, m: PaymentMethod, gw: Gateway)
    requires m.amount != 0 && gw.createPayment(m).Created?
    requires gw.finalize(gw.createPayment(m).entry, PlanCredit(st.invoices, m.amount).allocations).None?
    ensures var r := PayWith(st, m, gw);
      && |r.newEntries| == |st.newEntries| + 1
      && var doc := r.newEntries[|st.newEntries|];
      && doc.NewPayment?
      && doc.unallocatedAmount == doc.paidAmount - doc.allocatedAmount
      && doc.allocatedAmount == AllocSum(doc.references)
      && doc.allocatedAmount == (if m.amount > 0 then Min(m.amount, PositiveTotal(st.invoices)) else 0)
  {
    PlanConserves(st.invoices, m.amount);
    if m.amount > 0 {
      PlanUsesMin(st.invoices, m.amount);
    }
  }

  /** Phase 1 never touches the invoice list or the reconciled list. */
  lemma {:induction false} MpesaKeepsInvoices(st: State, names: seq<string>, gw: Gateway)
    ensures SubmitMpesa(st, names, gw).invoices == st.invoices
    ensures SubmitMpesa(st, names, gw).reconciled == st.reconciled
    ensures |SubmitMpesa(st, names, gw).newEntries| + |SubmitMpesa(st, names, gw).errors|
            == |st.newEntries| + |st.errors| + |names|
    decreases |names|
  {
    if |names| > 0 {
      var next := match gw.submitMpesa(names[0])
        case Submitted(entry) =>
          st.(newEntries := st.newEntries + [MpesaEntry(entry)], allEntries := st.allEntries + [MpesaEntry(entry)])
        case SubmitFailed(msg) => st.(errors := st.errors + [Raised(msg)]);
      MpesaKeepsInvoices(next, names[1..], gw);
    }
  }

  /** Phase 3 never adds to the reconciled list and only appends new
      payments after the entries already there. */
  lemma {:induction false} PayAllAppends(st: State, methods: seq<PaymentMethod>, gw: Gateway)
    ensures PayAll(st, methods, gw).reconciled == st.reconciled
    ensures |PayAll(st, methods, gw).newEntries| >= |st.newEntries|
    ensures PayAll(st, methods, gw).newEntries[..|st.newEntries|] == st.newEntries
    ensures forall k :: |st.newEntries| <= k < |PayAll(st, methods, gw).newEntries| ==>
              PayAll(st, methods, gw).newEntries[k].NewPayment?
    decreases |methods|
  {
    if |methods| > 0 {
      var next := PayWith(st, methods[0], gw);
      PayAllAppends(next, methods[1..], gw);
      assert next.newEntries[..|st.newEntries|] == st.newEntries;
    }
  }

  /** Phase order: in `new_payments_entry` every M-Pesa entry comes before
      every payment created in phase 3, and `reconciled_payments` is filled
      by phase 2 alone. */
  lemma PhaseOrder(p: Payload, gw: Gateway)
    requires ProcessPosPayment(p, gw).Processed?
    ensures var start := State(PrepareInvoices(p.invoices, gw.invoiceOutstanding), [], [], [], []);
      var afterMpesa := MpesaPhase(start, p, gw);
      var afterCredits := CreditsPhase(afterMpesa, p, gw);
      var r := ProcessPosPayment(p, gw).state;
      && afterMpesa.invoices == start.invoices
      && r.reconciled == afterCredits.reconciled
      && (forall k :: 0 <= k < |afterMpesa.newEntries| ==> afterMpesa.newEntries[k].MpesaEntry?)
      && |r.newEntries| >= |afterCredits.newEntries|
      && r.newEntries[..|afterCredits.newEntries|] == afterCredits.newEntries
      && (forall k :: |afterCredits.newEntries| <= k < |r.newEntries| ==> r.newEntries[k].NewPayment?)
  {
    var start := State(PrepareInvoices(p.invoices, gw.invoiceOutstanding), [], [], [], []);
    MpesaKeepsInvoices(start, p.mpesa, gw);
    MpesaEntriesOnly(start, p.mpesa, gw);
    var afterCredits := CreditsPhase(MpesaPhase(start, p, gw), p, gw);
    PayAllAppends(afterCredits, p.methods, gw);
  }

  lemma {:induction false} MpesaEntriesOnly(st: State, names: seq<string>, gw: Gateway)
    requires forall k :: 0 <= k < |st.newEntries| ==> st.newEntries[k].MpesaEntry?
    ensures forall k :: 0 <= k < |SubmitMpesa(st, names, gw).newEntries| ==>
              SubmitMpesa(st, names, gw).newEntries[k].MpesaEntry?
    decreases |names|
  {
    if |names| > 0 {
      var next := match gw.submitMpesa(names[0])
        case Submitted(entry) =>
          st.(newEntries := st.newEntries + [MpesaEntry(entry)], allEntries := st.allEntries + [MpesaEntry(entry)])
        case SubmitFailed(msg) => st.(errors := st.errors + [Raised(msg)]);
      MpesaEntriesOnly(next, names[1..], gw);
    }
  }
}
