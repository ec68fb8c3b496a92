# POS Awesome receivables and till logic in Dafny

This project models the core of POS Awesome, a point-of-sale front end
and API for ERPNext. At its centre is the receivable reconciliation
engine of `posawesome/posawesome/api/payment_entry.py`.

`auto_reconcile_customer_invoices` works in these steps:
- it sorts a customer's open invoices by posting date, then due date, then voucher number;
- it sorts the available credits (unallocated Payment Entries and return credit notes) by posting date, then name;
- it walks the invoices first-in-first-out for each credit, allocating min(remaining credit, outstanding);
- when the ledger posting fails, it puts the lowered amounts back;
- it reports allocations, skips, totals and what remains open.

`process_pos_payment` validates the request. It then runs three phases over one shared invoice list: M-Pesa settlements, then selected existing credits, then new payments. All three reuse the same greedy step.

Around that engine sit the smaller pieces of till logic the point of sale relies on. One module models each:
- the stock availability ledger and the offline stock cache;
- offer eligibility, offer bookkeeping and promotional-scheme offers;
- return-invoice sign normalisation and payment clamping in the merge log;
- return-quantity and stock validation;
- price-row selection and search tokenisation;
- cart line merging and first-expiry batch selection;
- snapshot diffing of the invoice;
- the update, loading and queue state machines;
- the numeral, date and print-template string conversions.

Representation:
- Amounts in the reconciliation (`Reconcile`, `PosPayment`) and the merge log are integers in minor units.
- Quantities, rates, prices, stock levels, offer bounds and discounts are `real`, as the JavaScript numbers and Python floats they stand for.
- Counts, indices, flags, loading percentages and timestamps are integers.
- Dates are day numbers and times are milliseconds.
- The clock, the database, the ledger postings and server replies are parameters of the functions that need them, so every operation is a pure function or a small method.

`process_pos_payment` keeps the lowered amounts of a failed posting for the rest of the request. Only `auto_reconcile_customer_invoices` puts them back (`_restore_outstandings`). See `PosPayment.FailedNoteNotRestored`.

## Model

| member | source | states |
|---|---|---|
| BatchSerial.SerialTextRoundTrip | frontend/src/posapp/composables/useBatchSerial.js:8-11 | the serial text (each number followed by a line break) reads back as exactly the selected numbers when none contains a line break |
| BatchSerial.SetSerialNo | frontend/src/posapp/composables/useBatchSerial.js:5-18 | a row without serial numbers is untouched; otherwise the text lists the selected serials, the count is their number, and the quantity becomes that count only when it differs from the stock quantity |
| BatchSerial.SetSerialNoIdempotent | frontend/src/posapp/composables/useBatchSerial.js:5-18 | setting the serial numbers a second time changes nothing |
| BatchSerial.UsedQtyIgnoresOthers | frontend/src/posapp/composables/useBatchSerial.js:23-39 | rows of another item, the row itself and rows on another batch take nothing from a batch |
| BatchSerial.WithRemaining | frontend/src/posapp/composables/useBatchSerial.js:27-39 | both the batch quantity and the remaining quantity are reduced by what the other rows of the item use on that batch; identity and dates are kept |
| BatchSerial.LastIndex | frontend/src/posapp/composables/useBatchSerial.js:27-32 | the last listing of a batch number carries it and no later batch does; there is none only when no batch carries the number |
| BatchSerial.Assign | frontend/src/posapp/composables/useBatchSerial.js:28-32 | assigning under a new batch number adds the key after the others; an existing key keeps its place; the value under the key is replaced, every other key keeps its value, and the object stays well keyed |
| BatchSerial.UsedBatches | frontend/src/posapp/composables/useBatchSerial.js:26-40 | the object built from the batch list is well keyed: each key once, the same keys in the key order and the values, every value under its own batch number |
| BatchSerial.UsedBatchesKeys | frontend/src/posapp/composables/useBatchSerial.js:26-40 | the object's keys are the batch numbers, each once, in order of first listing |
| BatchSerial.UsedBatchesValues | frontend/src/posapp/composables/useBatchSerial.js:26-40 | a key exists exactly for the numbers some batch carries, and its value is the batch listed last under it, less what the other rows use |
| BatchSerial.InsertKeyAscending | frontend/src/posapp/composables/useBatchSerial.js:42 | inserting a key into keys in ascending numeric order keeps them ascending |
| BatchSerial.SortIndexKeys | frontend/src/posapp/composables/useBatchSerial.js:42 | the array-index keys are reordered, none lost or added, into ascending numeric order |
| BatchSerial.OwnKeysMembers | frontend/src/posapp/composables/useBatchSerial.js:42 | the keys `Object.values` walks are exactly the object's keys, each once |
| BatchSerial.OwnKeysOrdered | frontend/src/posapp/composables/useBatchSerial.js:42 | `Object.values` walks the array-index keys first in ascending numeric order, then the other keys in creation order (section 10.1.11.1 of ECMA-262) |
| BatchSerial.Values | frontend/src/posapp/composables/useBatchSerial.js:42 | `Object.values` gives the value under each own key, in own-key order |
| BatchSerial.ValuesAreLastListings | frontend/src/posapp/composables/useBatchSerial.js:26-42 | every value is the last listing of its batch number less the other rows' use, and every batch number's last listing is among the values |
| BatchSerial.ValuesInKeyOrder | frontend/src/posapp/composables/useBatchSerial.js:26-42 | the values carry distinct batch numbers, in `Object.values` key order |
| BatchSerial.Available | frontend/src/posapp/composables/useBatchSerial.js:26-43 | the batches with stock left: one per batch number, the one listed last under it less the other rows' use, every such batch with stock left included, and in `Object.values` order (array-index numbers ascending, then the other numbers in order of first listing) |
| BatchSerial.TwoBatchesAvailable | frontend/src/posapp/composables/useBatchSerial.js:26-43 | for batches "B1" then "7", both with stock, the available list is "7" first, then "B1" |
| BatchSerial.IndexKeyGoesFirst | frontend/src/posapp/composables/useBatchSerial.js:42-43 | a list in key order that holds exactly one array-index batch and one named batch, each once, holds the array-index batch first |
| BatchSerial.IndexNumberedBatchFirstOnTie | frontend/src/posapp/composables/useBatchSerial.js:26-69 | when the FEFO comparator ties batches "B1" and "7" (listed in that order, both undated, same quantity) and no batch is requested, the row gets "7" |
| BatchSerial.BatchLeTotal | frontend/src/posapp/composables/useBatchSerial.js:44-60 | the FEFO comparator orders any two batches one way or the other |
| BatchSerial.BatchLeTransitive | frontend/src/posapp/composables/useBatchSerial.js:44-60 | the FEFO comparator is transitive, so sorting by it is well defined |
| BatchSerial.InsertSorted | frontend/src/posapp/composables/useBatchSerial.js:44-60 | inserting a batch into a FEFO-sorted list keeps it sorted |
| BatchSerial.SortFefo | frontend/src/posapp/composables/useBatchSerial.js:44-60 | the sorted batches are in FEFO order (dated before undated by expiry, then by manufacture date, then larger remaining first) and a permutation of the input |
| BatchSerial.SortFefoHead | frontend/src/posapp/composables/useBatchSerial.js:44-60 | the first sorted batch is the earliest input batch among those that sort first, as the stable `Array.prototype.sort` gives |
| BatchSerial.TiedBatchesKeepOrder | frontend/src/posapp/composables/useBatchSerial.js:44-60 | two batches the comparator ties keep their input order |
| BatchSerial.DatedBeforeUndated | frontend/src/posapp/composables/useBatchSerial.js:45-50 | after sorting no batch without an expiry date precedes one with an expiry date |
| BatchSerial.FindBatch | frontend/src/posapp/composables/useBatchSerial.js:65 | `find`: the first batch in the list with the requested number, no earlier batch having it; nothing is found only when no batch has it |
| BatchSerial.SetBatchQty | frontend/src/posapp/composables/useBatchSerial.js:62-74 | the row keeps the available batches in FEFO order; it gets the requested batch when available, else the first; with no batch left all batch fields are cleared |
| BatchSerial.SetBatchQtyPicksFirstLeast | frontend/src/posapp/composables/useBatchSerial.js:62-69 | without a usable requested batch the row gets the first batch, in `Object.values` order of the available batches, among those that sort first |
| BatchSerial.ChosenBatchHasStock | frontend/src/posapp/composables/useBatchSerial.js:62-74 | a chosen batch is one of the item's batches less the other rows' use, has stock left, and its remaining quantity is the row's batch quantity |
| OfflineQueues.KeepNewest | frontend/src/offline/cache.js:454-456 | a queue within the limit is kept; a longer one keeps exactly its newest `limit` entries, as a suffix |
| OfflineQueues.PurgeOldQueueEntries | frontend/src/offline/cache.js:453-466 | after the purge no queue is over the limit (the health check of lines 446-451 passes), each queue keeps its newest entries and the sync totals are untouched |
| OfflineQueues.PurgeOnlyWhenOverLimit | frontend/src/offline/cache.js:446-466 | the purge changes nothing exactly when the health check finds no queue over the limit, and purging twice is purging once |
| OfflineQueues.ResetOfflineState | frontend/src/offline/cache.js:99-104 | all three queues are empty and the sync totals are zero, so the health check passes for any limit |
| CartValidation.FallbackValidation | frontend/src/posapp/composables/useCartValidation.js:189-243 | only a stock item with negative stock disallowed can fail, and it fails exactly when its available quantity is negative or the request exceeds it, with the shortage message |
| CartValidation.ValidateCartItem | frontend/src/posapp/composables/useCartValidation.js:27-125 | an item without code goes to the fallback check (the thrown error is caught); a template is refused; zero stock is refused when only in-stock items are shown; a stock item over its available quantity is refused with the shortage message while negative stock is disallowed; a stock item that gets past these steps passes when the server finds no issue, is refused with the server's shortage message (each part falling back to the item's own) when it reports one, and gets the fallback check when the server fails |
| CartValidation.MissingItemPasses | frontend/src/posapp/composables/useCartValidation.js:41-43 | a missing item passes: the "Invalid item data" error lands in the catch, whose fallback accepts a non-stock item |
| CartValidation.ValidateCartItemIntended | frontend/src/posapp/composables/useCartValidation.js:41-43 | the evidently intended check: a missing item or one without code is refused; otherwise the verdict is the one as written, and a passed item always has a code and is no template |
| CartValidation.AllowNegativeLeavesServer | frontend/src/posapp/composables/useCartValidation.js:73-109 | with negative stock allowed, a stock item is refused exactly when the server reports an issue |
| CartValidation.WithinStockPassesFallback | frontend/src/posapp/composables/useCartValidation.js:196-240 | a request within a non-negative available quantity passes the fallback check |
| CartValidation.RequestedQty | frontend/src/posapp/composables/useCartValidation.js:265 | the requested quantity is the entry's non-zero quantity, else 1, so never 0 |
| CartValidation.CodelessEntryListedValid | frontend/src/posapp/composables/useCartValidation.js:262-277 | an entry whose item has no code and passes the fallback lands in the valid list, as the as-written check decides |
| CartValidation.ValidateCartItemsSplits | frontend/src/posapp/composables/useCartValidation.js:251-284 | the valid and invalid lists together are a permutation of the entries |
| CartValidation.ValidateCartItemsSorted | frontend/src/posapp/composables/useCartValidation.js:251-284 | every valid entry passes the item check, every invalid one fails it, and `hasErrors` holds exactly when some entry is invalid |
| Common.TrimIdempotent | frontend/src/posapp/stores/customersStore.js:17-22 | trimming (`String.trim`, `str.strip`) a trimmed text changes nothing |
| Common.TrimEmptyIffBlank | frontend/src/posapp/stores/customersStore.js:36-39 | the trimmed text is empty exactly when every character is whitespace |
| Common.LowerIdempotent | frontend/src/posapp/stores/customersStore.js:152 | lower-casing (`toLowerCase`, `str.lower`) twice is lower-casing once |
| Common.LexLeTotal | posawesome/posawesome/api/item_fetchers.py:32-35 | Python's string order compares any two strings |
| Common.LexLeAntisymmetric | posawesome/posawesome/api/item_fetchers.py:32-35 | two strings each ordered before the other are equal, so a sorted list of distinct codes is unique |
| Common.DedupFacts | posawesome/posawesome/api/offers.py:330-341 | the hand-written "seen set" loop keeps every new element once, nothing else, in order of first occurrence |
| CustomersStore.NormalizeSearchTerm | frontend/src/posapp/stores/customersStore.js:17-22 | a non-string term is empty; a string term is trimmed, so it neither starts nor ends with whitespace |
| CustomersStore.NormalizeSearchTermIdempotent | frontend/src/posapp/stores/customersStore.js:17-22 | normalising a normalised term changes nothing |
| CustomersStore.NormalizeProfile | frontend/src/posapp/stores/customersStore.js:24-54 | a missing profile is null; the `pos_profile` field is unwrapped; a blank string is null; a string starting with `{` or `[` is its parsed JSON, or null when it does not parse; another string is a trimmed name; an object is kept |
| CustomersStore.NormalizeProfileUnwraps | frontend/src/posapp/stores/customersStore.js:31-33 | an object carrying a non-empty `pos_profile` string normalises as that string |
| CustomersStore.NormalizeProfileName | frontend/src/posapp/stores/customersStore.js:50 | a trimmed non-JSON name becomes exactly `{ name }` |
| CustomersStore.Searchable | frontend/src/posapp/stores/customersStore.js:158-166 | the searched values are exactly the lower-cased present fields |
| CustomersStore.FilterCustomers | frontend/src/posapp/stores/customersStore.js:150-174 | without a term the table is unfiltered; otherwise exactly the customers in which every search word occurs in some field |
| CustomersStore.MatchesWithMoreFields | frontend/src/posapp/stores/customersStore.js:172 | a customer that matches keeps matching when a field is added |
| CustomersStore.FieldItselfMatches | frontend/src/posapp/stores/customersStore.js:152-172 | searching for a customer's own single-word field value finds that customer |
| CustomersStore.PageOf | frontend/src/posapp/stores/customersStore.js:176-177 | a page is the slice at `page * 1000` of at most 1000 matches, and empty past the end |
| CustomersStore.PerformSearch | frontend/src/posapp/stores/customersStore.js:176-190 | appending adds the page to the list, else replaces it; more pages exist exactly when the page is full, and only then does the page number advance |
| CustomersStore.AppendedPagesArePrefix | frontend/src/posapp/stores/customersStore.js:176-190 | appending pages one after another lists exactly a prefix of the matches, the whole of the pages read so far |
| CustomersStore.IndexOfName | frontend/src/posapp/stores/customersStore.js:412 | `findIndex`: the first customer with the name, or -1 when none has it |
| CustomersStore.AddOrUpdateCustomer | frontend/src/posapp/stores/customersStore.js:408-419 | an unnamed customer changes nothing; otherwise the first entry with the same name is replaced in place and nothing else moves, or the customer is appended |
| CustomersStore.AddOrUpdateCustomerIdempotent | frontend/src/posapp/stores/customersStore.js:408-419 | adding the same customer twice is adding it once |
| Discounts.SaleShare | frontend/src/posapp/composables/useDiscounts.js:22-34 | for a positive total, the signed magnitude of the percentage's share of the total is exactly that percentage of the total |
| Discounts.UpdateDiscountAmount | frontend/src/posapp/composables/useDiscounts.js:5-46 | a percentage outside [-100, 100] resets both fields to 0; a zero total gives no discount; the percentage kept is always within [-100, 100]; in percentage mode a return ends with a non-positive percentage and a non-positive discount equal to minus the percentage's share of the total's magnitude |
| Discounts.DiscountIsShareOfTotal | frontend/src/posapp/composables/useDiscounts.js:16-42 | the discount is the percentage's share of the total: for a sale with a positive total in percentage mode, and in amount mode with a return's total counted negative |
| Discounts.SaleQuotient | frontend/src/posapp/components/pos/invoiceWatchers.js:182-207 | for a positive sale total, dividing the discount back by the total gives the percentage that produced it |
| Discounts.ReturnQuotient | frontend/src/posapp/components/pos/invoiceWatchers.js:182-207 | for a return, the watcher's percentage for the computed negative discount is minus the magnitude of the entered percentage |
| Discounts.DiscountRoundTrip | frontend/src/posapp/composables/useDiscounts.js:5-46 | in percentage mode the percentage the `additional_discount` watcher derives from the computed discount is the percentage this computation kept, for sales with a positive total and for returns |
| Discounts.ConvertInverse | frontend/src/posapp/composables/useDiscounts.js:70-74 | converting to the selected currency divides by the exchange rate exactly when the selected currency differs from the price list's (the profile's when unset), so multiplying back by the rate restores the amount; in one currency the amount is kept; only zero converts to zero |
| Discounts.CalcPrices | frontend/src/posapp/composables/useDiscounts.js:49-184 | an event without a target id changes nothing; otherwise quantity, stored list rate, amounts and base list rate are kept, only a rate edit sets the manual-rate flag, the rate is never negative, and any other field leaves a non-negative-rate item alone; after an edit of rate, discount amount or percentage, rate plus discount amount is the converted list rate and base rate plus base discount is the stored list rate; a rate within [0, converted list rate] is taken as entered, with the base rate that rate divided by the exchange rate |
| Discounts.AmountEditCapped | frontend/src/posapp/composables/useDiscounts.js:106-136 | against a non-negative converted list rate, a discount amount edit takes the entry clamped to [0, converted list rate], and the base discount is that amount divided by the exchange rate |
| Discounts.PercentageEditCapped | frontend/src/posapp/composables/useDiscounts.js:138-162 | a percentage edit never leaves more than 100 percent; against a non-negative converted list rate it takes the entry clamped to [0, 100], and the discount is that share of the converted list rate while the base discount is that share of the stored list rate |
| Discounts.SameCurrencyBaseAgrees | frontend/src/posapp/composables/useDiscounts.js:71-104 | in one currency at an exchange rate of 1, an edit of rate, discount amount or percentage leaves base rate equal to rate and base discount equal to discount |
| Discounts.ConvertedRateEditLeavesBaseDiscount | frontend/src/posapp/composables/useDiscounts.js:72-103 | when the currencies differ and the exchange rate is positive and not 1, entering exactly the converted list rate as rate gives no discount and 0 percent in the selected currency but a non-zero base discount, because the list rate and the entered rate are both divided by the exchange rate |
| Discounts.PercentageAmountRoundTrip | frontend/src/posapp/composables/useDiscounts.js:49-184 | against a positive converted list rate, entering as discount amount what a percentage edit in [0, 100] produced gives back that percentage, that discount and that rate |
| Discounts.EditRoundTrip | frontend/src/posapp/composables/useDiscounts.js:106-162 | the rate, discount and percentage after a percentage edit are a fixed point of the discount amount edit fed the amount it produced |
| Discounts.CalcItemPrice | frontend/src/posapp/composables/useDiscounts.js:187-279 | an item marked to skip only has its mark cleared; otherwise the amount is quantity times rate and the base amount is its conversion; a locked-price or offer-priced item only has its two amounts recomputed; quantity and percentage are kept and the skip mark is always cleared |
| Discounts.CalcItemPriceRebases | frontend/src/posapp/composables/useDiscounts.js:224-244 | with a list rate, the base list rate and base rate are kept when stored, or first taken from the list rate and rate; the list rate shown is the converted base list rate, and without a percentage so is the rate |
| Discounts.CalcItemPriceReappliesDiscount | frontend/src/posapp/composables/useDiscounts.js:246-267 | a non-zero percentage sets the discount to that share of the recomputed list rate, the rate to the list rate less the discount, and the base discount to the converted discount |
| Discounts.ConvertedListRateExample | frontend/src/posapp/composables/useDiscounts.js:224-279 | with a price list in another currency at an exchange rate of 2, an undiscounted item with list rate and rate 10 is shown at 5, its amount is quantity times 5, and its base amount is half of that |
| Discounts.CalcItemPriceIdempotent | frontend/src/posapp/composables/useDiscounts.js:187-279 | for an item without the skip mark, recomputing the price a second time in the same currencies changes nothing |
| Discounts.SkipDefersOnce | frontend/src/posapp/composables/useDiscounts.js:189-192 | a skipped recalculation is only deferred: the next call computes what the unmarked item would have got |
| Format.FromArabicChar | frontend/src/posapp/format.js:65-82 | an Arabic-Indic digit becomes the ASCII digit of the same value, the Arabic separators become "," and "."; every other character is kept; no Arabic numeral character is left |
| Format.ToArabicChar | frontend/src/posapp/format.js:47-62 | an ASCII digit becomes the Arabic-Indic digit of the same value; every other character is kept |
| Format.FromArabic | frontend/src/posapp/format.js:65-82 | the text keeps its length; each Arabic-Indic digit becomes the ASCII digit of the same value, each "٬" a comma and each "٫" a point, and every other character is kept |
| Format.ToArabic | frontend/src/posapp/format.js:47-62 | the identity when Arabic numerals are not wanted; otherwise each character is converted on its own and the length is kept |
| Format.FromArabicIdempotent | frontend/src/posapp/format.js:65-82 | after conversion no Arabic numeral character is left, so converting again changes nothing |
| Format.ArabicRoundTrip | frontend/src/posapp/format.js:47-82 | for text without Arabic numeral characters, converting to Arabic numerals and back gives the text back, in either display mode |
| Format.ToArabicTouchesDigitsOnly | frontend/src/posapp/format.js:47-62 | a character changes on the way to Arabic numerals exactly when Arabic mode is on and it is an ASCII digit |
| Format.ClampPrecision | frontend/src/posapp/format.js:120-124 | the precision is always within [0, 20]; an integer in that range is kept; NaN gives the default 2; above 20 and below 1e21 gives 20; from 1e21 up, and for a positive value below 1e-6, where `String` writes the exponent form and `parseInt` stops at the point or the "e", it is the value's leading digit; a magnitude in [1e-6, 1) gives 2; at most -1, or a negative value above -1e-6, gives 0 |
| Format.ParseIntOfNumber | frontend/src/posapp/format.js:122-123 | `parseInt` of a number: its truncation toward zero when `String` writes it as a plain decimal, and its sign with its leading digit in the exponent form (magnitude from 1e21 up or below 1e-6) |
| Format.LeadingDigitScales | frontend/src/posapp/format.js:122-123 | the leading digit of a number in [1, 10) is its integer part, and multiplying by ten keeps the leading digit |
| Format.LeadingDigitShift | frontend/src/posapp/format.js:122-123 | multiplying by any power of ten keeps the leading digit |
| Format.ExponentFormPrecisions | frontend/src/posapp/format.js:120-124 | a precision of 1e21 gives 1, one of 5e-7 gives 5, and one just below 1e21 gives 20 |
| Format.SmallFractionBecomesTwo | frontend/src/posapp/format.js:120-124 | a fractional precision such as 0.5 or -0.5 truncates to 0, which the `||` fallback treats as missing, so it becomes 2 |
| Format.SanitizeAmount | frontend/src/posapp/format.js:164-183 | NaN is stored as 0; with `no_negative` the stored value is never negative and a negative input becomes its absolute value; otherwise the value is stored as parsed |
| Format.IsNegative | frontend/src/posapp/format.js:218-222 | a missing or unparsable value is not negative |
| Format.SanitizedNotNegative | frontend/src/posapp/format.js:164-222 | a value stored with `no_negative` never shows as negative, and one stored without it shows as negative exactly when the parsed input was negative |
| Invoice.CountedCoupons | posawesome/posawesome/api/invoice.py:171-175 | the coupons whose usage is counted are exactly the applied ones, never more than listed |
| Invoice.CountedCouponsOnePerApplied | posawesome/posawesome/api/invoice.py:171-175 | one usage update per applied coupon |
| Invoice.AutoSetDeliveryCharges | posawesome/posawesome/api/invoice.py:187-214 | nothing changes without a profile that sets charges automatically, nor when a charge already has a rate; a charge without rate takes the first applicable charge's rate; with no charge the first applicable charge is chosen with its rate, else both fields are cleared; the charge name changes only when none was set |
| Invoice.AutoSetDeliveryChargesIdempotent | posawesome/posawesome/api/invoice.py:187-214 | running it a second time changes nothing when the applicable charges have names |
| Invoice.ApplyRows | posawesome/posawesome/api/invoice.py:285-297 | the tax rows keep their number and each is updated on its own, by the as-written or the intended rule |
| Invoice.ApplyTaxInclusive | posawesome/posawesome/api/invoice.py:276-299 | as written: without a profile nothing happens; with one each row keeps its charge type and stays included only if it was and is not "Actual"; totals are recalculated exactly when some row changed |
| Invoice.InclusiveSettingIgnored | posawesome/posawesome/api/invoice.py:285-297 | as written the profile's setting makes no difference: a row "On Net Total" that is not included stays so even when the profile asks for inclusive taxes |
| Invoice.ApplyTaxInclusiveIntended | posawesome/posawesome/api/invoice.py:276-299 | as evidently intended: with a profile every row that is not "Actual" is included exactly when the profile asks for it, "Actual" rows are never included, and totals are recalculated exactly when some row changed |
| Invoice.ApplyTaxInclusiveSettles | posawesome/posawesome/api/invoice.py:276-299 | a second run of either version changes no row, so it recalculates nothing |
| Invoice.ValidateShift | posawesome/posawesome/api/invoice.py:302-313 | an invoice without opening shift, profile or POS flag passes; otherwise it passes exactly when the shift is open and of the same profile and company, and the first failed test names the shift in its error |
| InvoiceComputed.CountedQty | frontend/src/posapp/components/pos/invoiceComputed.js:40-41 | a line counts with its quantity's magnitude on a return and with its signed quantity otherwise |
| InvoiceComputed.Total | frontend/src/posapp/components/pos/invoiceComputed.js:29-50 | a numeric store total is used, as its magnitude on a return; without one the total is the sum over the lines of counted quantity times rate |
| InvoiceComputed.ReturnLinesTotalNonNegative | frontend/src/posapp/components/pos/invoiceComputed.js:38-44 | on a return with non-negative rates the line total is never negative, whatever the quantities' signs |
| InvoiceComputed.ReturnTotalIgnoresSigns | frontend/src/posapp/components/pos/invoiceComputed.js:38-44 | negating every quantity leaves a return's line total unchanged |
| InvoiceComputed.SubtotalFromTotal | frontend/src/posapp/components/pos/invoiceComputed.js:52-85 | the subtotal is the total with the additional discount added back on a return or taken off on a sale, plus the delivery charges |
| InvoiceComputed.Split | frontend/src/posapp/components/pos/invoiceComputed.js:112-129 | splitting on "-" yields at least one part, no part holds a dash, and joining the parts with dashes gives the text back |
| InvoiceComputed.SplitJoin | frontend/src/posapp/components/pos/invoiceComputed.js:112-129 | splitting undoes joining parts that hold no dash |
| InvoiceComputed.FormattedPostingDate | frontend/src/posapp/components/pos/invoiceComputed.js:112-120 | an empty date shows as empty; a date of exactly three dash-separated parts shows as a text whose parts are those three in reverse order; any other text is shown as it is |
| InvoiceComputed.SetFormattedPostingDate | frontend/src/posapp/components/pos/invoiceComputed.js:121-128 | a shown date of exactly three dash-separated parts is stored with those parts in reverse order; any other text is stored as it is |
| InvoiceComputed.SwappedTwice | frontend/src/posapp/components/pos/invoiceComputed.js:112-129 | reversing the order of three date parts twice gives them back |
| InvoiceComputed.PostingDateRoundTrip | frontend/src/posapp/components/pos/invoiceComputed.js:112-129 | the setter undoes the getter and the getter undoes the setter, for every text |
| InvoiceComputed.ThreePartDateReversed | frontend/src/posapp/components/pos/invoiceComputed.js:112-128 | for dash-free year, month and day, YYYY-MM-DD is shown as DD-MM-YYYY, and DD-MM-YYYY is stored as YYYY-MM-DD |
| InvoiceComputed.BlockSaleBeyondAvailableQty | frontend/src/posapp/components/pos/invoiceComputed.js:144-150 | never for orders and quotations; otherwise exactly when the negative-stock setting parses as off and the profile asks for the block |
| InvoiceComputed.BlockedLineStopsAtLimit | frontend/src/posapp/components/pos/invoiceComputed.js:144-150 | when the block applies, a stock line whose stock quantity reaches the available quantity cannot be incremented |
| InvoiceStore.ToNumber | frontend/src/posapp/stores/invoiceStore.js:9-28 | a finite number is itself; a missing value, NaN, an infinity, a boolean or an object is 0; blank text or text that does not start with a number is 0 |
| InvoiceStore.ToNumberOfNumeral | frontend/src/posapp/stores/invoiceStore.js:16-24 | a decimal numeral, even followed by a unit, reads as its value |
| InvoiceStore.ToNumberOfDigits | frontend/src/posapp/stores/invoiceStore.js:16-24 | any non-empty digit string, even with leading zeros and followed by a unit, reads as its value |
| InvoiceStore.ToNumberOfParsed | frontend/src/posapp/stores/invoiceStore.js:16-24 | trimmed text that `parseFloat` reads as a number converts to that number |
| InvoiceStore.OrZero | frontend/src/posapp/stores/invoiceStore.js:152 | `x \|\| 0` keeps a truthy value and turns a falsy one into the number 0 |
| InvoiceStore.OrZeroKeepsNumber | frontend/src/posapp/stores/invoiceStore.js:152 | the `\|\| 0` fallback never changes what a value counts as |
| InvoiceStore.Touch | frontend/src/posapp/stores/invoiceStore.js:41-46 | the change counter goes up by one and nothing else changes |
| InvoiceStore.NormalizeDoc | frontend/src/posapp/stores/invoiceStore.js:48-58 | a missing document stays missing; a name becomes a document holding that name unless it is blank; a document is kept |
| InvoiceStore.SetInvoiceDoc | frontend/src/posapp/stores/invoiceStore.js:60-63 | the document is replaced by its normalised form, the rows stay, and the change counter goes up by one |
| InvoiceStore.MergeInvoiceDoc | frontend/src/posapp/stores/invoiceStore.js:65-69 | the merged document holds every patch field with the patch's value, every other field of the old document unchanged, and nothing else; the rows stay and the counter goes up by one |
| InvoiceStore.SetItems | frontend/src/posapp/stores/invoiceStore.js:71-74 | a list replaces the rows and anything else empties them; document and packed items stay; the counter goes up by one |
| InvoiceStore.ReplaceItemAt | frontend/src/posapp/stores/invoiceStore.js:76-85 | an index outside the rows changes nothing, not even the counter; otherwise exactly that row is replaced and the counter goes up by one |
| InvoiceStore.IndexOfRow | frontend/src/posapp/stores/invoiceStore.js:89-91 | the position of the first row with the id, or -1 exactly when no row has it |
| InvoiceStore.MergeRow | frontend/src/posapp/stores/invoiceStore.js:92-95 | the patched row keeps its id, takes every field of the patch and keeps every other field |
| InvoiceStore.UpsertItem | frontend/src/posapp/stores/invoiceStore.js:87-108 | a missing item changes nothing; a row with no id or an unknown id is appended; otherwise the first row with that id is merged in place; the rows grow by at most one and the counter goes up by one |
| InvoiceStore.WithoutRow | frontend/src/posapp/stores/invoiceStore.js:110-120 | the kept rows are exactly the rows with another id, and nothing is dropped exactly when no row has the id |
| InvoiceStore.RemoveItemByRowId | frontend/src/posapp/stores/invoiceStore.js:110-120 | a missing id or one no row has changes nothing; otherwise every row with it goes, the others stay in order, and the counter goes up by one |
| InvoiceStore.WithoutAbsentRow | frontend/src/posapp/stores/invoiceStore.js:110-120 | filtering out an id no row has keeps the rows |
| InvoiceStore.UpsertThenRemove | frontend/src/posapp/stores/invoiceStore.js:87-120 | appending a row with a fresh id and then removing that id restores the rows |
| InvoiceStore.WithoutRowAppend | frontend/src/posapp/stores/invoiceStore.js:110-120 | filtering out an id distributes over concatenation |
| InvoiceStore.ClearItems | frontend/src/posapp/stores/invoiceStore.js:122-127 | the rows become empty and only a non-empty list counts as a change |
| InvoiceStore.SetPackedItems | frontend/src/posapp/stores/invoiceStore.js:129-132 | a list replaces the packed items and anything else empties them; the rest stays; the counter goes up by one |
| InvoiceStore.Clear | frontend/src/posapp/stores/invoiceStore.js:134-139 | the store is back in its initial state except that the counter is one higher |
| InvoiceStore.DiscountTotal | frontend/src/posapp/stores/invoiceStore.js:149-154 | with non-negative discount amounts the discount total is never negative, whatever the quantities' signs |
| InvoiceStore.TotalsAppend | frontend/src/posapp/stores/invoiceStore.js:141-154 | quantity, gross and discount totals add up over a split of the rows |
| InvoiceStore.UpsertNewRowAddsLine | frontend/src/posapp/stores/invoiceStore.js:87-154 | appending a new row adds exactly its own line to each of the three totals |
| InvoiceStore.GrossTotalSplitsById | frontend/src/posapp/stores/invoiceStore.js:110-154 | removing an id takes exactly that id's lines off the gross total |
| InvoiceStore.OnlyRow | frontend/src/posapp/stores/invoiceStore.js:110-120 | the selected rows are rows of the list with that id |
| InvoiceStore.ItemsIndexSound | frontend/src/posapp/stores/invoiceStore.js:158-166 | every key of the row index is a non-empty id that maps to the last row with it |
| InvoiceStore.ItemsIndexComplete | frontend/src/posapp/stores/invoiceStore.js:158-166 | every row with an id has that id in the index |
| InvoiceWatchers.RowIds | frontend/src/posapp/components/pos/invoiceWatchers.js:15-21 | the snapshot order lists no more ids than there are rows |
| InvoiceWatchers.RowIdsMembers | frontend/src/posapp/components/pos/invoiceWatchers.js:15-21 | the order holds exactly the non-empty row ids of the cart |
| InvoiceWatchers.BuildSnapshot | frontend/src/posapp/components/pos/invoiceWatchers.js:5-35 | the snapshot order is the row ids in cart order, skipping rows without one |
| InvoiceWatchers.SnapshotKeepsLastRow | frontend/src/posapp/components/pos/invoiceWatchers.js:5-35 | the snapshot records quantity, stock quantity and metadata of the last row with each id |
| InvoiceWatchers.SnapshotDomains | frontend/src/posapp/components/pos/invoiceWatchers.js:5-35 | exactly the ids in the order have a recorded quantity, stock quantity and metadata |
| InvoiceWatchers.SnapshotSnoc | frontend/src/posapp/components/pos/invoiceWatchers.js:5-35 | one more row overwrites the values recorded under its id and leaves the others, and a row without id changes nothing |
| InvoiceWatchers.RowIdsSnoc | frontend/src/posapp/components/pos/invoiceWatchers.js:15-21 | one more row adds its id at the end of the order when it has one |
| InvoiceWatchers.Added | frontend/src/posapp/components/pos/invoiceWatchers.js:47-52 | the added ids are exactly those in the current order and not in the previous one |
| InvoiceWatchers.Modified | frontend/src/posapp/components/pos/invoiceWatchers.js:62-78 | the modified ids are exactly the current ids whose quantity, stock quantity or serialised metadata differs from before |
| InvoiceWatchers.RemovedInfo | frontend/src/posapp/components/pos/invoiceWatchers.js:53-60 | the removed ids with metadata are exactly the previous ids missing now, each with its previous metadata |
| InvoiceWatchers.DiffSnapshots | frontend/src/posapp/components/pos/invoiceWatchers.js:37-81 | an id is changed exactly when it was added, removed or modified (a missing previous snapshot counts as empty); removed ids carry their previous metadata and are changed too |
| InvoiceWatchers.DiffSelfEmpty | frontend/src/posapp/components/pos/invoiceWatchers.js:37-81 | a snapshot diffed with itself has no changes and no removed rows |
| InvoiceWatchers.DiffFromNothing | frontend/src/posapp/components/pos/invoiceWatchers.js:37-81 | without a previous snapshot every current row is changed and nothing is removed |
| InvoiceWatchers.UnchangedRowNotReported | frontend/src/posapp/components/pos/invoiceWatchers.js:62-78 | a row kept with identical quantities and metadata is not reported as changed |
| InvoiceWatchers.DiscountPercentage | frontend/src/posapp/components/pos/invoiceWatchers.js:182-207 | 0 for no discount, outside percentage mode or for a zero total; never positive on a return; otherwise the discount as a percentage of the total, of its magnitude and negative on a return |
| InvoiceWatchers.RAbsQuotient | frontend/src/posapp/components/pos/invoiceWatchers.js:194-199 | the magnitude of the computed percentage times a positive total is the magnitude of 100 times the discount |
| Invoices.SanitizeItemName | posawesome/posawesome/api/invoices.py:38-43 | empty input gives ""; otherwise the result is a prefix of the trimmed name of at most 140 characters, the whole trimmed name when that fits and exactly 140 characters otherwise |
| Invoices.SanitizeKeepsCleanNames | posawesome/posawesome/api/invoices.py:38-43 | a trimmed name of at most 140 characters is kept as it is |
| Invoices.ReturnedQtyNonNegative | posawesome/posawesome/api/invoices.py:252-259 | the quantity already returned for a code, summed as magnitudes, is never negative |
| Invoices.Tally | posawesome/posawesome/api/invoices.py:244-259 | the tally has exactly the codes the original invoice sold, each with its sold quantity minus the magnitudes already returned |
| Invoices.FirstExcessiveFacts | posawesome/posawesome/api/invoices.py:261-271 | the check passes exactly when no line asks more than its code has left, and otherwise names the code of the first line that does |
| Invoices.ValidateReturnItems | posawesome/posawesome/api/invoices.py:234-271 | valid exactly when every return line of a sold code asks for a magnitude within sold minus already returned; a refusal always names a sold code |
| Invoices.UnsoldCodesPass | posawesome/posawesome/api/invoices.py:261-271 | a line for a code the original did not sell never changes the verdict, whatever its quantity |
| Invoices.CollectStockErrors | posawesome/posawesome/api/invoices.py:91-110 | an error is reported for exactly the rows that are short (a non-negative quantity of a stock item requesting more than is available), and each error's request exceeds its availability |
| Invoices.ReturnRowsNeverShort | posawesome/posawesome/api/invoices.py:95-96 | rows that all have negative quantities produce no error |
| Invoices.UniqueTaxesFresh | posawesome/posawesome/api/invoices.py:113-128 | the kept tax rows repeat no (account, rate, charge type) key |
| Invoices.UniqueTaxesCover | posawesome/posawesome/api/invoices.py:113-128 | every key of the input is represented among the kept rows |
| Invoices.UniqueTaxesSubset | posawesome/posawesome/api/invoices.py:113-128 | only rows of the input are kept |
| Invoices.UniqueTaxesWholeIff | posawesome/posawesome/api/invoices.py:113-128 | no row is dropped exactly when no key repeats |
| Invoices.MergeDuplicateTaxes | posawesome/posawesome/api/invoices.py:113-128 | the first row per key is kept in order; no key repeats; every key survives; only input rows are kept; totals are recalculated exactly when a row was dropped, and otherwise the rows are unchanged |
| Invoices.UniqueIsWhole | posawesome/posawesome/api/invoices.py:113-128 | with no repeated key nothing is dropped |
| Invoices.ShouldBlock | posawesome/posawesome/api/invoices.py:131-142 | as written: blocking happens exactly when negative stock is not allowed, because the profile's setting read with `or 1` is never falsy |
| Invoices.ProfileCannotDisableBlocking | posawesome/posawesome/api/invoices.py:137-142 | a profile whose setting is 0 is still blocked |
| Invoices.ShouldBlockIntended | posawesome/posawesome/api/invoices.py:131-142 | as evidently intended: no blocking with negative stock allowed; otherwise the profile's own setting decides and only a missing profile defaults to blocking |
| Invoices.ShouldBlockDiffersOnlyWhenDisabled | posawesome/posawesome/api/invoices.py:131-142 | the two versions disagree exactly when negative stock is disallowed and the profile sets the block to 0 |
| Invoices.FlaggedRowsMembers | posawesome/posawesome/api/invoices.py:145-154 | the rows checked are exactly the invoice rows flagged for the check |
| Invoices.ErrorsIffShort | posawesome/posawesome/api/invoices.py:91-110 | the collected errors are non-empty exactly when some row is short |
| Invoices.StockValidationRefuses | posawesome/posawesome/api/invoices.py:145-154 | as written the invoice is refused exactly when the check applies, some checked row is short and negative stock is not allowed |
| Invoices.StockValidationRefusesIntended | posawesome/posawesome/api/invoices.py:145-154 | with the intended switch the invoice is refused exactly when the check applies, some checked row is short and the intended switch blocks |
| Invoices.DisabledProfileStillRefuses | posawesome/posawesome/api/invoices.py:131-154 | a short invoice on a profile with blocking set to 0 is refused as written and let through as intended |
| Invoices.PageNumber | posawesome/posawesome/api/invoices.py:774-777 | a non-empty text page is used as parsed; anything else, even a number, becomes page 1 |
| Invoices.HasMore | posawesome/posawesome/api/invoices.py:913 | another page exists exactly when page times the page length of 100 is below the total count |
| Invoices.ReturnableLines | posawesome/posawesome/api/invoices.py:884-902 | every listed line has a positive quantity left and comes from an invoice line with the returned magnitudes deducted, and every line with something left is listed |
| Invoices.NothingReturnedKeepsLines | posawesome/posawesome/api/invoices.py:890-902 | with nothing returned yet every line with a positive quantity is listed whole |
| Invoices.ReturnableBounded | posawesome/posawesome/api/invoices.py:890-902 | a listed quantity is positive and never exceeds the quantity of an invoice line of that code |
| Invoices.SearchEntry | posawesome/posawesome/api/invoices.py:876-910 | an invoice without returns is listed whole; one with returns is left out exactly when no line has anything left |
| ItemAddition.IndexOfRow | frontend/src/posapp/composables/useItemAddition.js:40-53 | the position of the first line with the row id, or -1 exactly when no line has it |
| ItemAddition.RemoveItem | frontend/src/posapp/composables/useItemAddition.js:40-53 | the first line with the item's row id goes; for a bundle every packed component of that bundle goes and no other, otherwise the packed items stay; the row id leaves the expanded list |
| ItemAddition.WithoutBundle | frontend/src/posapp/composables/useItemAddition.js:40-53 | the packed components kept are exactly those of other bundles |
| ItemAddition.WithoutId | frontend/src/posapp/composables/useItemAddition.js:40-53 | the expanded ids kept are exactly the other ids |
| ItemAddition.RowCountSplit | frontend/src/posapp/composables/useItemAddition.js:40-53 | the number of lines with a row id adds up over a split of the lines |
| ItemAddition.RemoveItemTakesOneLine | frontend/src/posapp/composables/useItemAddition.js:40-53 | without a line of that row id the lines stay; otherwise exactly one line, one with that id, goes |
| ItemAddition.MergeIndex | frontend/src/posapp/composables/useItemAddition.js:126-156 | a forced new line never merges; otherwise the result is the first merge candidate (same code and unit, no offer or replacement, matching batch unless batches are set automatically, positive quantity), or -1 exactly when there is none |
| ItemAddition.ReturnLinesStaySeparate | frontend/src/posapp/composables/useItemAddition.js:126-156 | a line whose quantity is not positive never takes a merge |
| ItemAddition.AddedQty | frontend/src/posapp/composables/useItemAddition.js:370-375 | `qty \|\| 1`: a non-zero quantity is kept and 0 counts as 1, so the result is never 0 |
| ItemAddition.MergeQty | frontend/src/posapp/composables/useItemAddition.js:370-375 | on a return the merged line's quantity drops by the added magnitude; on a sale it grows by the added quantity |
| ItemAddition.MergeQtyMonotone | frontend/src/posapp/composables/useItemAddition.js:370-375 | a positive addition raises a sale line; a return line at or below zero stays negative |
| ItemAddition.MoveItemToTop | frontend/src/posapp/composables/useItemAddition.js:114-121 | the lines are permuted: the first line with the target's row id moves to the front and the others keep their order; a line already first or absent changes nothing |
| ItemAddition.MoveItemToTopIdempotent | frontend/src/posapp/composables/useItemAddition.js:114-121 | a second move changes nothing |
| ItemAddition.NewItemQty | frontend/src/posapp/composables/useItemAddition.js:437-460 | the new line's quantity is positive on a sale and negative on a return, of the given magnitude (1 when missing or 0), and its stock quantity equals it |
| ItemAddition.NewItemQtyKeepsSignedQty | frontend/src/posapp/composables/useItemAddition.js:437-460 | a quantity that already has the right sign is kept |
| ItemAddition.FirstInGroup | frontend/src/posapp/composables/useItemAddition.js:567-573 | the first line with the same code, unit and rate, or -1 exactly when there is none |
| ItemAddition.GroupAndAddItem | frontend/src/posapp/composables/useItemAddition.js:565-580 | without a matching line the item is appended; otherwise only that line changes, its quantity grows by the added quantity (1 for 0) and its amount is quantity times rate |
| ItemAddition.TotalQtyUpdate | frontend/src/posapp/composables/useItemAddition.js:565-580 | replacing one line changes the summed quantity by exactly the difference of the two lines |
| ItemAddition.GroupAndAddItemAddsQty | frontend/src/posapp/composables/useItemAddition.js:565-580 | the summed quantity grows by exactly the added quantity, 1 for a 0 merged into an existing group |
| ItemFetchers.ResolveCacheTtl | posawesome/posawesome/api/item_fetchers.py:15-18 | a missing or zero lifetime becomes 300 seconds; any other is kept |
| ItemFetchers.ResolveCacheTtlIdempotent | posawesome/posawesome/api/item_fetchers.py:15-18 | a resolved lifetime resolves to itself |
| ItemFetchers.InsertUnique | posawesome/posawesome/api/item_fetchers.py:32-35 | inserting into a strictly sorted list keeps it strictly sorted and adds exactly the new code |
| ItemFetchers.InsertAll | posawesome/posawesome/api/item_fetchers.py:32-35 | inserting many codes keeps the list strictly sorted |
| ItemFetchers.InsertAllMembers | posawesome/posawesome/api/item_fetchers.py:32-35 | inserting keeps what was there and adds exactly the non-empty codes |
| ItemFetchers.NormalizeCodes | posawesome/posawesome/api/item_fetchers.py:32-35 | the result is strictly ascending (so free of duplicates) and holds exactly the non-empty input codes |
| ItemFetchers.SortedListingUnique | posawesome/posawesome/api/item_fetchers.py:32-35 | two strictly sorted lists with the same elements are equal |
| ItemFetchers.NormalizeCodesCanonical | posawesome/posawesome/api/item_fetchers.py:32-35 | inputs with the same non-empty codes normalise alike, whatever their order and repetitions |
| ItemFetchers.RowFor | posawesome/posawesome/api/item_fetchers.py:287-307 | the row found for a present key is a row with that key |
| ItemFetchers.SelectPrice | posawesome/posawesome/api/item_fetchers.py:287-307 | nothing exactly when there are no rows; otherwise a row of the input: the requested UOM's, else the stock UOM's, else the "None" row, else the first row |
| ItemFetchers.RowForUnique | posawesome/posawesome/api/item_fetchers.py:296-301 | when keys are distinct, the row found for a key is the only row with it |
| ItemFetchers.EnsureStockUom | posawesome/posawesome/api/item_fetchers.py:310-316 | the existing rows stay as they are; the stock UOM is appended with factor 1 exactly when it is set and not listed, so afterwards it is listed |
| ItemFetchers.EnsureStockUomIdempotent | posawesome/posawesome/api/item_fetchers.py:310-316 | a second run changes nothing |
| ItemFetchers.MergeKeepsRow | posawesome/posawesome/api/item_fetchers.py:319-356 | a row without code is returned unchanged; otherwise code, unit and a present name stay, the stock quantity defaults to 0, and the price list's currency and exchange rate are set |
| ItemFetchers.MergePrices | posawesome/posawesome/api/item_fetchers.py:319-356 | rate and list rate agree; they are 0 without price rows and otherwise the rate of one of the item's price rows; the stock UOM is listed among the units |
| ItemFetchers.MergeUsesRequestedUomPrice | posawesome/posawesome/api/item_fetchers.py:319-356 | a row whose requested unit has a price row gets exactly that row's rate |
| ItemFetchers.BuildableRows | posawesome/posawesome/api/item_fetchers.py:514-517 | the rows kept are exactly those with an item code and without variants |
| ItemFetchers.BuildDetails | posawesome/posawesome/api/item_fetchers.py:490-517 | never more details than input rows |
| ItemFetchers.BuildDetailsExact | posawesome/posawesome/api/item_fetchers.py:490-517 | every buildable row appears merged and nothing else appears |
| ItemMethods.EnsureNegative | frontend/src/posapp/components/pos/invoiceItemMethods.js:1411-1416 | a positive value becomes its negation and anything else is kept, so the magnitude never changes |
| ItemMethods.EnsureNegativeIdempotent | frontend/src/posapp/components/pos/invoiceItemMethods.js:1411-1416 | the result is never positive, so applying it again changes nothing |
| ItemMethods.DiscountDelta | frontend/src/posapp/components/pos/invoiceItemMethods.js:1435-1449 | an absent discount moves nothing; a present one moves by a non-positive delta that turns it into its non-positive form |
| ItemMethods.ShiftByDiscount | frontend/src/posapp/components/pos/invoiceItemMethods.js:1435-1461 | the fields present stay present; both discounts become non-positive; the net, grand and rounded totals move by minus the discount's delta and their base counterparts by minus the base discount's delta; every other field is kept |
| ItemMethods.DiscountsAreNotTotals | frontend/src/posapp/components/pos/invoiceItemMethods.js:1451-1461 | the discount fields are not among the shifted totals, and the selling and base totals are disjoint |
| ItemMethods.ForceTotalsNegative | frontend/src/posapp/components/pos/invoiceItemMethods.js:1463-1483 | every present total becomes non-positive and every other field is kept |
| ItemMethods.NormalizeReturnDocTotals | frontend/src/posapp/components/pos/invoiceItemMethods.js:1397-1486 | a document that is not a return is left alone; on a return no field is added or dropped, every total and discount ends non-positive, and every other field is kept |
| ItemMethods.NormalizeReturnDocTotalsIdempotent | frontend/src/posapp/components/pos/invoiceItemMethods.js:1397-1486 | normalising a normalised document changes nothing |
| ItemMethods.ShiftWithoutPositiveDiscount | frontend/src/posapp/components/pos/invoiceItemMethods.js:1451-1461 | with no positive discount no total is shifted |
| ItemMethods.ForceNonPositiveTotals | frontend/src/posapp/components/pos/invoiceItemMethods.js:1463-1483 | with no positive total nothing changes |
| ItemMethods.PositiveDiscountShiftsTotals | frontend/src/posapp/components/pos/invoiceItemMethods.js:1435-1461 | a positive discount d moves each present net, grand and rounded total up by 2d before the totals are made non-positive |
| ItemMethods.NegMag | frontend/src/posapp/components/pos/invoiceItemMethods.js:1064-1070 | `-Math.abs(x)` is never positive and keeps the magnitude |
| ItemMethods.ReturnLine | frontend/src/posapp/components/pos/invoiceItemMethods.js:1063-1070 | a sale line is kept; on a return quantity, amounts and discounts become non-positive; magnitudes never change |
| ItemMethods.ReturnLineIdempotent | frontend/src/posapp/components/pos/invoiceItemMethods.js:1063-1070 | negating a return line a second time changes nothing |
| ItemMethods.Signed | frontend/src/posapp/components/pos/invoiceItemMethods.js:1122-1124 | on a return the amount becomes minus its magnitude; otherwise it is kept |
| ItemMethods.GetPayments | frontend/src/posapp/components/pos/invoiceItemMethods.js:1114-1150 | one payment per profile method in order with its mode; the first gets the subtotal and the others their preset amount, each signed for a return; each base amount is the amount in base currency |
| ItemMethods.PaymentsCoverSubtotal | frontend/src/posapp/components/pos/invoiceItemMethods.js:1114-1150 | the first method carries the subtotal, minus its magnitude on a return, and on a return no payment is positive |
| ItemMethods.CollectOverrides | frontend/src/posapp/components/pos/invoiceItemMethods.js:1488-1518 | every override comes from a manually priced item and carries its keys; never more overrides than items |
| ItemMethods.CollectedOverrideMatchesItsItem | frontend/src/posapp/components/pos/invoiceItemMethods.js:1520-1552 | an override taken from an item with any key matches that item |
| ItemMethods.AssignOverride | frontend/src/posapp/components/pos/invoiceItemMethods.js:1554-1601 | the item is marked manually priced, keeps its keys and quantity, takes every price value of the override, and takes its unit when set |
| ItemMethods.FirstMatch | frontend/src/posapp/components/pos/invoiceItemMethods.js:1603-1623 | the first override matching the item's keys, or -1 exactly when none matches |
| ItemMethods.ApplyOverrides | frontend/src/posapp/components/pos/invoiceItemMethods.js:1603-1623 | every item is accounted for, and the overrides used together with those remaining are exactly the given ones, so each override is used at most once |
| ItemMethods.ApplyOverridesPerItem | frontend/src/posapp/components/pos/invoiceItemMethods.js:1603-1623 | an item without an override is left alone, and one with an override took the values of an override matching it |
| ItemMethods.AppliedAtMostOnce | frontend/src/posapp/components/pos/invoiceItemMethods.js:1603-1623 | no more overrides are used than were given |
| ItemMethods.UpdateQtyLimits | frontend/src/posapp/components/pos/invoiceItemMethods.js:2988-3003 | an item flagged as no stock item has no limit and can be incremented; with a known availability the limit is that quantity in the line's unit and incrementing is disabled exactly when negative stock is disallowed or sale beyond availability is blocked and the quantity has reached the limit; without availability nothing changes |
| ItemSearch.ToPositiveInt | posawesome/posawesome/api/items.py:317-324 | an integer is kept exactly when it is present and not negative; anything else gives None |
| ItemSearch.ToPositiveIntIdempotent | posawesome/posawesome/api/items.py:317-324 | a converted value converts to itself |
| ItemSearch.RunLength | posawesome/posawesome/api/items.py:374-378 | the run of non-space characters at the front ends at the first space or at the end |
| ItemSearch.Tokens | posawesome/posawesome/api/items.py:374-378 | every token is non-empty and holds no whitespace |
| ItemSearch.TokensKeepText | posawesome/posawesome/api/items.py:374-378 | the tokens together spell exactly the non-space characters of the input, in order |
| ItemSearch.Longest | posawesome/posawesome/api/items.py:379-381 | the strict `>` keeps the first token of maximal length: the tracked token is at least as long as every token; it is the start when no token is longer, and otherwise the first token longer than every token before it |
| ItemSearch.LowerAll | posawesome/posawesome/api/items.py:374-386 | each word is lowered on its own, and the number of words is kept |
| ItemSearch.SearchWordsFacts | posawesome/posawesome/api/items.py:374-386 | the search words are distinct, each is the lower case of a token, every token's lower case is among them, and each is non-empty and already lower case |
| ItemSearch.LoweredWord | posawesome/posawesome/api/items.py:374-386 | a lowered word comes from a token, is non-empty, and stays the same when lowered again |
| ItemSearch.LoweredToken | posawesome/posawesome/api/items.py:374-386 | every token's lower case is among the lowered words |
| ItemSearch.JoinSpaceLength | posawesome/posawesome/api/items.py:386 | joining words with single spaces adds one character per gap |
| ItemSearch.WordFilterActiveIff | posawesome/posawesome/api/items.py:461 | for non-empty words the filter is active exactly when there are at least two words, or one of at least three characters |
| ItemSearch.SearchableFinds | posawesome/posawesome/api/items.py:483-547 | a word occurs among the searchable values exactly when it occurs in some non-blank value, trimmed and lowered |
| ItemSearch.ContainedIn | posawesome/posawesome/api/items.py:544-546 | true exactly when the word is a substring of some value |
| ItemSearch.AllContained | posawesome/posawesome/api/items.py:544-547 | true exactly when every word is a substring of some value |
| ItemSearch.MatchesSearchWords | posawesome/posawesome/api/items.py:537-547 | every row matches with the filter off or without words; otherwise exactly when every word occurs in some non-blank searchable value |
| ItemSearch.MatchesMonotone | posawesome/posawesome/api/items.py:537-547 | more searchable text never loses a match |
| ItemSearch.PlanPaging | posawesome/posawesome/api/items.py:419-459 | the search limit is the profile's positive setting or 500; an explicit positive limit becomes the page length, and its offset is used only when set and without `start_after`; otherwise limit search without a forced reload uses the search limit and anything else has no page length; the page size is the page length or 100 |
| Common.KeepSound | posawesome/posawesome/api/items.py:638-642 | every kept row is a row of the input that passes the filter |
| Common.KeepAppend | posawesome/posawesome/api/items.py:638-642 | filtering distributes over joined rows |
| ItemSearch.CollectPage | posawesome/posawesome/api/items.py:635-644 | the collected rows grow from what was there to at most the page's kept rows added; within the limit they are all of them, and past it exactly `limit` rows |
| ItemSearch.CollectPageExit | posawesome/posawesome/api/items.py:635-644 | where the scan of a page stops, the collected rows are the whole kept page or a prefix of it of the limit's length |
| ItemSearch.RunItemQuery | posawesome/posawesome/api/items.py:587-653 | the result is the rows the filter keeps from every page read, in order (reading stops after an empty or short page or once the limit is reached), cut to the limit |
| ItemSearch.ScanEnds | posawesome/posawesome/api/items.py:624-625 | with no page left or an empty one, what was collected is the answer |
| ItemSearch.PageStep | posawesome/posawesome/api/items.py:635-651 | after a non-empty page the collected rows are the answer when the limit is reached or the page is short; otherwise the scan goes on to the next page |
| ItemSearch.KeptThrough | posawesome/posawesome/api/items.py:635-642 | the rows kept from the first n + 1 pages are those kept from the first n followed by those kept from page n |
| ItemSearch.ReadThrough | posawesome/posawesome/api/items.py:646-651 | a non-empty page is read, and the pages after it are read only when it was full |
| ItemSearch.PagesReadAt | posawesome/posawesome/api/items.py:646-651 | from an empty page nothing more is read; from a non-empty one that page is read, and the next ones only after a full page |
| ItemSearch.KeepFlattenAppend | posawesome/posawesome/api/items.py:638-642 | keeping rows distributes over joined page lists |
| ItemSearch.CutOfPrefix | posawesome/posawesome/api/items.py:653 | `limit` rows taken from the front of the collected rows are the whole cut at the limit |
| ItemSearch.TruncateResult | posawesome/posawesome/api/items.py:653 | the result is a prefix of the collected rows, of length the smaller of their number and the limit when one is set, and all of them otherwise |
| ItemsStore.NormalizeBooleanSetting | frontend/src/posapp/stores/itemsStore.js:51-62 | text is on exactly when trimmed and lowered it is "1", "true" or "yes"; a number exactly when it is 1; a boolean is itself; a missing value, NaN or an infinity is off and an object on |
| ItemsStore.ParseInt | frontend/src/posapp/stores/itemsStore.js:64-82 | text is read as a leading integer numeral; a number is truncated toward zero; anything else does not parse |
| ItemsStore.ResolveLimitSearchSize | frontend/src/posapp/stores/itemsStore.js:64-82 | always positive: 200 when limited search is off; otherwise the profile's search limit when it parses to a positive integer, else 500 |
| ItemsStore.LimitFromNumeral | frontend/src/posapp/stores/itemsStore.js:64-82 | a limit written as a positive decimal numeral is the page size of a limited search |
| ItemsStore.NonPositiveLimitFallsBack | frontend/src/posapp/stores/itemsStore.js:64-82 | a numeric limit below 1 falls back to 500 |
| ItemsStore.FilterByGroup | frontend/src/posapp/stores/itemsStore.js:761-766 | "ALL" keeps the list; any other group keeps exactly the items of that group, never more than there were |
| ItemsStore.FilterByGroupIdempotent | frontend/src/posapp/stores/itemsStore.js:761-766 | filtering twice by the same group is filtering once |
| ItemsStore.SearchFields | frontend/src/posapp/stores/itemsStore.js:694-759 | the searched texts include code, name, barcode, description and every barcode row and extra barcode, and beyond those only serial numbers and batch numbers, each when the profile searches them |
| ItemsStore.SearchList | frontend/src/posapp/stores/itemsStore.js:694-759 | the items kept are exactly those some searched text of which contains the term, case-insensitively |
| ItemsStore.PerformLocalSearch | frontend/src/posapp/stores/itemsStore.js:694-759 | an empty term lists the current group; any other term keeps exactly the matching items, whatever their group, with the profile's serial and batch settings read as booleans |
| ItemsStore.SearchFindsByCode | frontend/src/posapp/stores/itemsStore.js:694-759 | an item is found by any text contained in its code, whatever the case of either |
| ItemsStore.SerialSearchWidens | frontend/src/posapp/stores/itemsStore.js:694-759 | searching serial and batch numbers as well never loses an item |
| ItemsStore.SerialFoundOnlyWhenSearched | frontend/src/posapp/stores/itemsStore.js:694-759 | an item matched only by a serial number is not found when serials are not searched |
| ItemsStore.Codes | frontend/src/posapp/stores/itemsStore.js:664-692 | exactly the non-empty codes of the items |
| ItemsStore.Additions | frontend/src/posapp/stores/itemsStore.js:612-620 | the appended items are exactly the page's items with a code not indexed before the page was read |
| ItemsStore.SetItems | frontend/src/posapp/stores/itemsStore.js:601-632 | without appending the page replaces the list and the index is rebuilt from it; appending adds the page's items with unindexed codes and indexes every code of the page; an index covering the list keeps covering it; the total is the override, else the list's length when replacing and unchanged when appending; with no search the shown list is the current group |
| ItemsStore.IndexResults | frontend/src/posapp/stores/itemsStore.js:476-478 | an indexed search indexes its results' codes without listing them, and an index covering the list keeps covering it |
| ItemsStore.AppendTwiceAddsNothing | frontend/src/posapp/stores/itemsStore.js:601-632 | appending the same page a second time adds nothing |
| ItemsStore.AdditionsNone | frontend/src/posapp/stores/itemsStore.js:612-620 | a page whose codes are all indexed adds nothing |
| ItemsStore.PageDuplicatesBothAppended | frontend/src/posapp/stores/itemsStore.js:612-620 | the index is consulted as it was before the page, so an item listed twice in one page is appended twice |
| ItemsStore.SearchIndexedNotAppended | frontend/src/posapp/stores/itemsStore.js:476-478 | an item an indexed search has already indexed is not appended by a later page, although it is not in the list |
| ItemsStore.CacheKey | frontend/src/posapp/stores/itemsStore.js:768-770 | every key starts with "items_" and has more after it |
| ItemsStore.SeparatedPrefix | frontend/src/posapp/stores/itemsStore.js:768-770 | two underscore-free texts each followed by an underscore split a common text in the same place |
| ItemsStore.CacheKeyInjective | frontend/src/posapp/stores/itemsStore.js:768-770 | searches with no underscore in search text and group share a key only when search text, group and price list agree, with a missing search read as "all" and a missing price list as "default" |
| ItemsStore.CacheKeyAllCollides | frontend/src/posapp/stores/itemsStore.js:768-770 | the unfiltered list and a search for the text "all" share a key |
| ItemsStore.FreshEntries | frontend/src/posapp/stores/itemsStore.js:1295-1310 | exactly the cache entries that have not expired, never more than there were |
| ItemsStore.OldestIndex | frontend/src/posapp/stores/itemsStore.js:1295-1310 | an entry no newer than any other, and the first such |
| ItemsStore.EvictOldest | frontend/src/posapp/stores/itemsStore.js:1295-1310 | exactly `count` entries are evicted, kept and evicted entries together are the input, and no evicted entry is newer than a kept one |
| ItemsStore.EvictOldestStep | frontend/src/posapp/stores/itemsStore.js:1295-1310 | evicting an oldest entry ahead of the rest of an eviction keeps the partition and keeps every evicted entry no newer than every kept one |
| ItemsStore.CleanupMemoryCache | frontend/src/posapp/stores/itemsStore.js:1295-1310 | only unexpired entries stay; when at most 500 remain they all stay; otherwise the oldest fifth of them, rounded down, goes and no dropped entry is newer than a kept one |
| ItemsStore.CleanupShrinks | frontend/src/posapp/stores/itemsStore.js:1295-1310 | an oversized cache comes out at least 100 entries smaller; within the limit every unexpired entry stays |
| LoadingProgress.Names | frontend/src/posapp/utils/loading.js:35-37 | the source names in order, one per source |
| LoadingProgress.RoundDivBounds | frontend/src/posapp/utils/loading.js:64 | the rounded mean of a sum of at most 100 per source lies in [0, 100] |
| LoadingProgress.RoundDivFull | frontend/src/posapp/utils/loading.js:64 | a sum of 100 per source rounds to exactly 100 |
| LoadingProgress.Zeroed | frontend/src/posapp/utils/loading.js:35-37 | one source per name, in order, each at 0, so their sum is 0 |
| LoadingProgress.InitLoadingSources | frontend/src/posapp/utils/loading.js:22-42 | the counters reset and the source count is the list's length; every source is at 0 and the sources are exactly the listed names; a non-empty list sets progress 0 and makes the loading active, an empty one leaves no source and the active flag as it was |
| LoadingProgress.IndexOf | frontend/src/posapp/utils/loading.js:46 | the position of a source with the name, or none exactly when no source has it |
| LoadingProgress.SumUpdate | frontend/src/posapp/utils/loading.js:61-63 | changing one source's value changes the sum by exactly the difference |
| LoadingProgress.SumBound | frontend/src/posapp/utils/loading.js:48-53 | values in [0, 100] sum to at most 100 per source |
| LoadingProgress.SetSourceProgress | frontend/src/posapp/utils/loading.js:44-74 | the state stays consistent: values in [0, 100], the completed sum equal to their sum and the progress in [0, 100] |
| LoadingProgress.RaiseValid | frontend/src/posapp/utils/loading.js:48-74 | raising one source to a value no higher than 100 keeps the state consistent |
| LoadingProgress.SetSourceProgressEffect | frontend/src/posapp/utils/loading.js:44-74 | nothing happens for an unknown source, while completing or without sources; otherwise only the named source moves, never down, to its report clamped to [0, 100]; the completed sum grows by the increase and the progress becomes its rounded mean, completing at 100 |
| LoadingProgress.AllLoadedCompletes | frontend/src/posapp/utils/loading.js:61-74 | once the last source still below 100 reports 100, the loading completes with progress 100 |
| LoadingProgress.AllFull | frontend/src/posapp/utils/loading.js:61-64 | sources all at 100 sum to 100 per source |
| MergeLog.WithinToleranceIffZero | posawesome/posawesome/overrides/pos_invoice_merge_log.py:43 | on amounts in whole units of the currency's precision, being within the tolerance 10^-(precision+1) means being zero |
| MergeLog.AbsSumUpdate | posawesome/posawesome/overrides/pos_invoice_merge_log.py:110-144 | changing one row changes the sum of magnitudes by exactly the difference of its magnitudes |
| MergeLog.SignedSum | posawesome/posawesome/overrides/pos_invoice_merge_log.py:61-69 | when every row carries the sign, the paid amount is that sign times the sum of magnitudes |
| MergeLog.SetPaidAmount | posawesome/posawesome/overrides/pos_invoice_merge_log.py:69 | the paid amounts are the sums of the rows and nothing else changes |
| MergeLog.SignRow | posawesome/posawesome/overrides/pos_invoice_merge_log.py:61-67 | the row takes the invoice's sign and keeps its mode and position; a non-zero amount keeps its magnitude |
| MergeLog.SignRows | posawesome/posawesome/overrides/pos_invoice_merge_log.py:61-67 | every row is signed on its own and the number of rows is kept |
| MergeLog.ReducePaymentDifference | posawesome/posawesome/overrides/pos_invoice_merge_log.py:110-144 | rows keep their positions and modes and never grow in magnitude; a changed row carries the invoice's sign; the magnitudes drop by exactly the smaller of the difference and their sum; rows after a changed one are zero, so deduction runs from the last row |
| MergeLog.SuffixShape | posawesome/posawesome/overrides/pos_invoice_merge_log.py:123-144 | with the rows before the current one untouched and the later ones zeroed, no row grew, every changed row is signed and every row after a changed one is zero |
| MergeLog.Deducted | posawesome/posawesome/overrides/pos_invoice_merge_log.py:126-141 | a non-zero row facing a positive remainder gives up the smaller of its magnitude and the remainder |
| MergeLog.Resized | posawesome/posawesome/overrides/pos_invoice_merge_log.py:137-141 | the row takes the given magnitude with the invoice's sign and keeps its mode and position |
| MergeLog.CleanupFrom | posawesome/posawesome/overrides/pos_invoice_merge_log.py:146-165 | dropping zero rows never adds rows and keeps the sum of magnitudes |
| MergeLog.CleanupKept | posawesome/posawesome/overrides/pos_invoice_merge_log.py:146-165 | the kept rows are non-zero rows of the input, each under its own position, in order |
| MergeLog.CleanupKeepsNonZero | posawesome/posawesome/overrides/pos_invoice_merge_log.py:146-165 | every non-zero row survives under its own position |
| MergeLog.CleanupZeroAmountPayments | posawesome/posawesome/overrides/pos_invoice_merge_log.py:146-165 | the sum of magnitudes is kept, every kept row is non-zero, each keeps its original 1-based position and amount, and positions increase |
| MergeLog.CleanupKeepsExactlyNonZero | posawesome/posawesome/overrides/pos_invoice_merge_log.py:146-165 | a row survives under its own position exactly when it is non-zero |
| MergeLog.CleanupKeepsSign | posawesome/posawesome/overrides/pos_invoice_merge_log.py:146-165 | rows that all carry a sign still carry it after the clean-up |
| MergeLog.AdjustLastPayment | posawesome/posawesome/overrides/pos_invoice_merge_log.py:88-108 | nothing changes when the excess is within tolerance or there are no rows; otherwise a non-zero last row gives up the smaller of its magnitude and the excess |
| MergeLog.ClampWriteOff | posawesome/posawesome/overrides/pos_invoice_merge_log.py:45-52 | the write-off's magnitude is clamped to the total's, it takes the total's sign, and nothing but the two write-off fields changes |
| MergeLog.NormalizeReturnPayments | posawesome/posawesome/overrides/pos_invoice_merge_log.py:22-108 | a zero total clears the payments and both write-offs; otherwise the write-off is clamped and signed, the payment magnitudes are cut to what the total leaves after the write-off, every row carries the invoice's sign, paid plus write-off never exceeds the total, and the paid amounts are the sums of the rows |
| MergeLog.AbsOfSigned | posawesome/posawesome/overrides/pos_invoice_merge_log.py:35-66 | a magnitude with a unit sign has that magnitude back |
| MergeLog.NoAdjustWithinTotal | posawesome/posawesome/overrides/pos_invoice_merge_log.py:88-91 | payments that do not exceed the total need no last-row correction |
| MergeLog.SettlePayments | posawesome/posawesome/overrides/pos_invoice_merge_log.py:71-86 | signed rows overshooting by the difference are trimmed by it when it is positive; the rows left are non-zero and keep the sign |
| MergeLog.MergePosInvoiceInto | posawesome/posawesome/overrides/pos_invoice_merge_log.py:14-20 | only a return invoice is normalised, and afterwards its paid amount and write-off together stay within its total |
| Numerals.DigitChar | frontend/src/posapp/stores/updateStore.js:64-73 | the digit character of a value below 10 is a digit that reads back as that value |
| Numerals.Decimal | frontend/src/posapp/stores/updateStore.js:64-73 | the digit string of a number is non-empty, all digits and without leading zero |
| Numerals.DecimalRoundTrip | frontend/src/posapp/stores/updateStore.js:64-73 | reading the digit string of a number gives the number back |
| Numerals.NumberOf | frontend/src/posapp/stores/updateStore.js:66 | `Number(text)`: blank text is 0, and any other text that reads as a number holds a digit |
| Numerals.NumberOfDecimal | frontend/src/posapp/stores/updateStore.js:66 | the digit string of a number reads back as the number |
| Numerals.NumberOfDigits | frontend/src/posapp/stores/updateStore.js:66 | a non-empty digit string, leading zeros and all, reads as its value |
| Numerals.NumberOfNegativeDecimal | frontend/src/posapp/stores/updateStore.js:66 | a minus sign before the digit string of a number reads as the negated number |
| Numerals.NumberOfNegativeDigits | frontend/src/posapp/stores/updateStore.js:66 | a minus sign before a non-empty digit string reads as the negated value |
| Numerals.NumberOfTrimmedNegative | frontend/src/posapp/stores/updateStore.js:66 | a minus sign and digits with nothing around read as the negated value |
| Numerals.NumberOfRejectsOtherText | frontend/src/posapp/stores/updateStore.js:66-73 | text with no surrounding space that holds a non-digit other than a leading sign reads as NaN |
| Numerals.LeadingDigits | frontend/src/posapp/stores/invoiceStore.js:23 | the longest run of digits at the front of the text |
| Numerals.LeadingDigitsOf | frontend/src/posapp/stores/invoiceStore.js:23 | digits followed by something that does not start with a digit lead with exactly those digits |
| Numerals.ParseFloat | frontend/src/posapp/stores/invoiceStore.js:23 | `Number.parseFloat`: text that is blank after leading space does not parse |
| Numerals.ParseFloatDigits | frontend/src/posapp/stores/invoiceStore.js:23 | digits followed by text that does not continue them parse as their value |
| Numerals.ParseFloatDecimal | frontend/src/posapp/stores/invoiceStore.js:23 | a number's digit string followed by text that does not continue it parses as the number |
| OfferMethods.NormalizeBrand | frontend/src/posapp/components/pos/invoiceOfferMethods.js:66-68 | the normalised brand is no longer than the input, has no space at either end and no capital letter |
| OfferMethods.LowerTrimmed | frontend/src/posapp/components/pos/invoiceOfferMethods.js:66-68 | lowering trimmed text keeps it trimmed and leaves no capital letter |
| OfferMethods.NormalizeBrandIdempotent | posawesome/posawesome/api/items.py:71-73 | stripping and lowering a brand twice is doing it once; the same normalisation serves `normalizeBrand` in invoiceOfferMethods.js:66-68 |
| OfferMethods.CheckQtyAmountOffer | frontend/src/posapp/components/pos/invoiceOfferMethods.js:390-433 | the minimum quantity holds exactly when it is set and reached; the maximum quantity, minimum amount and maximum amount hold exactly when they are positive and respected |
| OfferMethods.QtyAmountOfferAppliesIffBoundsHold | frontend/src/posapp/components/pos/invoiceOfferMethods.js:390-433 | the offer applies exactly when every active bound holds (a minimum quantity when set, the others when positive); with no active bound it applies |
| OfferMethods.FindCoupon | frontend/src/posapp/components/pos/invoiceOfferMethods.js:435-448 | `find`: the first coupon issued for the offer, no earlier coupon naming it; none is found exactly when no coupon names the offer |
| OfferMethods.CheckOfferCoupon | frontend/src/posapp/components/pos/invoiceOfferMethods.js:435-448 | an offer without coupons always passes with its coupon cleared; a coupon-based offer passes exactly when some coupon names it, and is then tagged with the code of the first coupon that names it |
| OfferMethods.IsOfferAffected | frontend/src/posapp/components/pos/invoiceOfferMethods.js:180-182 | a null offer is never affected and any offer is affected by an empty change set |
| OfferMethods.AnyRowHitsIffExists | frontend/src/posapp/components/pos/invoiceOfferMethods.js:184-245 | the scan over changed rows hits exactly when some changed row hits the offer's scope |
| OfferMethods.OfferAffectedIffSomeRowHits | frontend/src/posapp/components/pos/invoiceOfferMethods.js:180-245 | for a non-empty change set the offer is affected exactly when some changed row hits its scope; a "Transaction" offer always is, and so is any offer when a changed row has no known metadata |
| OfferMethods.AddOfferToRow | frontend/src/posapp/components/pos/invoiceOfferMethods.js:1438-1452 | a row listed by the offer that does not carry its row id gets it appended, and is marked offer-applied when the offer is an "Item Price" offer (otherwise keeping its mark); other rows and rows already carrying it are untouched |
| OfferMethods.AddOfferToItems | frontend/src/posapp/components/pos/invoiceOfferMethods.js:1429-1463 | every row is treated on its own and the number of rows is kept |
| OfferMethods.OccurrencesZero | frontend/src/posapp/components/pos/invoiceOfferMethods.js:1445 | an id occurs zero times exactly when it is not in the list |
| OfferMethods.AddOfferIdempotent | frontend/src/posapp/components/pos/invoiceOfferMethods.js:1429-1463 | adding an offer a second time changes nothing, and a row never carries its id twice when it did not before |
| OfferMethods.Without | frontend/src/posapp/components/pos/invoiceOfferMethods.js:1481 | exactly the other ids remain, and a list without the id is kept |
| OfferMethods.DeleteOfferFromRow | frontend/src/posapp/components/pos/invoiceOfferMethods.js:1474-1486 | a row listed by the offer loses every occurrence of its row id, and for an "Item Price" offer its offer-applied flag is reset; other rows are untouched |
| OfferMethods.DeleteOfferFromItems | frontend/src/posapp/components/pos/invoiceOfferMethods.js:1465-1490 | every row is treated on its own and the number of rows is kept |
| OfferMethods.WithoutAppended | frontend/src/posapp/components/pos/invoiceOfferMethods.js:1481 | removing an id just appended to a list without it gives the list back |
| OfferMethods.AddThenDeleteRestoresOffers | frontend/src/posapp/components/pos/invoiceOfferMethods.js:1429-1490 | adding an offer no row carried and deleting it again gives back every row's offer list |
| OfferMethods.RemoveOnTotal | frontend/src/posapp/components/pos/invoiceOfferMethods.js:1418-1427 | the discount fields are zeroed exactly when the active discount came from the same, non-empty offer name; otherwise nothing changes |
| OfferMethods.RemoveOnTotalIdempotent | frontend/src/posapp/components/pos/invoiceOfferMethods.js:1418-1427 | removing twice is removing once |
| OfferMethods.IndexOf | frontend/src/posapp/components/pos/invoiceOfferMethods.js:1552 | the position of the first occurrence of the character, or none exactly when it does not occur |
| OfferMethods.MatchDmy | frontend/src/posapp/components/pos/invoiceOfferMethods.js:1551-1552 | a match splits the text into one- or two-digit day and month and a four-digit year joined by dashes |
| OfferMethods.MatchDmyComplete | frontend/src/posapp/components/pos/invoiceOfferMethods.js:1551-1552 | every text of the D-M-YYYY shape matches, with its own parts |
| OfferMethods.Pad2 | frontend/src/posapp/components/pos/invoiceOfferMethods.js:1553 | `padStart(2, "0")` gives two characters ending in the part, with a leading zero for a single digit |
| OfferMethods.IsoShape | frontend/src/posapp/components/pos/invoiceOfferMethods.js:1548-1550 | four, two and two digits joined by dashes form an ISO date, untouched by the Arabic numeral conversion |
| OfferMethods.DmyToIso | frontend/src/posapp/components/pos/invoiceOfferMethods.js:1551-1554 | a D-M-YYYY date is rewritten as an ISO date starting with its year |
| OfferMethods.FormatDateForBackend | frontend/src/posapp/components/pos/invoiceOfferMethods.js:1545-1566 | empty input gives no date; a date returned as ISO is ISO; text that is an ISO date after converting Arabic-Indic digits is returned converted |
| OfferMethods.DmyRewritten | frontend/src/posapp/components/pos/invoiceOfferMethods.js:1551-1554 | D-M-YYYY becomes YYYY-MM-DD with the same year and zero-padded month and day |
| OfferMethods.FormatDateIdempotent | frontend/src/posapp/components/pos/invoiceOfferMethods.js:1545-1566 | formatting an ISO result again gives it back |
| Offers.CouponActiveBetween | posawesome/posawesome/api/offers.py:45-54 | the days on which a coupon is active form an interval: active on two days means active on every day in between |
| Offers.CouponActiveWindow | posawesome/posawesome/api/offers.py:45-54 | a coupon with both bounds is active exactly on days within them, bounds included; a coupon without bounds is always active |
| Offers.ActiveGiftCoupons | posawesome/posawesome/api/offers.py:23-42 | every returned code belongs to a coupon row active today, and every active row's code is returned |
| Offers.MapDiscountType | posawesome/posawesome/api/offers.py:345-351 | a known discount-type text maps to the type of that name; any other text maps to a percentage discount |
| Offers.MapDiscountTypeRoundTrip | posawesome/posawesome/api/offers.py:345-351 | mapping the name of any discount type gives back that type |
| Offers.NormalizeDiscountFields | posawesome/posawesome/api/offers.py:354-366 | the discount type and its selected value are kept, and the two fields of the other types are zero |
| Offers.NormalizeDiscountFieldsFixes | posawesome/posawesome/api/offers.py:354-366 | normalising leaves a record unchanged exactly when it is already normalised, so normalising twice is normalising once |
| Offers.Scrub | posawesome/posawesome/api/offers.py:369-373 | scrubbing keeps the length and leaves no dash or space |
| Offers.CleanParts | posawesome/posawesome/api/offers.py:369-373 | the cleaned parts are at most as many as the given parts and none contains a dash |
| Offers.DashesAppend | posawesome/posawesome/api/offers.py:369-373 | the dash count of a concatenation is the sum of the dash counts |
| Offers.NoDashes | posawesome/posawesome/api/offers.py:369-373 | a text without dashes has a dash count of zero |
| Offers.JoinDashCount | posawesome/posawesome/api/offers.py:369-373 | joining dash-free parts with dashes gives one dash fewer than there are parts |
| Offers.MakeOfferIdentifier | posawesome/posawesome/api/offers.py:369-373 | every identifier starts with "ps-" |
| Offers.IdentifierCountsParts | posawesome/posawesome/api/offers.py:369-373 | an identifier built from non-empty parts has exactly one dash per cleaned part, so the parts can be counted back |
| Offers.GetSchemeTargets | posawesome/posawesome/api/offers.py:324-342 | the targets are the non-empty link values, each exactly once, in order of first occurrence |
| Offers.SchemeTargetsFacts | posawesome/posawesome/api/offers.py:324-342 | the functional target list has no repeats, holds exactly the non-empty link values and keeps their first-occurrence order |
| Offers.PriceTemplate | posawesome/posawesome/api/offers.py:177-207 | the price template names its scheme and slab, is a grand-total offer exactly for a transaction-wide scheme, and carries the mapped, normalised discount |
| Offers.ProductTemplate | posawesome/posawesome/api/offers.py:255-289 | the product template gives the free quantity; a free item rate makes it a rate discount, otherwise a 100% discount; it names a free item exactly when the slab has one that differs from the bought item |
| Offers.Retarget | posawesome/posawesome/api/offers.py:291-319 | a retargeted copy differs from its template only in name, row id, target and the replace flags, and its name equals its row id |
| Offers.Expand | posawesome/posawesome/api/offers.py:209-230 | a transaction-wide scheme gets the template once; otherwise there is one copy per target, the k-th aimed at the k-th target, all keeping the template's rule, kind, discount and quantity |
| Offers.PriceSlabOffers | posawesome/posawesome/api/offers.py:167-230 | an eligible slab contributes one offer per target (one for a transaction-wide scheme) and an ineligible slab contributes none |
| Offers.PriceOffers | posawesome/posawesome/api/offers.py:156-232 | every price offer is well formed for the scheme and comes from an eligible slab |
| Offers.PriceOffersCount | posawesome/posawesome/api/offers.py:156-232 | the number of price offers is the per-slab count times the number of eligible price slabs |
| Offers.ProductSlabOffers | posawesome/posawesome/api/offers.py:245-319 | an eligible product slab, enabled, in the profile's warehouse and with a positive free quantity, contributes one offer per target; any other slab contributes none |
| Offers.ProductOffers | posawesome/posawesome/api/offers.py:235-321 | every product offer is well formed for the scheme and comes from an eligible slab |
| Offers.ProductOffersCount | posawesome/posawesome/api/offers.py:235-321 | the number of product offers is the per-slab count times the number of eligible product slabs |
| Offers.PrepareSchemeOffers | posawesome/posawesome/api/offers.py:142-153 | a party-specific, mixed-condition or cumulative scheme yields nothing; otherwise the price offers and then the product offers, counted exactly, each with name equal to row id and a normalised discount |
| Offers.NoTargetsNoOffers | posawesome/posawesome/api/offers.py:212-213 | a scheme that is not transaction-wide and whose link values are all blank yields no offers |
| Offline.Shortfalls | frontend/src/offline.js:195-237 | every reported shortfall has requested more than was available, and there are no more shortfalls than lines |
| Offline.ShortfallsSound | frontend/src/offline.js:195-237 | every shortfall reports a line of the invoice, with its sold quantity and its cached stock |
| Offline.ShortfallsComplete | frontend/src/offline.js:195-237 | every line whose cached stock cannot cover its quantity has a shortfall entry |
| Offline.ValidateStock | frontend/src/offline.js:195-237 | with negative stock allowed the invoice is valid; otherwise it is valid exactly when every line's cached stock covers it; valid exactly when nothing is listed and no message is set; one shortfall gives its own message |
| Offline.ShortfallsEmptyIff | frontend/src/offline.js:195-237 | there are no shortfalls exactly when every line's cached stock covers its quantity |
| Offline.LinesCheckedSeparately | frontend/src/offline.js:206-218 | two lines of one item each within the cached stock pass together even when their sum exceeds it |
| Offline.UpdateLocalStock | frontend/src/offline.js:845-869 | the cache keeps exactly its codes: a sold code is never added |
| Offline.Max0Twice | frontend/src/offline.js:857 | drawing a quantity down twice, never below 0, is drawing it down once by the sum |
| Offline.UpdateLocalStockDrawsDown | frontend/src/offline.js:845-869 | a cached code some line sells ends as the cached quantity minus everything sold of it, or 0 when that is negative; unsold codes keep their quantity |
| Offline.UpdateLocalStockAt | frontend/src/offline.js:845-869 | the update of each cached code depends only on that code's quantity and the lines |
| Offline.StockAfterDrawsDown | frontend/src/offline.js:849-860 | folding the lines over one quantity leaves it alone when nothing sells the code, and otherwise draws it down by the total sold, never below 0 |
| Offline.UnsoldStockAfter | frontend/src/offline.js:849-860 | lines that do not sell the code leave its quantity alone |
| Offline.SoldStockAfter | frontend/src/offline.js:849-860 | lines that do sell the code lower its quantity by all they sell, never below 0 |
| Offline.NonNegativeStockAfter | frontend/src/offline.js:849-860 | a non-negative quantity ends as itself minus what the lines sell of it, never below 0 |
| Offline.UpdateLocalStockNonNegative | frontend/src/offline.js:845-869 | a cache without negative quantities keeps none |
| Offline.FindServerItem | frontend/src/offline.js:954 | `find`: the first server item with the code asked for, no earlier item having it; none is found only when no server item has it |
| Offline.UpdateWithActualQuantities | frontend/src/offline.js:946-981 | every cached code stays cached; codes are only added, never dropped |
| Offline.ActualQuantitiesLastLineWins | frontend/src/offline.js:950-972 | the last line of a code with a server quantity sets the entry to that quantity minus that line's own sale, never below 0, whatever earlier lines did |
| Offline.UntouchedByOtherLines | frontend/src/offline.js:950-972 | a cached code no line mentions keeps its quantity |
| Offline.SaveOfflineInvoice | frontend/src/offline.js:239-272 | an invoice without lines fails as an empty cart; otherwise it is saved exactly when the stock check passes, and a saved invoice is appended to the queue and draws down the cached stock |
| Offline.SavedStockStaysNonNegative | frontend/src/offline.js:239-272 | saving an invoice never makes a cached quantity negative |
| Offline.DeleteOfflineInvoice | frontend/src/offline.js:309-314 | an index outside the queue changes nothing; otherwise exactly that entry is removed and the rest keep their order; the stock cache is untouched |
| Offline.SaveThenDeleteRestoresQueue | frontend/src/offline.js:239-314 | deleting the entry just saved restores the queue |
| Offline.CachedCustomerBalance | frontend/src/offline.js:649-662 | a balance is served exactly when one is cached for the customer and is less than a day old, and it is the cached balance |
| Offline.BalanceServedForADay | frontend/src/offline.js:635-662 | a balance saved at time t is served until, and not after, one day past t |
| Ordering.KeyLeTotal | posawesome/posawesome/api/payment_entry.py:354-373 | any two sort keys are comparable |
| Ordering.KeyLeTransitive | posawesome/posawesome/api/payment_entry.py:354-373 | the key order is transitive |
| Ordering.Insert | posawesome/posawesome/api/payment_entry.py:354-373 | inserting into a sorted list keeps it sorted and adds exactly the one element |
| Ordering.SortedCons | posawesome/posawesome/api/payment_entry.py:354-373 | a sorted list stays sorted under a head that precedes every element |
| Ordering.SortBy | posawesome/posawesome/api/payment_entry.py:354-373 | the sort returns a permutation of its input that is sorted by the key, as the stable sorts of receivables and credits do |
| Ordering.InsertBeforeSorted | posawesome/posawesome/api/payment_entry.py:354-373 | an element that precedes the head of a sorted list is placed first |
| Ordering.SortOfSorted | posawesome/posawesome/api/payment_entry.py:354-373 | sorting an already sorted list changes nothing |
| Ordering.SortIdempotent | posawesome/posawesome/api/payment_entry.py:354-373 | sorting twice by the same key is sorting once |
| Ordering.InsertKeepsInjective | posawesome/posawesome/api/payment_entry.py:354-373 | inserting an element with a fresh name keeps names unique |
| Ordering.SortKeepsInjective | posawesome/posawesome/api/payment_entry.py:354-373 | sorting keeps document names unique when they were unique |
| PosPayment.PaidAndReceived | posawesome/posawesome/api/payment_entry.py:123-149 | with equal currencies both amounts are the magnitude of the amount; otherwise the party side is that magnitude and the bank side is the given non-zero bank amount, or the magnitude converted at the rate |
| PosPayment.PrepareInvoicesFacts | posawesome/posawesome/api/payment_entry.py:686-698 | every prepared invoice has a name taken from a selected invoice, no more come out than go in, and none is dropped when all are named |
| PosPayment.PreparedCount | posawesome/posawesome/api/payment_entry.py:686-698 | at most as many prepared invoices as selected ones, and exactly as many when every selected invoice has a name |
| PosPayment.PreparedFrom | posawesome/posawesome/api/payment_entry.py:686-698 | each prepared invoice has a non-empty name, the name of some selected invoice |
| PosPayment.ProcessPosPayment | posawesome/posawesome/api/payment_entry.py:652-674 | the request is refused exactly when payments are disabled or the customer, company, currency, profile name or shift is missing, with the matching reason |
| PosPayment.ValidationOrder | posawesome/posawesome/api/payment_entry.py:655-674 | a refusal names the first missing field in the order the checks run: profile flag, customer, company, currency, profile name, shift |
| PosPayment.SomePositive | posawesome/posawesome/api/payment_entry.py:735-736 | a positive total outstanding has some invoice with a positive outstanding amount |
| PosPayment.WalkAllocates | posawesome/posawesome/api/payment_entry.py:760-799 | with positive credit and positive total outstanding the walk over the invoices allocates something, so the "no allocation made" branches cannot be reached |
| PosPayment.ExcessPaymentRefused | posawesome/posawesome/api/payment_entry.py:848-853 | a Payment Entry worth more than the total outstanding gets the "exceeds outstanding invoices" error and leaves the invoices untouched |
| PosPayment.PaymentFullyPlaced | posawesome/posawesome/api/payment_entry.py:833-891 | an accepted Payment Entry is allocated in full: the allocations add up to its unallocated amount and the total outstanding drops by exactly that |
| PosPayment.NoteRemainderReported | posawesome/posawesome/api/payment_entry.py:724-821 | a posted credit note is reported as reconciled for the smaller of its credit and the positive outstanding; a note worth more than that also gets the unapplied-balance error |
| PosPayment.FailedNoteNotRestored | posawesome/posawesome/api/payment_entry.py:760-829 | when posting a credit note fails, the lowered outstanding amounts stay lowered, by the smaller of the credit and the positive outstanding |
| PosPayment.NewPaymentAccounts | posawesome/posawesome/api/payment_entry.py:917-970 | a new payment records its allocated amount as the sum of its references, the smaller of the amount and the positive outstanding, and its unallocated amount as paid minus allocated |
| PosPayment.MpesaKeepsInvoices | posawesome/posawesome/api/payment_entry.py:705-717 | the M-Pesa phase leaves the invoices and the reconciled list alone, and every submission adds exactly one new entry or one error |
| PosPayment.PayAllAppends | posawesome/posawesome/api/payment_entry.py:917-973 | the new-payments phase never touches the reconciled list and only appends new payments after the existing entries |
| PosPayment.PhaseOrder | posawesome/posawesome/api/payment_entry.py:700-1019 | the phases run M-Pesa, then selected credits, then new payments: M-Pesa entries precede new payments, the reconciled list comes only from the credits phase, and the invoices change only in the later phases |
| PosPayment.MpesaEntriesOnly | posawesome/posawesome/api/payment_entry.py:705-717 | the M-Pesa phase adds only M-Pesa entries |
| PrintTemplate.ComputePaidAmount | frontend/src/offline_print_template.js:24-44 | no document or a credit sale gives 0; otherwise the paid amount is the sum of the payments' magnitudes, never negative |
| PrintTemplate.PaymentsTotalZeroIff | frontend/src/offline_print_template.js:26-29 | the payments total is 0 exactly when every payment is 0 or not a number |
| PrintTemplate.PaidAmountIgnoresSigns | frontend/src/offline_print_template.js:26-29 | negating every payment leaves the paid amount unchanged, so refunds count like payments |
| PrintTemplate.FindTriple | frontend/src/offline_print_template.js:10 | the search returns the first triple quote at or after the start position, and none only when there is none |
| PrintTemplate.Escape | frontend/src/offline_print_template.js:11 | the escaped text holds no raw line break |
| PrintTemplate.UnescapeEscape | frontend/src/offline_print_template.js:11 | reading the escaped string back gives the original text, with CR LF read as LF |
| PrintTemplate.EscapeQuotesEscaped | frontend/src/offline_print_template.js:11 | every quote in the escaped text is preceded by a backslash |
| PrintTemplate.QuotesEscapedConcat | frontend/src/offline_print_template.js:11 | joining two texts whose quotes are escaped gives one whose quotes are escaped |
| PrintTemplate.NormaliseTemplate | frontend/src/offline_print_template.js:5-14 | a template without a complete triple-quoted block is returned unchanged, and a non-empty template never becomes empty |
| PrintTemplate.NormaliseTemplateKeepsPlain | frontend/src/offline_print_template.js:5-14 | a template with no triple quote, the empty one included, is left as it is |
| PrintTemplate.FindTripleAfterGap | frontend/src/offline_print_template.js:10 | after a stretch without triple quotes, the search finds the next one |
| PrintTemplate.NormaliseSingleBlock | frontend/src/offline_print_template.js:5-14 | a template that is one quote-free triple-quoted block becomes one string literal, and that literal reads back as the block's text |
| PrintTemplate.SingleBlockFound | frontend/src/offline_print_template.js:10 | in a single quote-free block the opening triple quote is found first and the closing one next |
| PrintTemplate.NormaliseOneBlock | frontend/src/offline_print_template.js:5-14 | a template whose only block spans all of it becomes one escaped literal |
| PrintTemplate.NormaliseLeadingBlock | frontend/src/offline_print_template.js:5-14 | the first triple-quoted block, found where no triple quote starts before it or inside its body, becomes a double-quoted literal of its escaped body; the text before it is kept and the rest of the template is normalised on its own |
| PrintTemplate.NormaliseEveryBlock | frontend/src/offline_print_template.js:5-14 | in a template made of text and triple-quoted blocks, with a tail holding no triple quote, every block is rewritten in order as the literal of its escaped body and all text between and after the blocks is kept |
| PrintTemplate.AttachFormatter | frontend/src/offline_print_template.js:16-22 | a non-object is left alone, an object without a formatter gets one, and one with a formatter keeps its own |
| PrintTemplate.AttachFormatterIdempotent | frontend/src/offline_print_template.js:16-22 | attaching a formatter twice is attaching it once |
| PrintTemplate.PrintDocOf | frontend/src/offline_print_template.js:169-178 | the printed document takes the invoice's terms, or the cached terms when it has none, and the paid amount computed from its payments |
| PrintTemplate.RenderOfflineInvoice | frontend/src/offline_print_template.js:163-219 | no invoice renders nothing; without a cached template the built-in receipt is used; a rendered template is the normalised cached one accepted by the engine, always over the prepared document |
| Quotations.FillDate | posawesome/posawesome/api/quotations.py:18-28 | a set delivery date is kept; an unset one is filled from the source when the source parses, and otherwise stays unset |
| Quotations.MapDeliveryDates | posawesome/posawesome/api/quotations.py:7-28 | the document's date is filled from its POS delivery date, and each item's from its own POS date or else the filled document date; the item count is kept and set dates are never changed |
| Quotations.FillDateSettles | posawesome/posawesome/api/quotations.py:18-28 | once a date is set, filling it again from any source changes nothing |
| Quotations.MapDeliveryDatesKeepsSetDates | posawesome/posawesome/api/quotations.py:7-28 | mapping the dates a second time leaves every date the first mapping set |
| Quotations.ItemInheritsDocumentDate | posawesome/posawesome/api/quotations.py:23-28 | an item with neither date of its own takes the document's date parsed from its POS delivery date |
| Quotations.SetDefault | posawesome/posawesome/api/quotations.py:42-44 | a present key keeps its value and an absent key gets the default |
| Quotations.EnsureCustomerFields | posawesome/posawesome/api/quotations.py:31-44 | anything but a quotation dictionary is untouched; otherwise the customer, or else the party, fills both customer fields, the customer name is only defaulted, the quotation target defaults to Customer, no field is removed, every field other than those four keeps its value, and no other field is added |
| Quotations.EnsureCustomerFieldsIdempotent | posawesome/posawesome/api/quotations.py:31-44 | ensuring the customer fields twice is ensuring them once |
| Reconcile.PlanCredit | posawesome/posawesome/api/payment_entry.py:417-461 | the walk keeps the invoice count; no credit changes nothing; positive credit leaves a leftover between 0 and the credit |
| Reconcile.PlanShape | posawesome/posawesome/api/payment_entry.py:417-461 | only outstanding amounts change; an invoice with nothing outstanding is not touched; an open one is lowered but never below 0 |
| Reconcile.PlanLowered | posawesome/posawesome/api/payment_entry.py:417-461 | every invoice ends at or below its outstanding amount and, if it was open, at or above 0 |
| Reconcile.PlanConserves | posawesome/posawesome/api/payment_entry.py:417-461 | the invoices drop by exactly the credit used, and the allocation records add up to the same amount |
| Reconcile.PositiveTotalBounds | posawesome/posawesome/api/payment_entry.py:612-614 | the sum of the positive outstanding amounts is at least 0 and at least the plain sum |
| Reconcile.PlanUsesMin | posawesome/posawesome/api/payment_entry.py:417-461 | the credit used is the smaller of the credit and the sum of the positive outstanding amounts |
| Reconcile.PlanMoves | posawesome/posawesome/api/payment_entry.py:417-461 | the allocation records are exactly the per-invoice drops, in invoice order, each positive; no record means no invoice changed |
| Reconcile.PlanAllocationPositive | posawesome/posawesome/api/payment_entry.py:424-426 | every allocation record moves a positive amount |
| Reconcile.PlanMovesExact | posawesome/posawesome/api/payment_entry.py:417-461 | the allocation records match the invoice drops, and an empty record list means the invoices are unchanged |
| Reconcile.PlanFifo | posawesome/posawesome/api/payment_entry.py:417-461 | an invoice is lowered only once every earlier invoice is settled, and credit is left over only when every invoice is settled |
| Reconcile.PlanFifoOrder | posawesome/posawesome/api/payment_entry.py:417-461 | every lowered invoice has only settled invoices before it |
| Reconcile.PlanFifoPair | posawesome/posawesome/api/payment_entry.py:417-461 | when a later invoice is lowered, any earlier one is settled |
| Reconcile.PlanFifoLeftover | posawesome/posawesome/api/payment_entry.py:417-419 | leftover credit means every invoice is settled |
| Reconcile.ChangedNeedsCredit | posawesome/posawesome/api/payment_entry.py:417-419 | an invoice is lowered only when there was credit left to spend |
| Reconcile.AllocateCredit | posawesome/posawesome/api/payment_entry.py:417-461 | the loop as written, which breaks once the credit is spent and skips settled invoices, computes the same plan as the functional walk, and its records add up to the credit used |
| Reconcile.RestoreAddsBack | posawesome/posawesome/api/payment_entry.py:376-383 | restoring adds back to each invoice exactly the amounts recorded under its voucher number, and leaves invoices no record names as they were |
| Reconcile.MovesAmountFor | posawesome/posawesome/api/payment_entry.py:376-383 | with unique voucher numbers, the amount recorded for an invoice is exactly its drop |
| Reconcile.MovesAmountAbsent | posawesome/posawesome/api/payment_entry.py:376-383 | a voucher number that names no invoice has no recorded amount |
| Reconcile.RestoreUndoesPlan | posawesome/posawesome/api/payment_entry.py:376-383 | with unique voucher numbers, restoring a plan's allocations gives back the invoices as they were before the plan |
| Reconcile.PaymentCredits | posawesome/posawesome/api/payment_entry.py:211-240 | each unallocated Payment Entry becomes a payment credit with its name and posting date, in row order |
| Reconcile.NoteCredits | posawesome/posawesome/api/payment_entry.py:265-286 | the credit notes are exactly the return invoices with a non-zero outstanding amount, each as a credit-note credit |
| Reconcile.UnallocatedCredits | posawesome/posawesome/api/payment_entry.py:288-296 | the combined credits are the payment and credit-note credits, sorted by posting date and then name |
| Reconcile.ResortIsNoOp | posawesome/posawesome/api/payment_entry.py:364-371 | sorting the fetched credits again by the same key leaves their order unchanged |
| Reconcile.ProcessCreditCommitsOrSkips | posawesome/posawesome/api/payment_entry.py:385-609 | a credit either commits, so its plan's invoices become current and exactly one allocation entry is added, or it is skipped with one message and the invoices are exactly as before |
| Reconcile.CreditNoteRecordsItsPlan | posawesome/posawesome/api/payment_entry.py:486-492 | a posted credit note that planned some allocation always records a positive amount, so the "no allocation was recorded" branch cannot fire for it |
| Reconcile.ProcessCreditKeepsInvariant | posawesome/posawesome/api/payment_entry.py:385-609 | processing one credit keeps the run's bookkeeping: the invoices' drops equal the committed allocations and the total allocated equals the recorded amounts |
| Reconcile.CommitKeepsInvariant | posawesome/posawesome/api/payment_entry.py:494-503 | committing one credit's lowered invoices and its allocation entry keeps that bookkeeping |
| Reconcile.RunCreditsKeepsInvariant | posawesome/posawesome/api/payment_entry.py:385-609 | over any sequence of credits, the invoices drop by exactly the committed plans, and rolled-back credits contribute nothing |
| Reconcile.AsReceivables | posawesome/posawesome/api/payment_entry.py:354-362 | each fetched invoice becomes a receivable with its voucher number and outstanding amount, in order |
| Reconcile.AutoReconcile | posawesome/posawesome/api/payment_entry.py:300-648 | refused without customer or company; no invoices gives zeros with every credit counted as processed; no credits gives the plain total and count; otherwise the remaining outstanding and open count are those of the final invoices; the reconciled count equals the allocation count |
| Reconcile.AutoReconcileSummary | posawesome/posawesome/api/payment_entry.py:354-648 | over open invoices with distinct voucher numbers, the remaining outstanding is the starting total minus the committed allocations, and the open count is 0 exactly when nothing remains |
| Reconcile.OpenCountZeroIff | posawesome/posawesome/api/payment_entry.py:612-617 | no invoice is open exactly when nothing positive is outstanding |
| Reconcile.RunFromStart | posawesome/posawesome/api/payment_entry.py:373-609 | a whole run over open invoices with distinct names leaves open what was open minus the committed allocations, and every credit ends allocated or skipped |
| Reconcile.InvoiceOrder | posawesome/posawesome/api/payment_entry.py:354-362 | the invoices the loop sees are a permutation of the fetched ones, sorted by posting date, then due date (or posting date), then voucher number |
| StockCoordinator.NormalizeCode | frontend/src/posapp/utils/stockCoordinator.js:6-12 | a missing code has no normal form, and neither does a blank one; otherwise the normal form is non-empty, trimmed and no longer than the raw code |
| StockCoordinator.NormalizeIdempotent | frontend/src/posapp/utils/stockCoordinator.js:6-12 | normalising a normalised code changes nothing |
| StockCoordinator.ComputeAvailability | frontend/src/posapp/utils/stockCoordinator.js:25-38 | an empty code gives nothing and changes nothing; a code with a base quantity is available for its base minus its reservation (0 when none), which is cached; a code without a base quantity has no availability; no other code's cache entry changes |
| StockCoordinator.Refresh | frontend/src/posapp/utils/stockCoordinator.js:120 | recomputing the availability of a list of codes sets each listed code as computed and leaves the others alone |
| StockCoordinator.RefreshRestores | frontend/src/posapp/utils/stockCoordinator.js:119-120 | recomputing the codes whose stock changed restores the cache's agreement with base minus reserved |
| StockCoordinator.WalkSeen | frontend/src/posapp/utils/stockCoordinator.js:81-108 | the walk marks as seen exactly the normalisable codes, and marks as changed only codes it saw |
| StockCoordinator.WalkKeys | frontend/src/posapp/utils/stockCoordinator.js:81-108 | the walk keeps every base code, adds only seen codes, and leaves unchanged codes as they were |
| StockCoordinator.WalkStoresLast | frontend/src/posapp/utils/stockCoordinator.js:81-108 | a code with a numeric quantity ends with the last such quantity given for it |
| StockCoordinator.WalkUntouched | frontend/src/posapp/utils/stockCoordinator.js:81-108 | a code that is given no numeric quantity keeps its base entry |
| StockCoordinator.UpdateBaseFrame | frontend/src/posapp/utils/stockCoordinator.js:76-127 | only codes that were in the base or were given can change; reservations are untouched; unchanged codes keep all their stock; agreement of the cache is kept |
| StockCoordinator.UpdateBaseContent | frontend/src/posapp/utils/stockCoordinator.js:76-127 | a code given a numeric quantity ends with the last one; without pruning no base code is dropped; with pruning only given codes survive, and a dropped code is reported as changed |
| StockCoordinator.BaseEntryChangesIffDiffers | frontend/src/posapp/utils/stockCoordinator.js:103-107 | one entry sets its code's base quantity, and reports the code as changed exactly when the quantity differs from the stored one; no other code is reported |
| StockCoordinator.IncomingIsLastPositive | frontend/src/posapp/utils/stockCoordinator.js:131-144 | the incoming reservation of a code is the last positive numeric quantity given for it, if any |
| StockCoordinator.UpdateReservations | frontend/src/posapp/utils/stockCoordinator.js:129-176 | the base is untouched; every reservation is positive and equals the last positive quantity given for its code, else 0; a code is reported exactly when its reservation changed; agreement of the cache is kept |
| StockCoordinator.ReservationsMatchInput | frontend/src/posapp/utils/stockCoordinator.js:129-166 | a code is reserved exactly when some total gives it a positive quantity |
| StockCoordinator.ClearAll | frontend/src/posapp/utils/stockCoordinator.js:178-193 | clearing reports every code known to the base, reservation or availability map |
| StockCoordinator.ClearAllForgets | frontend/src/posapp/utils/stockCoordinator.js:178-220 | after clearing, no code has a base, a reservation or an availability |
| StockCoordinator.GetAvailability | frontend/src/posapp/utils/stockCoordinator.js:195-204 | a blank code gives nothing; otherwise a code with a base quantity is available for base minus reservation, and one without has no availability |
| StockCoordinator.GetReserved | frontend/src/posapp/utils/stockCoordinator.js:206-212 | a blank or unreserved code has reservation 0, and reservations are never negative |
| StockCoordinator.GetBase | frontend/src/posapp/utils/stockCoordinator.js:214-220 | a blank code has no base quantity, and a returned one is the stored base of the normalised code |
| StockCoordinator.ConsumeStepFacts | frontend/src/posapp/utils/stockCoordinator.js:328-358 | one line lowers only its own base code, by its consumption, and reports only that code |
| StockCoordinator.ConsumeAllFrame | frontend/src/posapp/utils/stockCoordinator.js:328-358 | the walk keeps the base codes, reports only base codes, and leaves every unreported code's base alone |
| StockCoordinator.ConsumeAllValues | frontend/src/posapp/utils/stockCoordinator.js:328-358 | every base code ends at its base minus what all the lines consume of it |
| StockCoordinator.ConsumeAllFacts | frontend/src/posapp/utils/stockCoordinator.js:328-358 | every base code ends at its base minus everything the lines consume of it; only base codes are added to the changed set, and codes not in it keep their base |
| StockCoordinator.ApplyInvoiceConsumption | frontend/src/posapp/utils/stockCoordinator.js:325-365 | base codes are kept and each drops by what the lines consume of it; reservations are untouched; only base codes are reported; agreement of the cache is kept |
| StockCoordinator.ConsumptionIgnoresUnknown | frontend/src/posapp/utils/stockCoordinator.js:332-338 | lines whose codes are blank or not in the base change nothing and report nothing |
| StockSettings.ParseBooleanSetting | frontend/src/posapp/utils/stock.js:3-18 | null is false; a text is true exactly when trimmed and lowered it is "1", "true", "yes" or "on"; a number exactly when it is 1; a boolean is itself; an object is true |
| StockSettings.BooleanSettingNormalized | frontend/src/posapp/utils/stock.js:8-11 | a text and its trimmed, lowered form parse alike |
| StockSettings.MessageArgs | frontend/src/posapp/utils/stock.js:20-42 | the message names the item, or "this item" when the name is blank, with missing quantities shown as 0 |
| StockSettings.MessagesShareArguments | frontend/src/posapp/utils/stock.js:20-42 | the shortage error and the negative-stock warning carry the same arguments and differ only in their template |
| StockUtils.StockQtyConvertsBack | frontend/src/posapp/composables/useStockUtils.js:297-299 | the stock quantity divided by a non-zero conversion factor gives back the quantity |
| StockUtils.FindUom | frontend/src/posapp/composables/useStockUtils.js:8-15 | `find`: the first UOM row with the name asked for, no earlier row having it; none is found only when no row has it |
| StockUtils.FindUomAppended | frontend/src/posapp/composables/useStockUtils.js:20-24 | a UOM appended under a new name is found by that name |
| StockUtils.LookupUom | frontend/src/posapp/composables/useStockUtils.js:8-24 | the item's own UOM rows are tried first, then the non-empty cached list, which replaces the item's rows, then the stock UOM at factor 1, which is appended; whatever is found is in the resulting rows |
| StockUtils.CalcUom | frontend/src/posapp/composables/useStockUtils.js:7-160 | an unknown UOM leaves the item as it was except for the looked-up rows; otherwise the conversion factor becomes the UOM's and the stock quantity follows it; a UOM price locks the rate, and without one the rate is locked exactly for a non-stock UOM or factor |
| StockUtils.StockUomFallback | frontend/src/posapp/composables/useStockUtils.js:19-24 | choosing the stock UOM when no row names it falls back to factor 1, adds that row, sets the stock quantity to the quantity and leaves the rate unlocked |
| StockUtils.CalcUomIdempotent | frontend/src/posapp/composables/useStockUtils.js:7-160 | choosing the same UOM again changes nothing more |
| UpdateStore.LastSegment | frontend/src/posapp/stores/updateStore.js:70-71 | the last segment is a suffix of the version without a dash, preceded by a dash whenever it is not the whole version |
| UpdateStore.ParseTimestamp | frontend/src/posapp/stores/updateStore.js:64-73 | a missing version has no timestamp; a version that reads as a number above 1000 is that number; any other result is the last dash-separated segment read as a number, or nothing |
| UpdateStore.TimestampOfBuildNumber | frontend/src/posapp/stores/updateStore.js:64-69 | a build number above 1000 is its own timestamp |
| UpdateStore.TimestampOfTaggedVersion | frontend/src/posapp/stores/updateStore.js:64-73 | a version tagged name-dash-number has that number as its timestamp |
| UpdateStore.TaggedVersionIsNotANumber | frontend/src/posapp/stores/updateStore.js:66-67 | a tagged version does not read as a number as a whole, so the segment rule decides it |
| UpdateStore.LastSegmentAfterDash | frontend/src/posapp/stores/updateStore.js:70-71 | the last segment of a text ending in a dash followed by a dash-free tail is that tail |
| UpdateStore.ResolveTimestamp | frontend/src/posapp/stores/updateStore.js:138 | an explicit timestamp wins; otherwise the version's parsed timestamp is used |
| UpdateStore.InitializeFromStorage | frontend/src/posapp/stores/updateStore.js:120-134 | a stored version becomes the current one and an already known available version is kept; a stored snooze deadline only moves the deadline later; reload state is untouched |
| UpdateStore.SetCurrentVersion | frontend/src/posapp/stores/updateStore.js:135-160 | an empty version changes nothing; otherwise it becomes current, and the prompt is due exactly when a different newer version was already announced; a pending update is kept |
| UpdateStore.SetAvailableVersion | frontend/src/posapp/stores/updateStore.js:161-190 | an empty version changes nothing; otherwise it becomes the available version with its resolved timestamp, fills in a missing current version, and makes an update ready exactly when a different current version is known |
| UpdateStore.MarkUpdateApplied | frontend/src/posapp/stores/updateStore.js:191-215 | applying an update ends reloading and the snooze, makes the given version both current and available, and leaves no update ready, so nothing prompts at any time |
| UpdateStore.SetReloadAction | frontend/src/posapp/stores/updateStore.js:216-219 | only whether a reload action is present changes |
| UpdateStore.ReloadNow | frontend/src/posapp/stores/updateStore.js:220-226 | the reload runs exactly when an action is set and no reload is in progress, and then marks reloading; a reload never makes a prompt appear |
| UpdateStore.Snooze | frontend/src/posapp/stores/updateStore.js:227-236 | the snooze deadline becomes now plus the given minutes, and nothing else changes |
| UpdateStore.ResetSnooze | frontend/src/posapp/stores/updateStore.js:237-245 | the snooze deadline is cleared, and nothing else changes |
| UpdateStore.SnoozeHidesPromptUntilDeadline | frontend/src/posapp/stores/updateStore.js:109-114 | after snoozing, the prompt shows exactly when an update is ready, no reload runs, and the deadline has passed |
| UpdateStore.ResetSnoozeShowsPrompt | frontend/src/posapp/stores/updateStore.js:109-114 | without a snooze, the prompt shows exactly when an update is ready and no reload runs |
| UpdateStore.AnnouncedUpdatePrompts | frontend/src/posapp/stores/updateStore.js:101-114 | announcing a version different from the running one prompts, and applying it silences the prompt |
| UseLoading.Start | frontend/src/posapp/composables/useLoading.js:33-37 | starting adds one to the counter of its id, registers the id, and touches no other counter |
| UseLoading.Stop | frontend/src/posapp/composables/useLoading.js:39-44 | stopping takes one from the counter of its id, and drops the id exactly when its count was at most 1; other counters are untouched |
| UseLoading.StartStopRestores | frontend/src/posapp/composables/useLoading.js:33-44 | a start followed by a stop of the same id restores the counters |
| UseLoading.WithLoading | frontend/src/posapp/composables/useLoading.js:46-51 | running a task under a loader leaves the counters as they were |
| UseLoading.AnyLoadingIffSomeId | frontend/src/posapp/composables/useLoading.js:53-59 | something is loading exactly when some id is loading |
| UseLoading.StartedIsLoading | frontend/src/posapp/composables/useLoading.js:33-37 | right after a start, its id is loading and so is something |

## Left out

- Floating-point rounding: `flt`, `round`, `Intl.NumberFormat` and `toLocaleString` are dropped. Reconciliation, POS-payment and merge-log amounts are integer minor units. Quantities, rates, prices, stock levels, offer bounds and discounts are exact `real`s.
- Framework, database and ledger calls become parameters of the members that use them: the documents they load, the rows their queries return, and the replies or failures of postings. These include `get_doc`, `get_all`, `make_payment_entry`, `reconcile` and `submit`. Their own logic is not modelled.
- `create_direct_journal_entry`, `on_payment_entry_cancel`, `fix_payment_entry_links` and the HTML summary and `msgprint` text of payment_entry.py are not modelled. They are ledger plumbing and message formatting.
- The clock (`nowdate`, `Date.now()`) is a parameter.
- Persistence is not modelled: IndexedDB, localStorage, `frappe.cache` and `frappe.db.commit`.
- Notifications are not modelled: Vue watchers, event-bus messages, console logging and toasts. The one exception is where a watcher decides a value the model states, and the lines below name those cases.
- Concurrency is not modelled: promise races, debouncing, and a request superseded by a newer one.
- Reconcile.AutoReconcile: an error inside `get_outstanding_invoices` (payment_entry.py:153-208) is swallowed and returns an empty list. The model takes the list as given, so this reaches the model as its no-invoices case.
- Common.IsSpace: only ASCII white space counts (space, tab, line feed, carriage return, vertical tab, form feed). JavaScript `trim` and Python `strip` also remove Unicode spaces. `Trim` inherits this, and so do NormalizeSearchTerm, NormalizeProfile, the local searches and the numeral readers.
- Common.Lower: only ASCII letters are lower-cased. JavaScript `toLowerCase` and Python `lower` also fold other scripts.
- Numerals.NumberOf: only integer numerals are read. Fractions, exponents, hexadecimal and `Infinity` are not modelled.
- Numerals.ParseFloat: the same integer-only restriction as NumberOf.
- Invoice.ValidateShift: the shift document is a parameter. The exception `frappe.get_cached_doc` raises for a missing shift (invoice.py:302-313) is not modelled.
- Invoice.AutoSetDeliveryCharges: the applicable charges are a parameter. The query behind them (`calc_delivery_charges`) is not modelled.
- Invoices.PageNumber: a non-empty text page is taken as already converted to its number. `int(page)` raising ValueError on text that is not a numeral (invoices.py:774-775) is not modelled.
- Invoices.SanitizeItemName: the text is taken as already free of HTML tags. `strip_html_tags` (invoices.py:38-43) is not modelled.
- CustomersStore.AddOrUpdateCustomer: the list update is modelled. `setCustomerStorage`, `setSelectedCustomer` and `requestCustomerRefresh` (customersStore.js:418-421) are not.
- StockUtils.CalcUom: an unknown UOM is reported as `UomNotFound`. The event-bus "UOM not found" message that goes with it (useStockUtils.js:26-31) is not modelled.
- StockUtils.CalcUom: a failing `JSON.parse` of an offer's items (useStockUtils.js:85) is not modelled.
- StockUtils.CalcUom: the recomputation of rate, currency rate and discount after a UOM change (useStockUtils.js:71-139) is not modelled. Only the conversion factor, the stock quantity and the manual-rate flag are.
- StockUtils.CalcUom: `calc_stock_qty` is assumed present (useStockUtils.js:137).
- InvoiceStore.SetItems: `changeVersion` counts the store's own `touch()` only. The deep watcher on the items (invoiceStore.js:168-174) touches once more after the flush, so the observed counter can grow by two.
- InvoiceStore.ReplaceItemAt: the same `changeVersion` restriction as SetItems.
- InvoiceStore.UpsertItem: the same `changeVersion` restriction as SetItems.
- InvoiceStore.RemoveItemByRowId: the same `changeVersion` restriction as SetItems.
- InvoiceStore.ClearItems: the same `changeVersion` restriction as SetItems.
- InvoiceStore.Clear: the same `changeVersion` restriction as SetItems.
- Discounts.CalcPrices: an exchange rate of 0, which gives Infinity or NaN in JavaScript, is not modelled; the rate is a non-zero real. The `calc_stock_qty` and `forceUpdate` callbacks it runs afterwards are not modelled.
- Discounts.CalcItemPrice: the same non-zero exchange rate is assumed.
- Discounts.CalcItemPriceIdempotent: idempotence is promised only for a line without the `_skip_calc` mark. A marked line is left alone once and then recomputed (Discounts.SkipDefersOnce).
- ItemSearch.RunItemQuery: the second query with `like` filters, run when the first page of a code search is empty (items.py:609-622), is not modelled. The rows it would return arrive through the page parameter.
- ItemFetchers.BuildDetails: the colour and size attributes (item_fetchers.py:500-530) are not modelled.
- BatchSerial.UsedBatches: batch numbers are strings. A missing batch number, which JavaScript turns into the key "undefined", is not modelled, and neither is the `used_qty` field, which nothing downstream reads.
- BatchSerial.SetBatchQty: the batch-price branch (useBatchSerial.js:74-122) is not modelled. That branch converts the batch price to the selected currency and resets the rates and discounts. The model states which batch is chosen and its quantity.
- OfferMethods.FormatDateForBackend: text that is neither ISO nor day-month-year becomes `NeedsDateParse`. What `new Date(text)` makes of it (invoiceOfferMethods.js:1557-1564) is not modelled.
- PrintTemplate.NormaliseSingleBlock: reads the literal back only for a template that is one block without quote characters. For a template with text around its blocks or with several blocks, NormaliseEveryBlock gives each block's literal as its escaped body, and UnescapeEscape reads any escaped body back; the two are not joined into one statement.
- Format.ClampPrecision: a precision of plus or minus Infinity is not modelled, because the precision is a real number or NaN. In exponent form the leading digit is taken from the exact value, which can differ from the digit of the shortest decimal that `String` prints when that decimal rounds up to the next digit.

## Findings

| source | as written | input that shows it | evidently intended | confidence | as-written member | corrected member |
|---|---|---|---|---|---|---|
| posawesome/posawesome/api/invoices.py:133-141 | `_should_block` reads the profile's stock-blocking setting with `or 1`, so a stored 0 counts as 1 | `allow_negative_stock` 0, profile setting 0, one line short of stock: the invoice is refused although the profile switched blocking off | a profile setting of 0 lets the invoice through, and only a missing setting defaults to blocking | high (not executed) | Invoices.ShouldBlock, Invoices.StockValidationRefuses, Invoices.DisabledProfileStillRefuses | Invoices.ShouldBlockIntended, Invoices.StockValidationRefusesIntended |
| posawesome/posawesome/api/invoice.py:285-297 | the loop over the tax rows ends every iteration with an unconditional `continue`, so only "Actual" rows are ever rewritten | profile with `tax_inclusive` 1 and an "On Net Total" row that is not included: the row stays not included | every non-Actual row follows the profile setting: included in the rate when it is on, not included when it is off | medium (not executed) | Invoice.ApplyTaxInclusive, Invoice.InclusiveSettingIgnored | Invoice.ApplyTaxInclusiveIntended |
| frontend/src/posapp/composables/useCartValidation.js:41-43 | a missing item, or one without a code, throws "Invalid item data" inside the `try`, and the `catch` falls back to the quantity-only check | a null item, or an item without a code that is not a stock item: the fallback accepts it | an item without data or without a code is refused | medium (not executed) | CartValidation.ValidateCartItem, CartValidation.MissingItemPasses | CartValidation.ValidateCartItemIntended |
