/**
 * The checks of frontend/src/posapp/composables/useCartValidation.js run
 * before an item enters the cart: item templates and out-of-stock items
 * are refused, a stock item may not exceed its available quantity unless
 * negative stock is allowed, and the server's verdict decides the rest. A
 * failed or unreachable server falls back to a local check. The server's
 * reply is a parameter; the messages shown are the result's reasons.
 */
module CartValidation {
  import opened Common
  import opened Numerals
  import opened StockSettings

  /** The fields of an item the checks read; `actualQty` is `None` when
      `actual_qty` is not a number. */
  datatype CartItem = CartItem(itemCode: string, itemName: string, hasVariants: bool,
                               actualQty: Option<real>, isStockItem: JsValue)

  /** What `validate_cart_items` answered for one item: no issue, the
      first stock issue it reported, or a failure to answer. */
  datatype ServerReply = ServerOk | ServerIssue(itemName: string, availableQty: Option<real>, requestedQty: Option<real>)
                       | ServerFailed

  datatype Reason = InvalidItem | TemplateItem | NoStock | Shortage(message: StockMessage)

  datatype Verdict = Passed | Rejected(reason: Reason)

  /** The settings the checks consult. */
  datatype Settings = Settings(displayItemsInStock: bool, allowNegativeStock: JsValue)

  /** `item_name || item_code`. */
  function DisplayName(item: CartItem): string
  {
    if item.itemName != [] then item.itemName else item.itemCode
  }

  /** A known available quantity the request is larger than. */
  predicate Exceeds(item: CartItem, requestedQty: real)
  {
    item.actualQty.Some? && requestedQty > item.actualQty.value
  }

  function ShortageFor(item: CartItem, requestedQty: real): Reason
  {
    Shortage(StockShortageError(DisplayName(item), item.actualQty, Some(requestedQty)))
  }

  /**
   * `performFallbackValidation`: only a stock item can fail, and only
   * when negative stock is not allowed, because its available quantity
   * is negative or the request exceeds it.
   */
  function FallbackValidation(item: Option<CartItem>, requestedQty: real, settings: Settings): (r: Verdict)
    ensures item.None? || !ParseBooleanSetting(item.value.isStockItem) ==> r == Passed
    ensures ParseBooleanSetting(settings.allowNegativeStock) ==> r == Passed
    ensures item.Some? && ParseBooleanSetting(item.value.isStockItem) && !ParseBooleanSetting(settings.allowNegativeStock) ==>
              (r.Rejected? <==> (item.value.actualQty.Some? && item.value.actualQty.value < 0.0) || Exceeds(item.value, requestedQty))
    ensures r.Rejected? ==> r.reason == ShortageFor(item.value, requestedQty)
  {
    if item.Some? && ParseBooleanSetting(item.value.isStockItem) then
      var it := item.value;
      var allowNegative := ParseBooleanSetting(settings.allowNegativeStock);
      if it.actualQty.Some? && it.actualQty.value < 0.0 && !allowNegative then Rejected(ShortageFor(it, requestedQty))
      else if !allowNegative && Exceeds(it, requestedQty) then Rejected(ShortageFor(it, requestedQty))
      else Passed
    else Passed
  }

  /** The reason built from the server's stock issue, each part falling
      back to the item's own. */
  function ServerShortage(item: CartItem, requestedQty: real, reply: ServerReply): Reason
    requires reply.ServerIssue?
  {
    var name := if reply.itemName != [] then reply.itemName else DisplayName(item);
    var available := if reply.availableQty.Some? then reply.availableQty else item.actualQty;
    var requested := if reply.requestedQty.Some? then reply.requestedQty else Some(requestedQty);
    Shortage(StockShortageError(name, available, requested))
  }

  /** An item that passes the local steps of `validateCartItem` and is
      sent to the server: a stock item with a code, no template, not
      hidden for having no stock, and not refused for exceeding its
      available quantity while negative stock is disallowed. */
  predicate ReachesServer(item: CartItem, requestedQty: real, settings: Settings)
  {
    item.itemCode != [] && !item.hasVariants && !(item.actualQty == Some(0.0) && settings.displayItemsInStock)
    && ParseBooleanSetting(item.isStockItem)
    && !(!ParseBooleanSetting(settings.allowNegativeStock) && Exceeds(item, requestedQty))
  }

  /**
   * `validateCartItem`, in its order of steps: an item without a code is
   * an error and goes to the fallback; a template is refused; an item
   * with no stock is refused when only items in stock are shown; a stock
   * item over its available quantity is refused unless negative stock is
   * allowed; then the server decides, a failure going to the fallback.
   * Items that are not stock items pass.
   */
  function ValidateCartItem(item: Option<CartItem>, requestedQty: real, settings: Settings, reply: ServerReply): (r: Verdict)
    ensures item.None? || item.value.itemCode == [] ==> r == FallbackValidation(item, requestedQty, settings)
    ensures item.Some? && item.value.itemCode != [] && item.value.hasVariants ==> r == Rejected(TemplateItem)
    ensures item.Some? && item.value.itemCode != [] && !item.value.hasVariants ==>
              (r == Rejected(NoStock) <==> item.value.actualQty == Some(0.0) && settings.displayItemsInStock)
    ensures item.Some? && item.value.itemCode != [] && !ParseBooleanSetting(item.value.isStockItem) ==>
              (r.Passed? <==> !item.value.hasVariants && !(item.value.actualQty == Some(0.0) && settings.displayItemsInStock))
    ensures item.Some? && item.value.itemCode != [] && reply.ServerOk? ==>
              (r.Rejected? <==> item.value.hasVariants || (item.value.actualQty == Some(0.0) && settings.displayItemsInStock)
                                || (ParseBooleanSetting(item.value.isStockItem) && !ParseBooleanSetting(settings.allowNegativeStock)
                                    && Exceeds(item.value, requestedQty)))
    ensures item.Some? && item.value.itemCode != [] && !item.value.hasVariants
            && !(item.value.actualQty == Some(0.0) && settings.displayItemsInStock)
            && ParseBooleanSetting(item.value.isStockItem) && !ParseBooleanSetting(settings.allowNegativeStock)
            && Exceeds(item.value, requestedQty) ==>
              r == Rejected(ShortageFor(item.value, requestedQty))
    ensures item.Some? && ReachesServer(item.value, requestedQty, settings) ==>
              (reply.ServerOk? ==> r == Passed)
              && (reply.ServerIssue? ==> r == Rejected(ServerShortage(item.value, requestedQty, reply)))
              && (reply.ServerFailed? ==> r == FallbackValidation(item, requestedQty, settings))
  {
    if item.None? || item.value.itemCode == [] then FallbackValidation(item, requestedQty, settings)
    else
      var it := item.value;
      if it.hasVariants then Rejected(TemplateItem)
      else if it.actualQty == Some(0.0) && settings.displayItemsInStock then Rejected(NoStock)
      else if ParseBooleanSetting(it.isStockItem) then
        var allowNegative := ParseBooleanSetting(settings.allowNegativeStock);
        if !allowNegative && Exceeds(it, requestedQty) then Rejected(ShortageFor(it, requestedQty))
        else
          match reply
          case ServerOk => Passed
          case ServerIssue(_, _, _) => Rejected(ServerShortage(it, requestedQty, reply))
          case ServerFailed => FallbackValidation(item, requestedQty, settings)
      else Passed
  }

  /** As written, the "Invalid item data" error is caught like a network
      failure, so a missing item passes through the fallback. */
  lemma MissingItemPasses(requestedQty: real, settings: Settings, reply: ServerReply)
    ensures ValidateCartItem(None, requestedQty, settings, reply) == Passed
  {
  }

  /**
   * `validateCartItem` as its first step evidently intends: an item that
   * is missing or has no code is refused; any other item is checked as
   * above.
   */
  function ValidateCartItemIntended(item: Option<CartItem>, requestedQty: real, settings: Settings, reply: ServerReply): (r: Verdict)
    ensures item.None? || item.value.itemCode == [] ==> r == Rejected(InvalidItem)
    ensures item.Some? && item.value.itemCode != [] ==> r == ValidateCartItem(item, requestedQty, settings, reply)
    ensures r.Passed? ==> item.Some? && item.value.itemCode != [] && !item.value.hasVariants
  {
    if item.None? || item.value.itemCode == [] then Rejected(InvalidItem)
    else ValidateCartItem(item, requestedQty, settings, reply)
  }

  /** With negative stock allowed, a stock item that is no template and
      not hidden for having no stock is refused only by the server. */
  lemma AllowNegativeLeavesServer(item: CartItem, requestedQty: real, settings: Settings, reply: ServerReply)
    requires item.itemCode != [] && !item.hasVariants && !(item.actualQty == Some(0.0) && settings.displayItemsInStock)
    requires ParseBooleanSetting(item.isStockItem) && ParseBooleanSetting(settings.allowNegativeStock)
    ensures ValidateCartItem(Some(item), requestedQty, settings, reply).Rejected? <==> reply.ServerIssue?
  {
  }

  /** A request within the available quantity never fails the local
      checks, whatever the negative stock setting. */
  lemma WithinStockPassesFallback(item: CartItem, requestedQty: real, settings: Settings)
    requires item.actualQty.Some? && 0.0 <= item.actualQty.value && requestedQty <= item.actualQty.value
    ensures FallbackValidation(Some(item), requestedQty, settings) == Passed
  {
  }

  // ---------------------------------------------------------------------
  // validateCartItems (useCartValidation.js:251-285)

  /** A list entry: the item it holds (`entry.item || entry`) and its
      quantity, `None` when missing. */
  datatype Entry = Entry(target: Option<CartItem>, qty: Option<real>)

  /** `entry.qty || 1`. */
  function RequestedQty(e: Entry): (r: real)
    ensures r != 0.0
    ensures e.qty.Some? && e.qty.value != 0.0 ==> r == e.qty.value
  {
    if e.qty.Some? && e.qty.value != 0.0 then e.qty.value else 1.0
  }

  predicate EntryPasses(e: Entry, settings: Settings, server: (CartItem, real) -> ServerReply)
  {
    var reply := if e.target.Some? then server(e.target.value, RequestedQty(e)) else ServerFailed;
    ValidateCartItem(e.target, RequestedQty(e), settings, reply).Passed?
  }

  /** As written, an entry with no item code is listed as valid whenever
      the local fallback passes it. */
  lemma CodelessEntryListedValid(e: Entry, settings: Settings, server: (CartItem, real) -> ServerReply)
    requires e.target.Some? && e.target.value.itemCode == []
    requires FallbackValidation(e.target, RequestedQty(e), settings).Passed?
    ensures var r := ValidateCartItems([e], settings, server);
            r.valid == [e] && r.invalid == [] && !r.hasErrors
  {
    assert [e][1..] == [];
  }

  datatype Partition = Partition(valid: seq<Entry>, invalid: seq<Entry>, hasErrors: bool)

  /**
   * `validateCartItems`: the entries split into those that pass and
   * those that do not, each in input order, with `hasErrors` iff some
   * entry failed.
   */
  function ValidateCartItems(entries: seq<Entry>, settings: Settings, server: (CartItem, real) -> ServerReply): Partition
  {
    if entries == [] then Partition([], [], false)
    else
      var rest := ValidateCartItems(entries[1..], settings, server);
      var e := entries[0];
      if EntryPasses(e, settings, server) then Partition([e] + rest.valid, rest.invalid, rest.hasErrors)
      else Partition(rest.valid, [e] + rest.invalid, true)
  }

  /** The two lists together are the entries, each entry once. */
  lemma {:induction false} ValidateCartItemsSplits(entries: seq<Entry>, settings: Settings, server: (CartItem, real) -> ServerReply)
    ensures var r := ValidateCartItems(entries, settings, server);
            && multiset(r.valid) + multiset(r.invalid) == multiset(entries)
            && |r.valid| + |r.invalid| == |entries|
            && (forall e :: e in entries ==> e in r.valid || e in r.invalid)
    decreases |entries|
  {
    var r := ValidateCartItems(entries, settings, server);
    if entries != [] {
      var tail := entries[1..];
      ValidateCartItemsSplits(tail, settings, server);
      assert entries == [entries[0]] + tail;
      assert multiset(entries) == multiset{entries[0]} + multiset(tail);
    }
    assert |multiset(r.valid) + multiset(r.invalid)| == |entries|;
    forall e | e in entries ensures e in r.valid || e in r.invalid {
      assert e in multiset(entries);
    }
  }

  /** An entry is listed as valid only when it passes, as invalid only
      when it fails, and errors are reported iff some entry failed. */
  lemma {:induction false} ValidateCartItemsSorted(entries: seq<Entry>, settings: Settings, server: (CartItem, real) -> ServerReply)
    ensures var r := ValidateCartItems(entries, settings, server);
            && (forall e :: e in r.valid ==> e in entries && EntryPasses(e, settings, server))
            && (forall e :: e in r.invalid ==> e in entries && !EntryPasses(e, settings, server))
            && (r.hasErrors <==> r.invalid != [])
    decreases |entries|
  {
    if entries != [] {
      var tail := entries[1..];
      ValidateCartItemsSorted(tail, settings, server);
      assert forall e :: e in tail ==> e in entries;
    }
  }
}
