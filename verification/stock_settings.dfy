/**
 * The stock helpers of frontend/src/posapp/utils/stock.js: reading a
 * loosely typed boolean setting, and the arguments of the stock shortage
 * and negative stock messages. Message translation is left out: a
 * message is its template and the values put into it.
 */
module StockSettings {
  import opened Common
  import opened Numerals

  /** The texts that switch a setting on, after trimming and lowering. */
  const TrueWords: seq<string> := ["1", "true", "yes", "on"]

  /**
   * `parseBooleanSetting`: missing is off; text is on iff its trimmed,
   * lower-cased form is one of the true words; a number is on iff it is
   * 1; anything else by its truthiness.
   */
  function ParseBooleanSetting(v: JsValue): (r: bool)
    ensures v.JsNull? ==> !r
    ensures v.JsText? ==> (r <==> Lower(Trim(v.s)) in TrueWords)
    ensures v.JsNumber? ==> (r <==> v.x == 1.0)
    ensures v.JsNaN? || v.JsInfinity? ==> !r
    ensures v.JsBool? ==> r == v.b
    ensures v.JsObject? ==> r
  {
    match v
    case JsNull => false
    case JsText(s) => Lower(Trim(s)) in TrueWords
    case JsNumber(x) => x == 1.0
    case JsNaN => false
    case JsInfinity => false
    case _ => Truthy(v)
  }

  /** A setting read from text is unchanged by trimming and lower-casing
      the text first. */
  lemma BooleanSettingNormalized(s: string)
    ensures ParseBooleanSetting(JsText(Lower(Trim(s)))) == ParseBooleanSetting(JsText(s))
  {
    var t := Trim(s);
    var l := Lower(t);
    LowerKeepsSpace(t);
    if |l| > 0 {
      assert !IsSpace(l[0]) && !IsSpace(l[|l| - 1]);
    }
    TrimOfTrimmed(l);
    LowerIdempotent(t);
  }

  /** The label of an item without a name. */
  const ThisItem := "this item"

  /** A message: its template and the item label and quantities in it. */
  datatype StockMessage = StockMessage(template: string, itemLabel: string, available: real, requested: real)

  const ShortageTemplate := "{0} has only {1} in stock. You requested {2}. Adjust quantity or restock."
  const NegativeStockTemplate := "Stock update: {0} has {1} available. Adding {2} will bring the stock below zero."

  /** The label and quantities both messages use: a missing name becomes
      "this item", missing quantities 0. */
  function MessageArgs(template: string, itemName: string, availableQty: Option<real>, requestedQty: Option<real>): (r: StockMessage)
    ensures r.template == template
    ensures r.itemLabel == (if itemName != [] then itemName else ThisItem) && r.itemLabel != []
    ensures r.available == (if availableQty.Some? then availableQty.value else 0.0)
    ensures r.requested == (if requestedQty.Some? then requestedQty.value else 0.0)
  {
    StockMessage(template, if itemName != [] then itemName else ThisItem,
                 availableQty.GetOr(0.0), requestedQty.GetOr(0.0))
  }

  /** `formatStockShortageError`. */
  function StockShortageError(itemName: string, availableQty: Option<real>, requestedQty: Option<real>): (r: StockMessage)
    ensures r == MessageArgs(ShortageTemplate, itemName, availableQty, requestedQty)
  {
    MessageArgs(ShortageTemplate, itemName, availableQty, requestedQty)
  }

  /** `formatNegativeStockWarning`. */
  function NegativeStockWarning(itemName: string, availableQty: Option<real>, requestedQty: Option<real>): (r: StockMessage)
    ensures r == MessageArgs(NegativeStockTemplate, itemName, availableQty, requestedQty)
  {
    MessageArgs(NegativeStockTemplate, itemName, availableQty, requestedQty)
  }

  /** The two messages differ only in their template. */
  lemma MessagesShareArguments(itemName: string, availableQty: Option<real>, requestedQty: Option<real>)
    ensures StockShortageError(itemName, availableQty, requestedQty).(template := NegativeStockTemplate)
            == NegativeStockWarning(itemName, availableQty, requestedQty)
    ensures StockShortageError(itemName, None, None).available == 0.0
  {
  }
}
