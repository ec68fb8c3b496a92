/**
 * The preparation of a quotation before it is saved,
 * posawesome/posawesome/api/quotations.py: mandatory delivery dates are
 * filled from the POS delivery dates, and the customer fields are made
 * consistent. A document is a map from field names to text, a missing
 * key and empty text both being unset; date parsing (`getdate`) is a
 * parameter.
 */
module Quotations {
  import opened Common

  type Fields = map<string, string>

  /** `data.get(key)`, with unset as empty text. */
  function Get(m: Fields, key: string): string
  {
    if key in m then m[key] else []
  }

  /** `parse_date`: unset is no date; otherwise whatever the date parser
      makes of it. A parsed date counts only when it is not empty. */
  function ParseDate(value: string, parse: string -> Option<string>): (r: string)
    ensures value == [] ==> r == []
  {
    if value == [] then []
    else match parse(value)
      case Some(d) => d
      case None => []
  }

  /** A quotation: its own fields and its items' fields. */
  datatype Doc = Doc(fields: Fields, items: seq<Fields>)

  /** Fill `delivery_date` from `source` when it is unset and the source
      parses. */
  function FillDate(m: Fields, source: string, parse: string -> Option<string>): (r: Fields)
    ensures Get(m, "delivery_date") != [] ==> r == m
    ensures Get(m, "delivery_date") == [] ==>
              r == (if ParseDate(source, parse) != [] then m["delivery_date" := ParseDate(source, parse)] else m)
  {
    if Get(m, "delivery_date") == [] && ParseDate(source, parse) != [] then m["delivery_date" := ParseDate(source, parse)]
    else m
  }

  /** The source an item's date is taken from: its own POS delivery date,
      else the document's delivery date. */
  function ItemSource(item: Fields, docFields: Fields): string
  {
    if Get(item, "posa_delivery_date") != [] then Get(item, "posa_delivery_date") else Get(docFields, "delivery_date")
  }

  /**
   * `_map_delivery_dates`: the document's delivery date is filled from
   * its POS delivery date, then each item's from the item's POS date or
   * the (now filled) document date; a date already set is never
   * overwritten, and nothing else changes.
   */
  function MapDeliveryDates(d: Doc, parse: string -> Option<string>): (r: Doc)
    ensures r.fields == FillDate(d.fields, Get(d.fields, "posa_delivery_date"), parse)
    ensures |r.items| == |d.items|
    ensures forall i :: 0 <= i < |d.items| ==> r.items[i] == FillDate(d.items[i], ItemSource(d.items[i], r.fields), parse)
    ensures Get(d.fields, "delivery_date") != [] ==> r.fields == d.fields
    ensures forall i :: 0 <= i < |d.items| && Get(d.items[i], "delivery_date") != [] ==> r.items[i] == d.items[i]
  {
    var fields := FillDate(d.fields, Get(d.fields, "posa_delivery_date"), parse);
    Doc(fields, seq(|d.items|, i requires 0 <= i < |d.items| => FillDate(d.items[i], ItemSource(d.items[i], fields), parse)))
  }

  lemma FillDateSettles(m: Fields, source: string, source2: string, parse: string -> Option<string>)
    ensures var once := FillDate(m, source, parse);
            Get(once, "delivery_date") != [] ==> FillDate(once, source2, parse) == once
  {
  }

  /** Once the dates are mapped, a second mapping changes only dates that
      are still unset, and every set date keeps its value. */
  lemma MapDeliveryDatesKeepsSetDates(d: Doc, parse: string -> Option<string>)
    ensures var once := MapDeliveryDates(d, parse);
            var twice := MapDeliveryDates(once, parse);
            (Get(once.fields, "delivery_date") != [] ==> twice.fields == once.fields)
            && forall i :: 0 <= i < |once.items| && Get(once.items[i], "delivery_date") != [] ==> twice.items[i] == once.items[i]
  {
  }

  /** An item with neither date of its own takes the document's parsed
      POS delivery date when the document had no delivery date. */
  lemma ItemInheritsDocumentDate(d: Doc, parse: string -> Option<string>, i: nat)
    requires i < |d.items|
    requires Get(d.items[i], "delivery_date") == [] && Get(d.items[i], "posa_delivery_date") == []
    requires Get(d.fields, "delivery_date") == [] && ParseDate(Get(d.fields, "posa_delivery_date"), parse) != []
    requires ParseDate(ParseDate(Get(d.fields, "posa_delivery_date"), parse), parse) != []
    ensures Get(MapDeliveryDates(d, parse).items[i], "delivery_date")
            == ParseDate(ParseDate(Get(d.fields, "posa_delivery_date"), parse), parse)
  {
  }

  // ---------------------------------------------------------------------
  // _ensure_customer_fields (quotations.py:32-44)

  /** The request body: a dictionary or something else. */
  datatype Data = NotADict | Dict(fields: Fields)

  /** `dict.setdefault`: set only when the key is absent. */
  function SetDefault(m: Fields, key: string, value: string): (r: Fields)
    ensures key in m ==> r == m
    ensures key !in m ==> r == m[key := value]
  {
    if key in m then m else m[key := value]
  }

  /** The fields `_ensure_customer_fields` may write. */
  const CustomerKeys: set<string> := {"customer", "party_name", "customer_name", "quotation_to"}

  /**
   * `_ensure_customer_fields`: anything but a quotation dictionary is
   * left alone; otherwise the customer (else the party) is written to
   * both fields, the customer name defaults to it, and the quotation is
   * addressed to a customer unless it says otherwise.
   */
  function EnsureCustomerFields(data: Data): (r: Data)
    ensures data.NotADict? || Get(data.fields, "doctype") != "Quotation" ==> r == data
    ensures data.Dict? && Get(data.fields, "doctype") == "Quotation" ==>
              var customer := if Get(data.fields, "customer") != [] then Get(data.fields, "customer") else Get(data.fields, "party_name");
              r.Dict? && r.fields.Keys >= data.fields.Keys
              && (customer != [] ==> Get(r.fields, "customer") == customer && Get(r.fields, "party_name") == customer)
              && (customer == [] ==> Get(r.fields, "customer") == Get(data.fields, "customer")
                                     && Get(r.fields, "party_name") == Get(data.fields, "party_name"))
              && ("customer_name" in data.fields ==> r.fields["customer_name"] == data.fields["customer_name"])
              && ("customer_name" !in data.fields && customer != [] ==> Get(r.fields, "customer_name") == customer)
              && ("quotation_to" in data.fields ==> r.fields["quotation_to"] == data.fields["quotation_to"])
              && ("quotation_to" !in data.fields ==> Get(r.fields, "quotation_to") == "Customer")
    ensures data.Dict? ==> r.Dict?
    ensures data.Dict? ==> forall k :: k in data.fields && k !in CustomerKeys ==> k in r.fields && r.fields[k] == data.fields[k]
    ensures data.Dict? ==> forall k :: k in r.fields ==> k in data.fields || k in CustomerKeys
  {
    if data.NotADict? || Get(data.fields, "doctype") != "Quotation" then data
    else
      var m := data.fields;
      var customer := if Get(m, "customer") != [] then Get(m, "customer") else Get(m, "party_name");
      var withCustomer := if customer != [] then SetDefault(m["customer" := customer]["party_name" := customer], "customer_name", customer) else m;
      Dict(SetDefault(withCustomer, "quotation_to", "Customer"))
  }

  /** Ensuring the customer fields a second time changes nothing. */
  lemma EnsureCustomerFieldsIdempotent(data: Data)
    ensures EnsureCustomerFields(EnsureCustomerFields(data)) == EnsureCustomerFields(data)
  {
    var once := EnsureCustomerFields(data);
    if data.Dict? && Get(data.fields, "doctype") == "Quotation" {
      assert Get(once.fields, "doctype") == "Quotation";
    }
  }
}
