/**
 * Offline invoice printing, frontend/src/offline_print_template.js: the
 * paid amount printed on the receipt, the rewriting of Python-style
 * triple-quoted strings in a cached print template, the formatter every
 * printed object receives, and the choice between the cached template
 * and the built-in one. The template engine and the built-in HTML are
 * parameters; their output text is not modelled.
 */
module PrintTemplate {
  import opened Common
  import opened Numerals

  // ---------------------------------------------------------------------
  // computePaidAmount (offline_print_template.js:24-44)

  /** `is_credit_sale` is true, 1, "1", or text that lower-cases to "yes". */
  predicate IsCreditSale(v: JsValue)
  {
    v == JsBool(true) || v == JsNumber(1.0) || v == JsText("1") || (v.JsText? && Lower(v.s) == "yes")
  }

  /** The magnitudes of the payment amounts; an amount that does not
      parse as a number counts as 0. */
  function PaymentsTotal(amounts: seq<Option<real>>): (r: real)
    ensures r >= 0.0
  {
    if amounts == [] then 0.0
    else PaymentsTotal(amounts[..|amounts| - 1]) + RAbs(amounts[|amounts| - 1].GetOr(0.0))
  }

  /** A receipt's payment data. */
  datatype PaidDoc = PaidDoc(payments: seq<Option<real>>, isCreditSale: JsValue)

  /**
   * `computePaidAmount`: 0 without a document, for a credit sale or when
   * the payments sum to 0; otherwise the sum of the payments' magnitudes.
   * The document's own paid amount and grand total are never used,
   * because the payments' sum is not 0 when they are consulted.
   */
  function ComputePaidAmount(doc: Option<PaidDoc>): (r: real)
    ensures r >= 0.0
    ensures doc.None? ==> r == 0.0
    ensures doc.Some? && IsCreditSale(doc.value.isCreditSale) ==> r == 0.0
    ensures doc.Some? && !IsCreditSale(doc.value.isCreditSale) ==> r == PaymentsTotal(doc.value.payments)
  {
    if doc.None? then 0.0
    else
      var total := PaymentsTotal(doc.value.payments);
      if IsCreditSale(doc.value.isCreditSale) || total == 0.0 then 0.0 else total
  }

  /** The paid amount is 0 exactly for a credit sale or when every
      payment is 0 (or not a number). */
  lemma {:induction false} PaymentsTotalZeroIff(amounts: seq<Option<real>>)
    ensures PaymentsTotal(amounts) == 0.0 <==> forall k :: 0 <= k < |amounts| ==> amounts[k].GetOr(0.0) == 0.0
  {
    if amounts != [] {
      PaymentsTotalZeroIff(amounts[..|amounts| - 1]);
      var last := amounts[|amounts| - 1];
      assert forall k :: 0 <= k < |amounts| - 1 ==> amounts[..|amounts| - 1][k] == amounts[k];
    }
  }

  /** Refunds and payments count alike: negating every payment does not
      change the paid amount. */
  lemma {:induction false} PaidAmountIgnoresSigns(amounts: seq<Option<real>>, negated: seq<Option<real>>)
    requires |negated| == |amounts|
    requires forall k :: 0 <= k < |amounts| ==> negated[k] == (if amounts[k].Some? then Some(-amounts[k].value) else None)
    ensures PaymentsTotal(negated) == PaymentsTotal(amounts)
  {
    if amounts != [] {
      PaidAmountIgnoresSigns(amounts[..|amounts| - 1], negated[..|negated| - 1]);
    }
  }

  // ---------------------------------------------------------------------
  // normaliseTemplate (offline_print_template.js:6-14)

  const Quote := '"'
  const Backslash := '\\'

  predicate TripleAt(s: string, i: nat)
  {
    i + 3 <= |s| && s[i] == Quote && s[i + 1] == Quote && s[i + 2] == Quote
  }

  /** The first `"""` at or after `from`. */
  function FindTriple(s: string, from: nat): (r: Option<nat>)
    ensures r.Some? ==> from <= r.value && TripleAt(s, r.value) && forall i :: from <= i < r.value ==> !TripleAt(s, i)
    ensures r.None? ==> forall i :: from <= i ==> !TripleAt(s, i)
    decreases |s| - from
  {
    if from + 3 > |s| then None
    else if TripleAt(s, from) then Some(from)
    else FindTriple(s, from + 1)
  }

  /** The body of a double-quoted string for `str`: backslashes and
      quotes escaped, each line break (CR LF or LF) written as `\n`. */
  function Escape(str: string): (r: string)
    ensures '\n' !in r
  {
    if str == [] then []
    else if str[0] == Backslash then [Backslash, Backslash] + Escape(str[1..])
    else if str[0] == Quote then [Backslash, Quote] + Escape(str[1..])
    else if str[0] == '\n' then [Backslash, 'n'] + Escape(str[1..])
    else if str[0] == '\r' && |str| > 1 && str[1] == '\n' then [Backslash, 'n'] + Escape(str[2..])
    else [str[0]] + Escape(str[1..])
  }

  /** What a double-quoted string body denotes. */
  function Unescape(body: string): string
  {
    if body == [] then []
    else if body[0] == Backslash && |body| > 1 then
      (if body[1] == 'n' then "\n" else [body[1]]) + Unescape(body[2..])
    else [body[0]] + Unescape(body[1..])
  }

  /** Line breaks written as LF alone. */
  function PlainNewlines(str: string): string
  {
    if str == [] then []
    else if str[0] == '\r' && |str| > 1 && str[1] == '\n' then "\n" + PlainNewlines(str[2..])
    else [str[0]] + PlainNewlines(str[1..])
  }

  /** The rewritten string denotes the original text, with CR LF line
      breaks read as LF. */
  lemma {:induction false} UnescapeEscape(str: string)
    ensures Unescape(Escape(str)) == PlainNewlines(str)
  {
    if str != [] {
      if str[0] == '\r' && |str| > 1 && str[1] == '\n' {
        UnescapeEscape(str[2..]);
        var e := [Backslash, 'n'] + Escape(str[2..]);
        assert e[2..] == Escape(str[2..]);
      } else if str[0] == Backslash || str[0] == Quote || str[0] == '\n' {
        UnescapeEscape(str[1..]);
        var e := Escape(str);
        assert e[2..] == Escape(str[1..]);
      } else {
        UnescapeEscape(str[1..]);
        var e := Escape(str);
        assert e[1..] == Escape(str[1..]);
      }
    }
  }

  /** Every quote in the rewritten body is escaped, so the body cannot
      end the string early. */
  predicate QuotesEscaped(body: string)
  {
    forall i :: 0 <= i < |body| && body[i] == Quote ==> i > 0 && body[i - 1] == Backslash
  }

  lemma QuotesEscapedConcat(head: string, rest: string)
    requires QuotesEscaped(head) && QuotesEscaped(rest)
    ensures QuotesEscaped(head + rest)
  {
    var e := head + rest;
    forall i | 0 <= i < |e| && e[i] == Quote ensures i > 0 && e[i - 1] == Backslash {
      if i >= |head| {
        assert rest[i - |head|] == Quote;
      }
    }
  }

  lemma {:induction false} EscapeQuotesEscaped(str: string)
    ensures QuotesEscaped(Escape(str))
  {
    if str != [] {
      if str[0] == Backslash || str[0] == Quote || str[0] == '\n' {
        EscapeQuotesEscaped(str[1..]);
        var head := Escape(str)[..2];
        assert Escape(str) == head + Escape(str[1..]);
        QuotesEscapedConcat(head, Escape(str[1..]));
      } else if str[0] == '\r' && |str| > 1 && str[1] == '\n' {
        EscapeQuotesEscaped(str[2..]);
        QuotesEscapedConcat([Backslash, 'n'], Escape(str[2..]));
      } else {
        EscapeQuotesEscaped(str[1..]);
        QuotesEscapedConcat([str[0]], Escape(str[1..]));
      }
    }
  }

  /**
   * `normaliseTemplate`: each `"""…"""` block, taking the nearest closing
   * triple quote, becomes a double-quoted string of its escaped content;
   * the text outside the blocks is kept, and so is a triple quote that
   * is never closed.
   */
  function NormaliseTemplate(s: string): (r: string)
    ensures FindTriple(s, 0).None? ==> r == s
    ensures FindTriple(s, 0).Some? && FindTriple(s, FindTriple(s, 0).value + 3).None? ==> r == s
    ensures s != [] ==> r != []
    decreases |s|
  {
    match FindTriple(s, 0)
    case None => s
    case Some(i) =>
      match FindTriple(s, i + 3)
      case None => s
      case Some(j) => s[..i] + [Quote] + Escape(s[i + 3..j]) + [Quote] + NormaliseTemplate(s[j + 3..])
  }

  /** A template without triple quotes, the empty one included, is not
      touched. */
  lemma NormaliseTemplateKeepsPlain(s: string)
    requires forall i :: 0 <= i < |s| ==> !TripleAt(s, i)
    ensures NormaliseTemplate(s) == s
  {
  }

  /** The search finds the first triple quote after a stretch without one. */
  lemma {:induction false} FindTripleAfterGap(s: string, from: nat, at: nat)
    requires from <= at && TripleAt(s, at)
    requires forall i :: from <= i < at ==> !TripleAt(s, i)
    ensures FindTriple(s, from) == Some(at)
    decreases at - from
  {
    if from < at {
      FindTripleAfterGap(s, from + 1, at);
    }
  }

  const TripleQuote: string := [Quote, Quote, Quote]

  /** A template that is one block whose text holds no quote becomes one
      string literal, and that literal denotes the block's text. */
  lemma NormaliseSingleBlock(body: string)
    requires Quote !in body
    ensures var r := NormaliseTemplate(TripleQuote + body + TripleQuote);
            r == [Quote] + Escape(body) + [Quote]
            && Unescape(r[1..|r| - 1]) == PlainNewlines(body)
  {
    var s := TripleQuote + body + TripleQuote;
    SingleBlockFound(body);
    assert s[3..3 + |body|] == body;
    NormaliseOneBlock(s, 3 + |body|);
    var r := NormaliseTemplate(s);
    assert r[1..|r| - 1] == Escape(body);
    UnescapeEscape(body);
  }

  /** In a quote-free block between two triple quotes, the opening one is
      found first and the closing one next. */
  lemma SingleBlockFound(body: string)
    requires Quote !in body
    ensures var s := TripleQuote + body + TripleQuote;
            FindTriple(s, 0) == Some(0) && FindTriple(s, 3) == Some(3 + |body|)
  {
    var s := TripleQuote + body + TripleQuote;
    var close := 3 + |body|;
    assert TripleAt(s, 0);
    forall i | 3 <= i < close ensures !TripleAt(s, i) {
      assert s[i] == body[i - 3];
    }
    assert s[close] == Quote && s[close + 1] == Quote && s[close + 2] == Quote;
    FindTripleAfterGap(s, 3, close);
  }

  /** A template whose only block spans all of it becomes one literal. */
  lemma NormaliseOneBlock(s: string, close: nat)
    requires close + 3 == |s| && 3 <= close
    requires FindTriple(s, 0) == Some(0) && FindTriple(s, 3) == Some(close)
    ensures NormaliseTemplate(s) == [Quote] + Escape(s[3..close]) + [Quote]
  {
    assert s[..0] == [] && s[close + 3..] == [];
  }

  /** No triple quote starts at a position in [from, to). */
  predicate NoTripleIn(s: string, from: nat, to: nat)
  {
    forall i :: from <= i < to ==> !TripleAt(s, i)
  }

  /** Text, then a `"""…"""` block around `body`, then the rest. */
  function Framed(pre: string, body: string, post: string): string
  {
    pre + TripleQuote + body + TripleQuote + post
  }

  /**
   * The first block of a template becomes a string literal of its escaped
   * body, the text before it is kept, and the rest of the template is
   * normalised on its own. The block is the first one when no triple quote
   * starts in the text before it, and its closing triple quote is the
   * nearest when none starts inside its body.
   */
  lemma NormaliseLeadingBlock(pre: string, body: string, post: string)
    requires NoTripleIn(Framed(pre, body, post), 0, |pre|)
    requires NoTripleIn(Framed(pre, body, post), |pre| + 3, |pre| + 3 + |body|)
    ensures NormaliseTemplate(Framed(pre, body, post)) == pre + [Quote] + Escape(body) + [Quote] + NormaliseTemplate(post)
  {
    var s := Framed(pre, body, post);
    var open := |pre|;
    var close := |pre| + 3 + |body|;
    assert s[open] == Quote && s[open + 1] == Quote && s[open + 2] == Quote;
    FindTripleAfterGap(s, 0, open);
    assert s[close] == Quote && s[close + 1] == Quote && s[close + 2] == Quote;
    FindTripleAfterGap(s, open + 3, close);
    assert s[..open] == pre;
    assert s[open + 3..close] == body;
    assert s[close + 3..] == post;
  }

  /** A block of a template: the text before it and its body. */
  datatype Block = Block(pre: string, body: string)

  /** The template made of the blocks in order, then the tail. */
  function Source(blocks: seq<Block>, tail: string): string
  {
    if blocks == [] then tail
    else Framed(blocks[0].pre, blocks[0].body, Source(blocks[1..], tail))
  }

  /** The same template with every block written as a string literal. */
  function Rewritten(blocks: seq<Block>, tail: string): string
  {
    if blocks == [] then tail
    else blocks[0].pre + [Quote] + Escape(blocks[0].body) + [Quote] + Rewritten(blocks[1..], tail)
  }

  /** Each block is delimited where the search finds it: no triple quote
      starts before its opening one or inside its body, and none starts in
      the tail. */
  predicate Delimited(blocks: seq<Block>, tail: string)
  {
    if blocks == [] then NoTripleIn(tail, 0, |tail|)
    else
      var b := blocks[0];
      var s := Framed(b.pre, b.body, Source(blocks[1..], tail));
      NoTripleIn(s, 0, |b.pre|) && NoTripleIn(s, |b.pre| + 3, |b.pre| + 3 + |b.body|) && Delimited(blocks[1..], tail)
  }

  /** Every block of a template is rewritten, in order, and the text
      between and after the blocks is kept. */
  lemma {:induction false} NormaliseEveryBlock(blocks: seq<Block>, tail: string)
    requires Delimited(blocks, tail)
    ensures NormaliseTemplate(Source(blocks, tail)) == Rewritten(blocks, tail)
  {
    if blocks == [] {
      NormaliseTemplateKeepsPlain(tail);
    } else {
      var b := blocks[0];
      NormaliseLeadingBlock(b.pre, b.body, Source(blocks[1..], tail));
      NormaliseEveryBlock(blocks[1..], tail);
    }
  }

  // ---------------------------------------------------------------------
  // attachFormatter (offline_print_template.js:16-22)

  /** A printed value: something other than an object, or an object that
      may already carry `get_formatted`. */
  datatype Printed = NotAnObject | Obj(hasFormatter: bool, ownFormatter: bool)

  /** `attachFormatter`: an object without a formatter receives the
      field-reading one; an object with a formatter keeps its own. */
  function AttachFormatter(v: Printed): (r: Printed)
    ensures v.NotAnObject? ==> r == v
    ensures v.Obj? && v.hasFormatter ==> r == v
    ensures v.Obj? ==> r.Obj? && r.hasFormatter && (v.hasFormatter ==> r.ownFormatter == v.ownFormatter)
  {
    if v.Obj? && !v.hasFormatter then Obj(true, false) else v
  }

  lemma AttachFormatterIdempotent(v: Printed)
    ensures AttachFormatter(AttachFormatter(v)) == AttachFormatter(v)
  {
  }

  // ---------------------------------------------------------------------
  // renderOfflineInvoiceHTML (offline_print_template.js:163-212)

  datatype Invoice = Invoice(terms: string, termsAndConditions: string, paid: PaidDoc)

  /** The document the template sees: terms defaulting to the cached
      terms and the computed paid amount. */
  datatype PrintDoc = PrintDoc(terms: string, termsAndConditions: string, paidAmount: real)

  datatype Rendering = NoInvoice | BuiltIn(doc: PrintDoc) | FromTemplate(template: string, doc: PrintDoc, html: string)

  function PrintDocOf(inv: Invoice, cachedTerms: string): (r: PrintDoc)
    ensures r.terms == (if inv.terms != [] then inv.terms else cachedTerms)
    ensures r.termsAndConditions == (if inv.termsAndConditions != [] then inv.termsAndConditions else cachedTerms)
    ensures r.paidAmount == ComputePaidAmount(Some(inv.paid))
  {
    PrintDoc(if inv.terms != [] then inv.terms else cachedTerms,
             if inv.termsAndConditions != [] then inv.termsAndConditions else cachedTerms,
             ComputePaidAmount(Some(inv.paid)))
  }

  /**
   * `renderOfflineInvoiceHTML`: nothing without an invoice; the built-in
   * receipt when no template is cached or the engine fails on it;
   * otherwise the engine's output for the normalised template.
   */
  function RenderOfflineInvoice(invoice: Option<Invoice>, cachedTemplate: string, cachedTerms: string,
                                engine: (string, PrintDoc) -> Option<string>): (r: Rendering)
    ensures invoice.None? ==> r == NoInvoice
    ensures invoice.Some? && cachedTemplate == [] ==> r == BuiltIn(PrintDocOf(invoice.value, cachedTerms))
    ensures r.FromTemplate? ==> cachedTemplate != [] && r.template == NormaliseTemplate(cachedTemplate)
                                && engine(r.template, r.doc) == Some(r.html)
    ensures r.BuiltIn? || r.FromTemplate? ==> invoice.Some? && r.doc == PrintDocOf(invoice.value, cachedTerms)
  {
    if invoice.None? then NoInvoice
    else
      var doc := PrintDocOf(invoice.value, cachedTerms);
      var template := NormaliseTemplate(cachedTemplate);
      if template == [] then BuiltIn(doc)
      else match engine(template, doc)
        case Some(html) => FromTemplate(template, doc, html)
        case None => BuiltIn(doc)
  }
}
