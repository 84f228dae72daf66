/**
 * Classification of one leaf part into `(content_type, encoding, text)`
 * (`GmailMboxMessage._read_email_text` and `get_html_text`).
 */
module Classify {

  import opened Wrappers
  import opened Substring
  import opened Mime

  /**
   * The HTML-to-text reducer: the visible text of the markup's `<body>`,
   * joined by single spaces, or `None` when the markup has no body. It is a
   * foreign library, so the model takes it as a parameter.
   */
  type HtmlText = string -> Option<string>

  /** What the classifier is handed: a bare string, or a message object. */
  datatype Item = Bare(s: string) | Obj(n: Node)

  /** The classifier is only ever handed bare strings and leaf parts. */
  predicate Classifiable(item: Item) {
    item.Bare? || IsLeaf(item.n)
  }

  /** The classification triple of one leaf. */
  datatype PartText = PartText(contentType: string, encoding: string, text: Option<string>)

  const NA: string := "NA"

  /** The string `get_payload()` gives for a leaf; a bare string is its own payload. */
  function RawPayload(item: Item): (r: string)
    requires Classifiable(item)
  {
    match item
    case Bare(s) => s
    case Obj(n) => n.body.raw
  }

  /**
   * The content type and transfer encoding are read first (both "NA" for a
   * bare string; the encoding defaults to "NA" when the header is absent).
   * Then the first rule that applies gives the text: plain text that is not
   * base64 is taken verbatim; HTML that is not base64 is reduced to text;
   * the "NA" content type of a bare string has the string itself reduced to
   * text; anything else has no text.
   */
  function ReadEmailText(item: Item, htmlText: HtmlText): (r: PartText)
    requires Classifiable(item)
    ensures item.Bare? ==> r == PartText(NA, NA, htmlText(item.s))
    ensures item.Obj? ==> r.contentType == item.n.contentType
    ensures item.Obj? ==> r.encoding == item.n.transferEncoding.GetOr(NA)
    ensures item.Obj? ==>
      var plain := Contains(r.contentType, "text/plain");
      var html := Contains(r.contentType, "text/html");
      var base64 := Contains(r.encoding, "base64");
      r.text == (if plain && !base64 then Some(item.n.body.raw)
                 else if html && !base64 then htmlText(item.n.body.raw)
                 else None)
  {
    var contentType := if item.Bare? then NA else item.n.contentType;
    var encoding := if item.Bare? then NA else item.n.transferEncoding.GetOr(NA);
    var text :=
      if Contains(contentType, "text/plain") && !Contains(encoding, "base64") then
        Some(RawPayload(item))
      else if Contains(contentType, "text/html") && !Contains(encoding, "base64") then
        htmlText(RawPayload(item))
      else if contentType == NA then
        htmlText(item.s)
      else
        None;
    PartText(contentType, encoding, text)
  }

  /** A part without a `Content-Transfer-Encoding` header is reported with encoding "NA". */
  lemma MissingEncodingIsNA(contentType: MimeType, raw: string, htmlText: HtmlText)
    ensures ReadEmailText(Obj(Part(contentType, None, Text(raw))), htmlText).encoding == NA
  {
  }

  /** A base64 transfer encoding never yields text, whatever the content type. */
  lemma Base64HasNoText(item: Item, htmlText: HtmlText)
    requires Classifiable(item)
    requires Contains(ReadEmailText(item, htmlText).encoding, "base64")
    ensures ReadEmailText(item, htmlText).text == None
  {
  }

  /** When the content type names both, the plain-text rule wins over the HTML rule. */
  lemma PlainBeforeHtml(contentType: MimeType, enc: Option<string>, raw: string, htmlText: HtmlText)
    requires Contains(contentType, "text/plain") && Contains(contentType, "text/html")
    requires !Contains(enc.GetOr(NA), "base64")
    ensures ReadEmailText(Obj(Part(contentType, enc, Text(raw))), htmlText).text == Some(raw)
  {
  }

  /**
   * Text is present only for a bare string or a plain/HTML part that is
   * not base64, and plain text is then the raw payload verbatim.
   */
  lemma {:induction false} TextOnlyFromTextTypes(item: Item, htmlText: HtmlText)
    requires Classifiable(item)
    requires ReadEmailText(item, htmlText).text.Some?
    ensures item.Bare? ||
      ((Contains(item.n.contentType, "text/plain") || Contains(item.n.contentType, "text/html")) &&
       !Contains(item.n.transferEncoding.GetOr(NA), "base64"))
    ensures item.Obj? && Contains(item.n.contentType, "text/plain") ==>
      ReadEmailText(item, htmlText).text == Some(item.n.body.raw)
  {
  }

  /** A part whose content type is neither plain text nor HTML has no text. */
  lemma OtherTypesHaveNoText(contentType: MimeType, enc: Option<string>, raw: string, htmlText: HtmlText)
    requires !Contains(contentType, "text/plain") && !Contains(contentType, "text/html")
    ensures ReadEmailText(Obj(Part(contentType, enc, Text(raw))), htmlText).text == None
  {
  }
}
