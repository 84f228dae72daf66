/**
 * The message extractor (`GmailMboxMessage`): header fields plus the
 * classified leaves of one mailbox message.
 */
module Extractor {

  import opened Wrappers
  import opened Mime
  import opened Classify
  import opened Substring

  /**
   * One message record of the mailbox: its headers by name and its payload,
   * a string for a plain message and a list of parts for a multipart one.
   */
  datatype Message = Message(headers: map<string, string>, body: Body)

  /** `message[name]`: the header's value, or `None` when it is missing. */
  function Header(m: Message, name: string): (r: Option<string>)
    ensures r.Some? <==> name in m.headers
    ensures r.Some? ==> r.value == m.headers[name]
  {
    if name in m.headers then Some(m.headers[name]) else None
  }

  /** The extracted record of one message. */
  datatype Email = Email(
    labels: Option<string>,
    date: Option<string>,
    from: Option<string>,
    to: Option<string>,
    subject: Option<string>,
    text: seq<PartText>)

  /** The items to classify: the payload itself, or the flattened leaves of a multipart one. */
  function EmailMessages(m: Message): (r: seq<Item>)
    ensures forall k :: 0 <= k < |r| ==> Classifiable(r[k])
  {
    match m.body
    case Text(raw) => [Bare(raw)]
    case Multi(parts) =>
      var leaves := Flatten(parts);
      seq(|leaves|, k requires 0 <= k < |leaves| => Obj(leaves[k]))
  }

  /**
   * One triple per leaf: a plain message yields the single triple of its
   * payload read as a bare string, a multipart one the triples of its
   * flattened leaves, in the same order.
   */
  function ReadEmailPayload(m: Message, htmlText: HtmlText): (r: seq<PartText>)
    ensures m.body.Text? ==> r == [PartText(NA, NA, htmlText(m.body.raw))]
    ensures m.body.Multi? ==>
      var leaves := Flatten(m.body.parts);
      |r| == |leaves| &&
      forall k :: 0 <= k < |r| ==> r[k] == ReadEmailText(Obj(leaves[k]), htmlText)
  {
    var items := EmailMessages(m);
    seq(|items|, k requires 0 <= k < |items| => ReadEmailText(items[k], htmlText))
  }

  /** A multipart message yields exactly one triple per leaf part of its tree. */
  lemma PayloadLengthIsLeafCount(m: Message, htmlText: HtmlText)
    requires m.body.Multi?
    ensures |ReadEmailPayload(m, htmlText)| == LeafCount(m.body.parts)
  {
    FlattenLength(m.body.parts);
  }

  /** Every leaf reachable in a multipart payload has its triple, and nothing else does. */
  lemma PayloadCoversLeaves(m: Message, htmlText: HtmlText, n: Node)
    requires m.body.Multi?
    ensures (IsLeaf(n) && Occurs(n, m.body.parts)) <==>
      exists k :: 0 <= k < |Flatten(m.body.parts)| && Flatten(m.body.parts)[k] == n
    ensures IsLeaf(n) && Occurs(n, m.body.parts) ==>
      ReadEmailText(Obj(n), htmlText) in ReadEmailPayload(m, htmlText)
  {
    FlattenMembership(n, m.body.parts);
    var leaves := Flatten(m.body.parts);
    if n in leaves {
      var k :| 0 <= k < |leaves| && leaves[k] == n;
      assert ReadEmailPayload(m, htmlText)[k] == ReadEmailText(Obj(n), htmlText);
    }
  }

  /** Nesting a multipart payload in a list does not change what is read from it. */
  lemma GroupingIsTransparent(headers: map<string, string>, parts: seq<Node>, htmlText: HtmlText)
    ensures ReadEmailPayload(Message(headers, Multi([Group(parts)])), htmlText) ==
            ReadEmailPayload(Message(headers, Multi(parts)), htmlText)
  {
    FlattenOne(Group(parts));
  }

  /**
   * A multipart message with a plain "A" leaf and an HTML leaf: the plain
   * text is verbatim, the HTML leaf carries whatever the reducer gives,
   * and the triples keep the leaves' order.
   */
  lemma TwoLeafMessage(headers: map<string, string>, markup: string, htmlText: HtmlText)
    ensures
      var plain := Part("text/plain", None, Text("A"));
      var html := Part("text/html", None, Text(markup));
      ReadEmailPayload(Message(headers, Multi([plain, html])), htmlText) ==
        [PartText("text/plain", NA, Some("A")), PartText("text/html", NA, htmlText(markup))]
  {
    var plain := Part("text/plain", None, Text("A"));
    var html := Part("text/html", None, Text(markup));
    FlattenLeavesIsIdentity([plain, html]);
    assert Contains("text/plain", "text/plain");
    assert !Contains("text/html", "text/plain");
    assert Contains("text/html", "text/html");
    assert !Contains(NA, "base64");
  }

  /** A record over one message record, as the mailbox iteration hands it out. */
  class GmailMboxMessage {
    const emailData: Message

    constructor (emailData: Message)
      ensures this.emailData == emailData
    {
      this.emailData := emailData;
    }

    /** Fills the record field by field: five header lookups, then the payload. */
    method ParseEmail(htmlText: HtmlText) returns (email: Email)
      ensures email.labels == Header(emailData, "X-Gmail-Labels")
      ensures email.date == Header(emailData, "Date")
      ensures email.from == Header(emailData, "From")
      ensures email.to == Header(emailData, "To")
      ensures email.subject == Header(emailData, "Subject")
      ensures email.text == ReadEmailPayload(emailData, htmlText)
    {
      email := Email(None, None, None, None, None, []);
      email := email.(labels := Header(emailData, "X-Gmail-Labels"));
      email := email.(date := Header(emailData, "Date"));
      email := email.(from := Header(emailData, "From"));
      email := email.(to := Header(emailData, "To"));
      email := email.(subject := Header(emailData, "Subject"));
      email := email.(text := ReadEmailPayload(emailData, htmlText));
    }

    /** Reading does not change the message record, so two parses agree. */
    method ParseEmailTwice(htmlText: HtmlText) returns (first: Email, second: Email)
      ensures first == second
      ensures first.text == ReadEmailPayload(emailData, htmlText)
    {
      first := ParseEmail(htmlText);
      second := ParseEmail(htmlText);
    }
  }
}
