# dump_mbox: payload flattening and part classification

A Dafny model of the message extractor in `dump_mbox/mbd.py`. That tool reads a
mailbox archive and, for each message, builds a record: five header fields plus one
`(content_type, encoding, text)` triple per leaf part of the message's MIME tree.

- `Mime`: the payload tree, and its depth-first flattening into leaf parts
  (`_get_email_messages`). A `Node` is a nested Python list/tuple (`Group`) or a message
  object (`Part`). A part's body is a string (not multipart) or a list of sub-parts
  (multipart). The datatype is acyclic, so flattening terminates structurally.
- `Substring`: Python's case-sensitive `sub in s` on strings, with a positional
  reference definition.
- `Classify`: `_read_email_text`, the decision table over the content type and the
  transfer encoding. `get_html_text` is the `HtmlText` parameter, a function from markup to
  `Option<string>`; `None` means the markup has no `<body>`.
- `Extractor`: the message record, `read_email_payload`, and the class
  `GmailMboxMessage` with `parse_email`.

A non-multipart message's `get_payload()` is a plain string, so `_read_email_text`
treats it as a bare string: the triple is `("NA", "NA", get_html_text(payload))`, never
`("text/plain", …)`. `Extractor.ReadEmailPayload` states this.

## Model

| member | source | states |
|---|---|---|
| `Substring.ContainsIffOccurs` | dump_mbox/mbd.py:53-55 | the scanning `Contains` holds exactly when the pattern is the slice of the string at some position (Python's `in` on strings), both directions |
| `Mime.Flatten` | dump_mbox/mbd.py:39-48 | every node that flattening produces is a leaf: never a list/tuple and never a part reporting multipart |
| `Mime.FlattenOne` | dump_mbox/mbd.py:41-48 | a nested list is replaced by its flattening, a multipart part by the flattening of its payload, and a leaf is emitted unchanged |
| `Mime.FlattenAppend` | dump_mbox/mbd.py:40-48 | flattening two payloads one after the other gives the two flattenings concatenated in order |
| `Mime.FlattenIsConcat` | dump_mbox/mbd.py:40-48 | flattening a payload is the in-order concatenation of flattening each of its elements |
| `Mime.FlattenLeavesIsIdentity` | dump_mbox/mbd.py:47-48 | a payload made only of leaves flattens to itself |
| `Mime.FlattenIdempotent` | dump_mbox/mbd.py:39-48 | flattening an already flattened payload changes nothing |
| `Mime.FlattenLength` | dump_mbox/mbd.py:39-48 | flattening yields exactly as many nodes as the payload has leaf parts (counted one per leaf, repeats included, through nested lists and multipart payloads) |
| `Mime.FlattenMembership` | dump_mbox/mbd.py:39-48 | a node is in the flattening if and only if it is a leaf reachable inside the payload at some depth |
| `Classify.ReadEmailText` | dump_mbox/mbd.py:50-61 | a bare string gets `("NA", "NA", html_text(s))`. A part gets its own content type, and its transfer encoding or "NA" when the header is absent. Its text is the raw payload for non-base64 `text/plain`, else the reduced markup for non-base64 `text/html`, else none |
| `Classify.MissingEncodingIsNA` | dump_mbox/mbd.py:52 | a part without a `Content-Transfer-Encoding` header reports encoding "NA" |
| `Classify.Base64HasNoText` | dump_mbox/mbd.py:53-60 | when the reported encoding contains "base64", the text is absent, whatever the content type |
| `Classify.PlainBeforeHtml` | dump_mbox/mbd.py:53-56 | a content type naming both `text/plain` and `text/html` takes the plain rule: the raw payload verbatim |
| `Classify.TextOnlyFromTextTypes` | dump_mbox/mbd.py:53-60 | text is present only for a bare string, or for a plain/HTML part whose encoding is not base64; a present text of a plain part is its raw payload verbatim |
| `Classify.OtherTypesHaveNoText` | dump_mbox/mbd.py:59-60 | a part whose content type is neither plain text nor HTML has no text |
| `Extractor.Header` | dump_mbox/mbd.py:23-27 | a header lookup gives the header's value, or none exactly when the header is missing |
| `Extractor.EmailMessages` | dump_mbox/mbd.py:32-36 | every item handed to the classifier is a bare string or a leaf part |
| `Extractor.ReadEmailPayload` | dump_mbox/mbd.py:31-37 | a non-multipart message yields exactly one triple, the bare-string one. A multipart message yields one triple per flattened leaf, in the same order, each the leaf's classification |
| `Extractor.PayloadLengthIsLeafCount` | dump_mbox/mbd.py:33-37 | a multipart message yields exactly one triple per leaf part of its tree |
| `Extractor.PayloadCoversLeaves` | dump_mbox/mbd.py:33-37 | the flattened leaves are exactly the reachable leaves, and each reachable leaf's triple is in the result |
| `Extractor.GroupingIsTransparent` | dump_mbox/mbd.py:41-43 | wrapping a multipart payload in one more list does not change the triples |
| `Extractor.TwoLeafMessage` | dump_mbox/mbd.py:31-61 | a two-leaf multipart message (plain "A", then HTML) yields `[("text/plain","NA","A"), ("text/html","NA",html_text(markup))]`. When the reducer finds no body, the second text is absent and no error is raised |
| `Extractor.GmailMboxMessage.constructor` | dump_mbox/mbd.py:16-19 | the extractor keeps the message record it is given |
| `Extractor.GmailMboxMessage.ParseEmail` | dump_mbox/mbd.py:21-29 | `labels`, `date`, `from`, `to` and `subject` are the `X-Gmail-Labels`, `Date`, `From`, `To` and `Subject` lookups, and `text` is the payload's triples |
| `Extractor.GmailMboxMessage.ParseEmailTwice` | dump_mbox/mbd.py:21-29 | parsing the same record twice gives equal results, because nothing is mutated |

## Left out

- `get_html_text` (mbd.py:8-12) is not modelled. BeautifulSoup/lxml parsing is a foreign library, so it is the `HtmlText` parameter. Its `AttributeError` on a missing `<body>` is the `None` result.
- Opening and iterating the mailbox (mbd.py:82-84) is file I/O in a foreign library. A message record is an input value.
- Header lookup is a `map` from names to values. The library's case-insensitive names and repeated headers are not modelled.
- `get_content_type()` is the library's own computation (lower-casing, the `text/plain` default). A part's content type is the value it reports, typed to always contain `/`. So only a bare string reaches the exact `== 'NA'` rule (mbd.py:57-58).
- The `isinstance` check in the constructor (mbd.py:17-18) is the parameter's static type.
- A bare string inside a multipart payload would fail at `is_multipart()` (mbd.py:44). The node datatype has no such case.
- The command line (mbd.py:64-78), printing, and the report string of `main` (mbd.py:87-90) are thin I/O wrappers and are left out.
- The generator's laziness (mbd.py:39-48) is not modelled. Flattening is a finite sequence, which `list(...)` at mbd.py:34 forces anyway.
