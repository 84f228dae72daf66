/**
 * The payload tree of a mailbox message and its flattening into leaf parts
 * (`GmailMboxMessage._get_email_messages`).
 */
module Mime {

  import opened Wrappers

  /**
   * A MIME type as the mail library's `get_content_type()` reports it:
   * always of the form `maintype/subtype`, so it always holds a '/'.
   */
  type MimeType = s: string | '/' in s witness "text/plain"

  /**
   * One element of a multipart payload: either a Python list or tuple nested
   * in the payload (`Group`), or a message object (`Part`) with its content
   * type, its optional `Content-Transfer-Encoding` header and its body.
   */
  datatype Node =
    | Group(items: seq<Node>)
    | Part(contentType: MimeType, transferEncoding: Option<string>, body: Body)

  /**
   * What `get_payload()` gives for a message object: a string when the
   * object is not multipart, a list of sub-parts when it is.
   */
  datatype Body = Text(raw: string) | Multi(parts: seq<Node>)

  /** The object reports `is_multipart()`. */
  predicate IsMultipart(n: Node)
    requires n.Part?
  {
    n.body.Multi?
  }

  /** A leaf part: a message object that is not multipart. */
  predicate IsLeaf(n: Node) {
    n.Part? && !IsMultipart(n)
  }

  predicate AllLeaves(xs: seq<Node>) {
    forall k :: 0 <= k < |xs| ==> IsLeaf(xs[k])
  }

  /**
   * The leaves of a payload in depth-first order: nested lists and tuples
   * and the payloads of multipart parts are spliced in place, and a leaf is
   * passed through unchanged.
   */
  function Flatten(xs: seq<Node>): (r: seq<Node>)
    ensures AllLeaves(r)
    decreases xs
  {
    if xs == [] then []
    else
      var head :=
        match xs[0]
        case Group(items) => Flatten(items)
        case Part(_, _, Multi(parts)) => Flatten(parts)
        case Part(_, _, Text(_)) => [xs[0]];
      head + Flatten(xs[1..])
  }

  /** Flattening a one-element payload, case by case. */
  lemma FlattenOne(x: Node)
    ensures x.Group? ==> Flatten([x]) == Flatten(x.items)
    ensures x.Part? && IsMultipart(x) ==> Flatten([x]) == Flatten(x.body.parts)
    ensures IsLeaf(x) ==> Flatten([x]) == [x]
  {
  }

  /** Flattening distributes over concatenation of payloads. */
  lemma {:induction false} FlattenAppend(xs: seq<Node>, ys: seq<Node>)
    ensures Flatten(xs + ys) == Flatten(xs) + Flatten(ys)
    decreases xs
  {
    if xs == [] {
      assert xs + ys == ys;
    } else {
      assert (xs + ys)[0] == xs[0];
      assert (xs + ys)[1..] == xs[1..] + ys;
      FlattenAppend(xs[1..], ys);
    }
  }

  /** The concatenation of a sequence of sequences, in order. */
  function Concat<T>(ss: seq<seq<T>>): (r: seq<T>)
    decreases ss
  {
    if ss == [] then [] else ss[0] + Concat(ss[1..])
  }

  /** Flattening a payload is the in-order concatenation of flattening each element. */
  lemma {:induction false} FlattenIsConcat(xs: seq<Node>)
    ensures Flatten(xs) == Concat(seq(|xs|, k requires 0 <= k < |xs| => Flatten([xs[k]])))
    decreases xs
  {
    var each := seq(|xs|, k requires 0 <= k < |xs| => Flatten([xs[k]]));
    if xs != [] {
      FlattenIsConcat(xs[1..]);
      assert each[1..] == seq(|xs[1..]|, k requires 0 <= k < |xs[1..]| => Flatten([xs[1..][k]]));
      assert xs == [xs[0]] + xs[1..];
      FlattenAppend([xs[0]], xs[1..]);
    }
  }

  /** A payload that is already all leaves flattens to itself. */
  lemma {:induction false} FlattenLeavesIsIdentity(xs: seq<Node>)
    requires AllLeaves(xs)
    ensures Flatten(xs) == xs
    decreases xs
  {
    if xs != [] {
      FlattenLeavesIsIdentity(xs[1..]);
    }
  }

  /** Flattening is idempotent. */
  lemma FlattenIdempotent(xs: seq<Node>)
    ensures Flatten(Flatten(xs)) == Flatten(xs)
  {
    FlattenLeavesIsIdentity(Flatten(xs));
  }

  /**
   * Reference count of the leaf parts in a payload: one per leaf, summed
   * through nested lists and multipart payloads.
   */
  function LeafCount(xs: seq<Node>): nat
    decreases xs
  {
    if xs == [] then 0
    else
      var head :=
        match xs[0]
        case Group(items) => LeafCount(items)
        case Part(_, _, Multi(parts)) => LeafCount(parts)
        case Part(_, _, Text(_)) => 1;
      head + LeafCount(xs[1..])
  }

  /** Flattening yields exactly one node per leaf part, repeats included. */
  lemma {:induction false} FlattenLength(xs: seq<Node>)
    ensures |Flatten(xs)| == LeafCount(xs)
    decreases xs
  {
    if xs != [] {
      FlattenLength(xs[1..]);
      match xs[0]
      case Group(items) => FlattenLength(items);
      case Part(_, _, Multi(parts)) => FlattenLength(parts);
      case Part(_, _, Text(_)) =>
    }
  }

  /** `n` is `x` itself or lies somewhere inside it. */
  ghost predicate Within(n: Node, x: Node)
    decreases x
  {
    n == x ||
    match x
    case Group(items) => Occurs(n, items)
    case Part(_, _, Multi(parts)) => Occurs(n, parts)
    case Part(_, _, Text(_)) => false
  }

  /** `n` lies inside some element of the payload `xs`, at any depth. */
  ghost predicate Occurs(n: Node, xs: seq<Node>)
    decreases xs
  {
    exists k :: 0 <= k < |xs| && Within(n, xs[k])
  }

  lemma OccursSplit(n: Node, xs: seq<Node>)
    requires xs != []
    ensures Occurs(n, xs) <==> Within(n, xs[0]) || Occurs(n, xs[1..])
  {
  }

  /**
   * Exactly the leaves reachable in the payload are produced: a node is in
   * the flattening if and only if it is a leaf lying somewhere inside it.
   */
  lemma {:induction false} FlattenMembership(n: Node, xs: seq<Node>)
    ensures n in Flatten(xs) <==> IsLeaf(n) && Occurs(n, xs)
    decreases xs
  {
    if xs != [] {
      OccursSplit(n, xs);
      FlattenMembership(n, xs[1..]);
      match xs[0]
      case Group(items) =>
        FlattenMembership(n, items);
      case Part(_, _, Multi(parts)) =>
        FlattenMembership(n, parts);
      case Part(_, _, Text(_)) =>
    }
  }
}
