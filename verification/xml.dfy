/**
 * The part of the W3C DOM the report parsers use: a parsed document as a tree
 * of elements and text, `Element.getAttribute`, `getElementsByTagName` (all
 * descendants with a tag name, in document order) and `getTextContent`.
 * Parsing the XML text itself is left to the caller: a report is handed over
 * already parsed, or as the parser's failure.
 */
module Xml {
  import opened Wrappers

  datatype Node =
    | Element(tag: string, attributes: seq<(string, string)>, children: seq<Node>)
    | TextNode(text: string)

  /** A report file as the parser sees it: its document, or the exception's message. */
  datatype Parsed = Document(root: Node) | Unreadable(message: Option<string>)

  /** Attribute `k` is the first one named `name`. */
  predicate FirstNamed(attributes: seq<(string, string)>, name: string, k: int) {
    0 <= k < |attributes| && attributes[k].0 == name
    && forall j :: 0 <= j < k ==> attributes[j].0 != name
  }

  /** The value of the first attribute with that name; "" when there is none. */
  function GetAttribute(attributes: seq<(string, string)>, name: string): (r: string)
    ensures (forall k :: 0 <= k < |attributes| ==> attributes[k].0 != name) ==> r == ""
    ensures forall k :: FirstNamed(attributes, name, k) ==> r == attributes[k].1
  {
    if |attributes| == 0 then ""
    else if attributes[0].0 == name then attributes[0].1
    else GetAttribute(attributes[1..], name)
  }

  /** The elements with tag `tag` among `nodes` and their descendants, in document order. */
  function ElementsByTag(nodes: seq<Node>, tag: string): (r: seq<Node>)
    ensures forall k :: 0 <= k < |r| ==> r[k].Element? && r[k].tag == tag
    decreases nodes
  {
    if |nodes| == 0 then []
    else
      var n := nodes[0];
      var here := if n.Element? && n.tag == tag then [n] else [];
      var below := if n.Element? then ElementsByTag(n.children, tag) else [];
      here + below + ElementsByTag(nodes[1..], tag)
  }

  /** Number of elements with tag `tag` in the forest, counted independently of the listing. */
  function CountTag(nodes: seq<Node>, tag: string): nat
    decreases nodes
  {
    if |nodes| == 0 then 0
    else
      var n := nodes[0];
      (if n.Element? && n.tag == tag then 1 else 0)
      + (if n.Element? then CountTag(n.children, tag) else 0)
      + CountTag(nodes[1..], tag)
  }

  /** The listing of a concatenated forest is the concatenation of the listings. */
  lemma {:induction false} ElementsByTagAppend(a: seq<Node>, b: seq<Node>, tag: string)
    ensures ElementsByTag(a + b, tag) == ElementsByTag(a, tag) + ElementsByTag(b, tag)
    decreases a
  {
    if |a| > 0 {
      assert (a + b)[0] == a[0];
      assert (a + b)[1..] == a[1..] + b;
      ElementsByTagAppend(a[1..], b, tag);
    } else {
      assert a + b == b;
    }
  }

  /** The listing holds every element with that tag exactly once. */
  lemma {:induction false} ElementsByTagCount(nodes: seq<Node>, tag: string)
    ensures |ElementsByTag(nodes, tag)| == CountTag(nodes, tag)
    decreases nodes
  {
    if |nodes| > 0 {
      var n := nodes[0];
      if n.Element? {
        ElementsByTagCount(n.children, tag);
      }
      ElementsByTagCount(nodes[1..], tag);
    }
  }

  /** `getTextContent`: the text of every text node below, in document order. */
  function TextContent(n: Node): (r: string)
    ensures n.TextNode? ==> r == n.text
    ensures n.Element? && |n.children| == 0 ==> r == ""
    decreases n
  {
    match n
    case TextNode(t) => t
    case Element(_, _, children) => ForestText(children)
  }

  function ForestText(nodes: seq<Node>): string
    decreases nodes
  {
    if |nodes| == 0 then "" else TextContent(nodes[0]) + ForestText(nodes[1..])
  }

  /** The text of a forest is the text of its parts, in order. */
  lemma {:induction false} ForestTextAppend(a: seq<Node>, b: seq<Node>)
    ensures ForestText(a + b) == ForestText(a) + ForestText(b)
  {
    if |a| > 0 {
      assert (a + b)[0] == a[0];
      assert (a + b)[1..] == a[1..] + b;
      ForestTextAppend(a[1..], b);
    } else {
      assert a + b == b;
    }
  }
}
