/** An abstract, immutable HTML element tree standing in for a parsed DOMDocument,
    with the four queries the scraper uses: getElementsByTagName, list indexing,
    getAttribute and nodeValue. */
module Dom {
  import opened Wrappers

  datatype Node =
    | Element(tag: string, attrs: map<string, string>, children: seq<Node>)
    | Text(content: string)

  /** A parsed response body: the top-level nodes of the document. */
  datatype Document = Document(nodes: seq<Node>)

  /** The elements named `t` inside `n`, `n` included, in document (pre-)order. */
  function NodeByTag(n: Node, t: string): seq<Node>
    decreases n, 1
  {
    match n
    case Text(_) => []
    case Element(g, _, cs) => (if g == t then [n] else []) + ForestByTag(cs, t)
  }

  /** The elements named `t` inside the nodes `ns`, in document order. */
  function ForestByTag(ns: seq<Node>, t: string): seq<Node>
    decreases ns, 0
  {
    if ns == [] then [] else NodeByTag(ns[0], t) + ForestByTag(ns[1..], t)
  }

  /** `DOMDocument::getElementsByTagName`: exactly the document's elements named `t`. */
  function ElementsByTagName(d: Document, t: string): (r: seq<Node>)
    ensures forall x {:trigger x in r, InForest(x, d.nodes)} ::
      x in r <==> InForest(x, d.nodes) && x.Element? && x.tag == t
  {
    ForestByTagFinds(d.nodes, t);
    ForestByTag(d.nodes, t)
  }

  /** `DOMElement::getElementsByTagName`: exactly the proper descendants of `e` named `t`. */
  function Descendants(e: Node, t: string): (r: seq<Node>)
    ensures forall x {:trigger x in r, InForest(x, e.children)} ::
      x in r <==> e.Element? && InForest(x, e.children) && x.Element? && x.tag == t
  {
    match e
    case Element(_, _, cs) => ForestByTagFinds(cs, t); ForestByTag(cs, t)
    case Text(_) => []
  }

  /** `$list[i]` on a DOMNodeList: `null` when out of range. */
  function Item(list: seq<Node>, i: nat): (r: Option<Node>)
    ensures r.Some? <==> i < |list|
    ensures r.Some? ==> r.value == list[i]
  {
    if i < |list| then Some(list[i]) else None
  }

  /** `DOMElement::getAttribute`: the attribute's value, or the empty string when
      the element has no such attribute. */
  function GetAttribute(e: Node, name: string): (r: string)
    ensures e.Element? && name in e.attrs ==> r == e.attrs[name]
    ensures !(e.Element? && name in e.attrs) ==> r == ""
  {
    match e
    case Element(_, attrs, _) => if name in attrs then attrs[name] else ""
    case Text(_) => ""
  }

  /** `nodeValue` of an element: the concatenation of all its text in document order. */
  function NodeText(n: Node): string
    decreases n, 1
  {
    match n
    case Text(s) => s
    case Element(_, _, cs) => ForestText(cs)
  }

  function ForestText(ns: seq<Node>): string
    decreases ns, 0
  {
    if ns == [] then "" else NodeText(ns[0]) + ForestText(ns[1..])
  }

  /** Reference definition of "x lies in the subtree of n" (n included). */
  ghost predicate InNode(x: Node, n: Node)
    decreases n, 1
  {
    x == n || (n.Element? && InForest(x, n.children))
  }

  /** "x lies in the subtree of one of the nodes ns". */
  ghost predicate InForest(x: Node, ns: seq<Node>)
    decreases ns, 0
  {
    ns != [] && (InNode(x, ns[0]) || InForest(x, ns[1..]))
  }

  /** Searching a concatenation of node sequences is concatenating the searches:
      results keep document order across sibling runs. */
  lemma {:induction false} ForestByTagAppend(a: seq<Node>, b: seq<Node>, t: string)
    ensures ForestByTag(a + b, t) == ForestByTag(a, t) + ForestByTag(b, t)
    decreases |a|
  {
    if a == [] {
      assert a + b == b;
    } else {
      assert (a + b)[0] == a[0];
      assert (a + b)[1..] == a[1..] + b;
      ForestByTagAppend(a[1..], b, t);
    }
  }

  /** The search finds exactly the elements named `t` in the subtree. */
  lemma {:induction false} NodeByTagComplete(x: Node, n: Node, t: string)
    ensures x in NodeByTag(n, t) <==> InNode(x, n) && x.Element? && x.tag == t
    decreases n, 1
  {
    match n
    case Text(_) =>
    case Element(g, _, cs) =>
      ForestByTagComplete(x, cs, t);
  }

  lemma {:induction false} ForestByTagComplete(x: Node, ns: seq<Node>, t: string)
    ensures x in ForestByTag(ns, t) <==> InForest(x, ns) && x.Element? && x.tag == t
    decreases ns, 0
  {
    if ns != [] {
      NodeByTagComplete(x, ns[0], t);
      ForestByTagComplete(x, ns[1..], t);
    }
  }

  lemma ForestByTagFinds(ns: seq<Node>, t: string)
    ensures forall x :: x in ForestByTag(ns, t) <==> InForest(x, ns) && x.Element? && x.tag == t
  {
    forall x | true
      ensures x in ForestByTag(ns, t) <==> InForest(x, ns) && x.Element? && x.tag == t
    {
      ForestByTagComplete(x, ns, t);
    }
  }

  /** The text of a run of sibling nodes is their texts joined in document order. */
  lemma {:induction false} ForestTextAppend(a: seq<Node>, b: seq<Node>)
    ensures ForestText(a + b) == ForestText(a) + ForestText(b)
    decreases |a|
  {
    if a == [] {
      assert a + b == b;
    } else {
      assert (a + b)[0] == a[0];
      assert (a + b)[1..] == a[1..] + b;
      ForestTextAppend(a[1..], b);
    }
  }
}
