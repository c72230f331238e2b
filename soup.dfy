/**
 * The parsed document, standing in for the tree BeautifulSoup builds from a page.
 * Only what the parser uses is kept: element names, their CSS classes, text leaves,
 * document order, `find` and `get_text`.
 */
module Soup {
  import opened Wrappers

  /** A text leaf (a NavigableString) or an element with its class set and children in document order. */
  datatype Node = Text(s: string) | Element(name: string, classes: set<string>, children: seq<Node>)

  /** What `find(name)` or `find(name, class_=cls)` asks for. */
  datatype Selector = Selector(name: string, cls: Option<string>)

  predicate Matches(n: Node, sel: Selector)
  {
    n.Element? && n.name == sel.name && (sel.cls.None? || sel.cls.value in n.classes)
  }

  /** Every node strictly below `n`, in document (pre-)order. */
  function Descendants(n: Node): seq<Node>
    decreases n
  {
    match n
    case Text(_) => []
    case Element(_, _, children) => DescendantsOf(children)
  }

  function DescendantsOf(nodes: seq<Node>): seq<Node>
    decreases nodes
  {
    if nodes == [] then [] else [nodes[0]] + Descendants(nodes[0]) + DescendantsOf(nodes[1..])
  }

  /** `get_text()`: every text leaf at or below `n`, concatenated in document order. */
  function GetText(n: Node): string
    decreases n
  {
    match n
    case Text(s) => s
    case Element(_, _, children) => TextOf(children)
  }

  function TextOf(nodes: seq<Node>): string
    decreases nodes
  {
    if nodes == [] then "" else GetText(nodes[0]) + TextOf(nodes[1..])
  }

  /** `i` is the first position of `nodes` that matches `sel`. */
  predicate IsFirstMatch(nodes: seq<Node>, sel: Selector, i: int)
  {
    0 <= i < |nodes| && Matches(nodes[i], sel) && forall j :: 0 <= j < i ==> !Matches(nodes[j], sel)
  }

  /** The first position at or after `from` that matches `sel`. */
  function FirstMatchFrom(nodes: seq<Node>, sel: Selector, from: nat): (r: Option<nat>)
    requires from <= |nodes|
    requires forall j :: 0 <= j < from ==> !Matches(nodes[j], sel)
    ensures r.Some? ==> IsFirstMatch(nodes, sel, r.value)
    ensures r.None? ==> forall j :: 0 <= j < |nodes| ==> !Matches(nodes[j], sel)
    decreases |nodes| - from
  {
    if from == |nodes| then None
    else if Matches(nodes[from], sel) then Some(from)
    else FirstMatchFrom(nodes, sel, from + 1)
  }

  /**
   * `node.find(...)`: the first descendant, in document order, that matches; None when there is none.
   * The node itself is never a candidate.
   */
  function Find(node: Node, sel: Selector): (r: Option<Node>)
    ensures r.None? <==> forall j :: 0 <= j < |Descendants(node)| ==> !Matches(Descendants(node)[j], sel)
    ensures r.Some? ==> exists i :: IsFirstMatch(Descendants(node), sel, i) && r.value == Descendants(node)[i]
  {
    var ds := Descendants(node);
    match FirstMatchFrom(ds, sel, 0)
    case None => None
    case Some(i) => Some(ds[i])
  }
}
