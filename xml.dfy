/** An already-parsed XML document, and the three DOM/jQuery queries the response
    parser uses on it: `getElementsByTagNameNS` (every descendant element with the
    given namespace and local name, in document order), `$(e).attr(name)` and
    `$(e).text()`. */
module Xml {
  import opened Common

  datatype Node =
    | Element(ns: string, localName: string, attrs: map<string, string>, children: seq<Node>)
    | Text(text: string)

  /** The top-level nodes of a document. Searching a document also finds its root. */
  type Document = seq<Node>

  /** Every element among `nodes` and below them, in document (pre-)order. */
  function Descendants(nodes: seq<Node>): (r: seq<Node>)
    ensures forall k :: 0 <= k < |r| ==> r[k].Element?
    decreases nodes
  {
    if nodes == [] then []
    else
      var first := match nodes[0]
        case Element(_, _, _, ch) => [nodes[0]] + Descendants(ch)
        case Text(_) => [];
      first + Descendants(nodes[1..])
  }

  predicate HasName(n: Node, ns: string, name: string) {
    n.Element? && n.ns == ns && n.localName == name
  }

  function FilterByName(elems: seq<Node>, ns: string, name: string): (r: seq<Node>)
    ensures |r| <= |elems|
  {
    if elems == [] then []
    else
      (if HasName(elems[0], ns, name) then [elems[0]] else []) + FilterByName(elems[1..], ns, name)
  }

  /** The matches are exactly the elements with that namespace and local name. */
  lemma {:induction false} FilterByNameExactly(elems: seq<Node>, ns: string, name: string)
    ensures forall k :: 0 <= k < |FilterByName(elems, ns, name)| ==>
      HasName(FilterByName(elems, ns, name)[k], ns, name) && FilterByName(elems, ns, name)[k] in elems
    ensures forall e :: e in elems && HasName(e, ns, name) ==> e in FilterByName(elems, ns, name)
    decreases |elems|
  {
    if elems != [] {
      var rest := FilterByName(elems[1..], ns, name);
      FilterByNameExactly(elems[1..], ns, name);
      var r := FilterByName(elems, ns, name);
      assert elems == [elems[0]] + elems[1..];
      forall k | 0 <= k < |rest| ensures rest[k] in elems {
        assert rest[k] in elems[1..];
      }
      if HasName(elems[0], ns, name) {
        assert r == [elems[0]] + rest;
        assert forall k :: 1 <= k < |r| ==> r[k] == rest[k - 1];
      } else {
        assert r == rest;
      }
    }
  }

  /** `scope.getElementsByTagNameNS(ns, name)`, where `scope` is the children of the
      element searched (or the document's top-level nodes). */
  function ElementsByTagNameNS(scope: seq<Node>, ns: string, name: string): seq<Node> {
    FilterByName(Descendants(scope), ns, name)
  }

  /** The child nodes of an element; a text node has none. */
  function ChildNodes(n: Node): seq<Node> {
    if n.Element? then n.children else []
  }

  /** The element nodes among `nodes` (the `nodeType === 1` test), in order. */
  function ElementChildren(nodes: seq<Node>): (r: seq<Node>)
    ensures forall k :: 0 <= k < |r| ==> r[k].Element?
  {
    if nodes == [] then []
    else
      var last := nodes[|nodes| - 1];
      ElementChildren(nodes[..|nodes| - 1]) + (if last.Element? then [last] else [])
  }

  /** `$(e).attr(name)`; `None` stands for `undefined`. */
  function Attr(n: Node, name: string): Option<string> {
    if n.Element? && name in n.attrs then Some(n.attrs[name]) else None
  }

  /** `$(n).text()`: the concatenated text of every text node below `n`. */
  function TextContent(n: Node): string
    decreases n, 1
  {
    match n
    case Text(t) => t
    case Element(_, _, _, ch) => ChildrenText(ch)
  }

  function ChildrenText(nodes: seq<Node>): string
    decreases nodes, 0
  {
    if nodes == [] then "" else TextContent(nodes[0]) + ChildrenText(nodes[1..])
  }

  /** `$(list).text()` on a list of elements: their texts one after the other, "" for none. */
  function TextOfAll(elems: seq<Node>): string {
    if elems == [] then "" else TextContent(elems[0]) + TextOfAll(elems[1..])
  }

  /** Searching two runs of siblings finds the matches of the first run, then those of
      the second. */
  lemma {:induction false} DescendantsAppend(a: seq<Node>, b: seq<Node>)
    ensures Descendants(a + b) == Descendants(a) + Descendants(b)
    decreases |a|
  {
    if a != [] {
      assert (a + b)[0] == a[0];
      assert (a + b)[1..] == a[1..] + b;
      DescendantsAppend(a[1..], b);
    } else {
      assert a + b == b;
    }
  }

  lemma {:induction false} ElementChildrenAppend(a: seq<Node>, b: seq<Node>)
    ensures ElementChildren(a + b) == ElementChildren(a) + ElementChildren(b)
    decreases |b|
  {
    if b == [] {
      assert a + b == a;
    } else {
      assert (a + b)[..|a + b| - 1] == a + b[..|b| - 1];
      ElementChildrenAppend(a, b[..|b| - 1]);
    }
  }

  /** The element children of `nodes` around the element at `i`. */
  lemma ElementChildrenAround(nodes: seq<Node>, i: int)
    requires 0 <= i < |nodes| && nodes[i].Element?
    ensures ElementChildren(nodes) == ElementChildren(nodes[..i]) + [nodes[i]] + ElementChildren(nodes[i + 1..])
  {
    var before, after := nodes[..i], nodes[i + 1..];
    var rest := [nodes[i]] + after;
    assert nodes == before + rest;
    ElementChildrenAppend(before, rest);
    ElementChildrenCons(nodes[i], after);
    Assoc(ElementChildren(before), [nodes[i]], ElementChildren(after));
  }

  lemma ElementChildrenCons(x: Node, b: seq<Node>)
    requires x.Element?
    ensures ElementChildren([x] + b) == [x] + ElementChildren(b)
  {
    ElementChildrenAppend([x], b);
    assert [x][..0] == [];
  }

  /** A loop over the element children of `nodes` fails at the first failing element. */
  lemma ElementLoopStops<B>(nodes: seq<Node>, f: Node -> Result<B>, i: int)
    requires 0 <= i < |nodes| && nodes[i].Element?
    requires MapResult(ElementChildren(nodes[..i]), f).Ok? && f(nodes[i]).Err?
    ensures MapResult(ElementChildren(nodes), f) == Err(f(nodes[i]).error)
  {
    ElementChildrenAround(nodes, i);
    MapResultStops(ElementChildren(nodes[..i]), nodes[i], ElementChildren(nodes[i + 1..]), f);
  }

  /** One more element node adds its result to the loop's results. */
  lemma ElementLoopStep<B>(nodes: seq<Node>, f: Node -> Result<B>, i: int)
    requires 0 <= i < |nodes| && nodes[i].Element?
    requires MapResult(ElementChildren(nodes[..i]), f).Ok? && f(nodes[i]).Ok?
    ensures MapResult(ElementChildren(nodes[..i + 1]), f) ==
      Ok(MapResult(ElementChildren(nodes[..i]), f).value + [f(nodes[i]).value])
  {
    assert nodes[..i + 1] == nodes[..i] + [nodes[i]];
    ElementChildrenAppend(nodes[..i], [nodes[i]]);
    assert ElementChildren([nodes[i]]) == [nodes[i]];
    MapResultSnoc(ElementChildren(nodes[..i]), f, nodes[i]);
  }

  /** A text node leaves the loop's results as they are. */
  lemma ElementLoopSkip(nodes: seq<Node>, i: int)
    requires 0 <= i < |nodes| && !nodes[i].Element?
    ensures ElementChildren(nodes[..i + 1]) == ElementChildren(nodes[..i])
  {
    assert nodes[..i + 1][..i] == nodes[..i];
  }

  lemma {:induction false} FilterAppend(a: seq<Node>, b: seq<Node>, ns: string, name: string)
    ensures FilterByName(a + b, ns, name) == FilterByName(a, ns, name) + FilterByName(b, ns, name)
    decreases |a|
  {
    if a != [] {
      var head := if HasName(a[0], ns, name) then [a[0]] else [];
      assert (a + b)[0] == a[0];
      assert (a + b)[1..] == a[1..] + b;
      assert FilterByName(a + b, ns, name) == head + FilterByName(a[1..] + b, ns, name);
      assert FilterByName(a, ns, name) == head + FilterByName(a[1..], ns, name);
      FilterAppend(a[1..], b, ns, name);
    } else {
      assert a + b == b;
    }
  }
}
