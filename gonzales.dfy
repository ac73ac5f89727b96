/** An abstract view of the syntax tree the gonzales parser hands to the
    declaration and colour rules: a node has a type, either a text payload or
    an ordered list of children, and a start position. */
module Gonzales {
  import opened LintTypes

  datatype Content = Text(text: string) | Children(nodes: seq<Node>)

  /** `kind` is the node's `type` field (`type` is a Dafny keyword). */
  datatype Node = Node(kind: string, content: Content, start: Position)

  /** The children of a node; a text node has none. */
  function ChildrenOf(n: Node): seq<Node>
  {
    if n.content.Children? then n.content.nodes else []
  }

  /** `findIndex(nodes, e => e.type === t)`, searching from position `i`. */
  function FindIndexFrom(nodes: seq<Node>, t: string, i: nat): (r: int)
    ensures r == -1 || (i <= r < |nodes| && nodes[r].kind == t)
    ensures r != -1 ==> forall k :: i <= k < r ==> nodes[k].kind != t
    ensures r == -1 ==> forall k :: i <= k < |nodes| ==> nodes[k].kind != t
    decreases |nodes| - i
  {
    if i >= |nodes| then -1
    else if nodes[i].kind == t then i
    else FindIndexFrom(nodes, t, i + 1)
  }

  /** `findIndex(nodes, e => e.type === t)`: the first index of a node of
      type `t`, or -1. */
  function FindIndex(nodes: seq<Node>, t: string): int
  {
    FindIndexFrom(nodes, t, 0)
  }

  /** `node.first(t)`: the first child of type `t`, if there is one. */
  function FirstOfType(n: Node, t: string): (r: Option<Node>)
    ensures r.Some? ==> r.value.kind == t
    ensures r.Some? <==> exists k :: 0 <= k < |ChildrenOf(n)| && ChildrenOf(n)[k].kind == t
    ensures r.Some? ==> exists k :: 0 <= k < |ChildrenOf(n)| && ChildrenOf(n)[k] == r.value &&
                                    forall j :: 0 <= j < k ==> ChildrenOf(n)[j].kind != t
  {
    var k := FindIndex(ChildrenOf(n), t);
    if k == -1 then None else Some(ChildrenOf(n)[k])
  }

  /** `node.first()`: the first child, if there is one. */
  function FirstChild(n: Node): (r: Option<Node>)
    ensures r.Some? <==> |ChildrenOf(n)| > 0
    ensures r.Some? ==> r.value == ChildrenOf(n)[0]
  {
    if |ChildrenOf(n)| > 0 then Some(ChildrenOf(n)[0]) else None
  }
}
