/**
 * The parsed HTML tree (`golang.org/x/net/html.Node`) as a finite tree value.
 * A node owns its children; the sibling links of the Go structure are recovered
 * by position in the parent's child sequence.
 */
module Dom {
  import opened Wrappers

  datatype NodeType = ErrorNode | TextNode | DocumentNode | ElementNode | CommentNode | DoctypeNode | RawNode

  datatype Attribute = Attribute(key: string, val: string)

  /** `data` is the tag name of an element and the text of a text or comment node. */
  datatype Node = Node(kind: NodeType, data: string, attr: seq<Attribute>, children: seq<Node>)

  /** The kinds of the siblings right before and right after a node; `None` is a nil link. */
  datatype Siblings = Siblings(prev: Option<NodeType>, next: Option<NodeType>)

  const NoSiblings := Siblings(None, None)

  /** The sibling links of `kids[i]` inside a parent whose children are `kids`. */
  function SiblingsAt(kids: seq<Node>, i: nat): (s: Siblings)
    requires i < |kids|
    ensures s.prev.Some? <==> i > 0
    ensures s.next.Some? <==> i + 1 < |kids|
    ensures s.prev.Some? ==> s.prev.value == kids[i - 1].kind
    ensures s.next.Some? ==> s.next.value == kids[i + 1].kind
  {
    Siblings(if i == 0 then None else Some(kids[i - 1].kind),
             if i + 1 == |kids| then None else Some(kids[i + 1].kind))
  }

  // ---------------------------------------------------------------------------
  // Size of a tree, used to bound the converter's recursion. A comment weighs 3
  // because converting it may append a two-node `conditional` element to the
  // children still to be visited.
  // ---------------------------------------------------------------------------

  function Weight(kind: NodeType): nat {
    if kind == CommentNode then 3 else 1
  }

  function Rank(n: Node): nat
    decreases n, 1
  {
    Weight(n.kind) + RankSum(n.children)
  }

  function RankSum(kids: seq<Node>): nat
    decreases kids, 0
  {
    if kids == [] then 0 else Rank(kids[0]) + RankSum(kids[1..])
  }

  lemma {:induction false} RankSumAppend(a: seq<Node>, b: seq<Node>)
    ensures RankSum(a + b) == RankSum(a) + RankSum(b)
    decreases |a|
  {
    if a == [] {
      assert a + b == b;
    } else {
      assert (a + b)[1..] == a[1..] + b;
      RankSumAppend(a[1..], b);
    }
  }

  /** A child of `kids[i..]` weighs no more than the whole suffix. */
  lemma RankSumSuffix(kids: seq<Node>, i: nat)
    requires i < |kids|
    ensures RankSum(kids[i..]) == Rank(kids[i]) + RankSum(kids[i + 1..])
  {
    assert kids[i..][1..] == kids[i + 1..];
  }

  // ---------------------------------------------------------------------------
  // Pre-order traversal
  // ---------------------------------------------------------------------------

  /** Every node of the tree, parents before children, children left to right. */
  function PreOrder(n: Node): seq<Node>
    decreases n, 1
  {
    [n] + PreOrderAll(n.children)
  }

  function PreOrderAll(kids: seq<Node>): seq<Node>
    decreases kids, 0
  {
    if kids == [] then [] else PreOrder(kids[0]) + PreOrderAll(kids[1..])
  }
}
