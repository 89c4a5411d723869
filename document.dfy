/**
 * The parsed document the converter starts from (`pkg/entities/document.go`):
 * the doctype record it may hold, the document element, the root node and the
 * two queries on them.
 */
module Documents {
  import opened Wrappers
  import opened Dom
  import opened Entities

  // ---------------------------------------------------------------------------
  // GetDocType
  // ---------------------------------------------------------------------------

  /** The doctype record after the scan of `chain`, starting from `prev`: a
      record with all fields empty as soon as one doctype node is seen. */
  function DocTypeAfter(chain: seq<Node>, prev: Option<Doctype>): (r: Option<Doctype>)
    ensures (exists i :: 0 <= i < |chain| && chain[i].kind == DoctypeNode) ==> r == Some(Doctype("", "", ""))
    ensures (forall i :: 0 <= i < |chain| ==> chain[i].kind != DoctypeNode) ==> r == prev
    decreases |chain|
  {
    if chain == [] then prev
    else if chain[|chain| - 1].kind == DoctypeNode then Some(Doctype("", "", ""))
    else
      var init := chain[..|chain| - 1];
      assert forall i :: 0 <= i < |init| ==> init[i] == chain[i];
      DocTypeAfter(init, prev)
  }

  // ---------------------------------------------------------------------------
  // GetElementsByTagName
  // ---------------------------------------------------------------------------

  predicate Named(x: Node, tagName: string) {
    x.kind == ElementNode && x.data == tagName
  }

  /** The traversal of `GetElementsByTagName`: the node itself when it matches,
      then each child's subtree in order. */
  function ElementsNamed(n: Node, tagName: string): seq<Node>
    decreases n, 1
  {
    (if Named(n, tagName) then [n] else []) + ElementsNamedAll(n.children, tagName)
  }

  function ElementsNamedAll(kids: seq<Node>, tagName: string): seq<Node>
    decreases kids, 0
  {
    if kids == [] then [] else ElementsNamed(kids[0], tagName) + ElementsNamedAll(kids[1..], tagName)
  }

  /** The nodes of `ns` that are elements called `tagName`, in order. */
  function Filter(ns: seq<Node>, tagName: string): (r: seq<Node>)
    ensures forall x :: x in r <==> x in ns && Named(x, tagName)
    decreases |ns|
  {
    if ns == [] then [] else (if Named(ns[0], tagName) then [ns[0]] else []) + Filter(ns[1..], tagName)
  }

  lemma {:induction false} FilterAppend(a: seq<Node>, b: seq<Node>, tagName: string)
    ensures Filter(a + b, tagName) == Filter(a, tagName) + Filter(b, tagName)
    decreases |a|
  {
    if a == [] {
      assert a + b == b;
    } else {
      assert (a + b)[1..] == a[1..] + b;
      FilterAppend(a[1..], b, tagName);
    }
  }

  /** The traversal finds the matching elements in pre-order. */
  lemma {:induction false} ElementsNamedInPreOrder(n: Node, tagName: string)
    ensures ElementsNamed(n, tagName) == Filter(PreOrder(n), tagName)
    decreases n, 1
  {
    ElementsNamedAllInPreOrder(n.children, tagName);
    FilterAppend([n], PreOrderAll(n.children), tagName);
    assert [n][1..] == [];
  }

  lemma {:induction false} ElementsNamedAllInPreOrder(kids: seq<Node>, tagName: string)
    ensures ElementsNamedAll(kids, tagName) == Filter(PreOrderAll(kids), tagName)
    decreases kids, 0
  {
    if kids != [] {
      ElementsNamedInPreOrder(kids[0], tagName);
      ElementsNamedAllInPreOrder(kids[1..], tagName);
      FilterAppend(PreOrder(kids[0]), PreOrderAll(kids[1..]), tagName);
    }
  }

  class Document {
    var doctype: Option<Doctype>
    const documentElement: Option<Element>
    const root: Option<Node>
    /** The nodes reached from `root` through `NextSibling`, in order. */
    const rootSiblings: seq<Node>

    constructor(doctype: Option<Doctype>, documentElement: Option<Element>, root: Option<Node>, rootSiblings: seq<Node>)
      ensures this.doctype == doctype && this.documentElement == documentElement
      ensures this.root == root && this.rootSiblings == rootSiblings
    {
      this.doctype := doctype;
      this.documentElement := documentElement;
      this.root := root;
      this.rootSiblings := rootSiblings;
    }

    /** The sibling chain `GetDocType` walks: the root and the nodes after it. */
    function Chain(): seq<Node> {
      if root.None? then [] else [root.value] + rootSiblings
    }

    method GetDocType() returns (docType: Option<Doctype>)
      modifies this
      ensures doctype == DocTypeAfter(Chain(), old(doctype))
      ensures docType == doctype
    {
      var chain := Chain();
      var i := 0;
      while i < |chain|
        invariant 0 <= i <= |chain|
        invariant doctype == DocTypeAfter(chain[..i], old(doctype))
      {
        assert chain[..i + 1][..i] == chain[..i];
        if chain[i].kind == DoctypeNode {
          doctype := Some(Doctype("", "", ""));
        }
        i := i + 1;
      }
      assert chain[..|chain|] == chain;
      docType := doctype;
    }

    /** Every element called `tagName`, compared case-sensitively, in pre-order;
        nothing for a nil root. */
    function GetElementsByTagName(tagName: string): (nodes: seq<Node>)
      ensures root.None? ==> nodes == []
      ensures root.Some? ==> nodes == Filter(PreOrder(root.value), tagName)
      ensures forall x :: x in nodes ==> x.kind == ElementNode && x.data == tagName
    {
      if root.None? then []
      else
        ElementsNamedInPreOrder(root.value, tagName);
        ElementsNamed(root.value, tagName)
    }
  }
}
