/**
 * Identifier validation, attribute lookup and the merge of adjacent text
 * children (`pkg/html2pug-go/util/util.go`).
 */
module Util {
  import opened Wrappers
  import opened GoStrings
  import opened Dom

  // ---------------------------------------------------------------------------
  // IsValidJadeId, IsValidJadeClassName
  // ---------------------------------------------------------------------------

  /** The regexp class `[\w\-]`: ASCII letters and digits, underscore, hyphen. */
  predicate IsIdentChar(c: char) {
    ('a' <= c <= 'z') || ('A' <= c <= 'Z') || ('0' <= c <= '9') || c == '_' || c == '-'
  }

  predicate AllIdentChars(s: string) {
    forall i :: 0 <= i < |s| ==> IsIdentChar(s[i])
  }

  /** `^[\w\-]+$` matched against the id with surrounding white space trimmed. */
  predicate IsValidJadeId(id: string) {
    TrimSpace(id) != "" && AllIdentChars(TrimSpace(id))
  }

  /** The class-name test uses the same pattern as the id test. */
  predicate IsValidJadeClassName(className: string) {
    TrimSpace(className) != "" && AllIdentChars(TrimSpace(className))
  }

  /** The two tests agree on every input, and both reject the empty string. */
  lemma ValidatorsAgree(s: string)
    ensures IsValidJadeId(s) <==> IsValidJadeClassName(s)
    ensures !IsValidJadeId("") && !IsValidJadeClassName("")
  {
  }

  /** A string without white space at either end is its own trimmed form. */
  lemma TrimmedWord(w: string)
    requires IsWord(w)
    ensures TrimSpace(w) == w
  {
    assert LeadingCount(w, IsSpace) == 0;
    assert w[0..] == w;
    assert TrailingCount(w, IsSpace) == 0;
    assert w[..|w|] == w;
  }

  /** A valid name, once trimmed, is a word that can follow `#` or `.` in a tag
      head: it holds no white space, no dot, no hash and no parenthesis. */
  lemma ValidNameIsShorthand(s: string)
    requires IsValidJadeId(s)
    ensures IsWord(TrimSpace(s))
    ensures forall i :: 0 <= i < |TrimSpace(s)| ==> TrimSpace(s)[i] !in ".#()"
  {
  }

  // ---------------------------------------------------------------------------
  // HasAttr, GetAttr
  // ---------------------------------------------------------------------------

  /** The position of the first attribute called `name`. */
  function FindAttr(attrs: seq<Attribute>, name: string): (r: Option<nat>)
    ensures r.Some? ==> r.value < |attrs| && attrs[r.value].key == name
    ensures r.Some? ==> forall j :: 0 <= j < r.value ==> attrs[j].key != name
    ensures r.None? ==> forall j :: 0 <= j < |attrs| ==> attrs[j].key != name
    decreases |attrs|
  {
    if attrs == [] then None
    else if attrs[0].key == name then Some(0)
    else match FindAttr(attrs[1..], name)
      case None => None
      case Some(k) => Some(k + 1)
  }

  function HasAttr(node: Node, name: string): (r: bool)
    ensures r <==> exists j :: 0 <= j < |node.attr| && node.attr[j].key == name
  {
    FindAttr(node.attr, name).Some?
  }

  function GetAttr(node: Node, name: string): (r: string)
    ensures (forall j :: 0 <= j < |node.attr| ==> node.attr[j].key != name) ==> r == ""
    ensures forall j :: (0 <= j < |node.attr| && node.attr[j].key == name &&
                         (forall k :: 0 <= k < j ==> node.attr[k].key != name)) ==> r == node.attr[j].val
  {
    match FindAttr(node.attr, name)
    case None => ""
    case Some(k) => node.attr[k].val
  }

  // ---------------------------------------------------------------------------
  // NormalizeTextNode
  // ---------------------------------------------------------------------------

  /** The child list after the merge: each text child that follows a kept text
      child is appended to it and dropped. */
  function Merged(kids: seq<Node>): seq<Node>
    decreases |kids|
  {
    if kids == [] then []
    else
      var m := Merged(kids[..|kids| - 1]);
      var c := kids[|kids| - 1];
      if c.kind == TextNode && |m| > 0 && m[|m| - 1].kind == TextNode
      then m[..|m| - 1] + [m[|m| - 1].(data := m[|m| - 1].data + c.data)]
      else m + [c]
  }

  method NormalizeTextNode(parent: Node) returns (r: Node)
    ensures r == parent.(children := Merged(parent.children))
  {
    var kids := parent.children;
    var kept: seq<Node> := [];
    var i := 0;
    while i < |kids|
      invariant 0 <= i <= |kids|
      invariant kept == Merged(kids[..i])
    {
      var curr := kids[i];
      assert kids[..i + 1][..i] == kids[..i];
      if curr.kind == TextNode && |kept| > 0 && kept[|kept| - 1].kind == TextNode {
        var prev := kept[|kept| - 1];
        kept := kept[..|kept| - 1] + [prev.(data := prev.data + curr.data)];
      } else {
        kept := kept + [curr];
      }
      i := i + 1;
    }
    assert kids[..|kids|] == kids;
    r := parent.(children := kept);
  }

  predicate NoAdjacentText(kids: seq<Node>) {
    forall i :: 0 <= i < |kids| - 1 ==> !(kids[i].kind == TextNode && kids[i + 1].kind == TextNode)
  }

  /** The children that are not text nodes, in order. */
  function NonText(kids: seq<Node>): seq<Node>
    decreases |kids|
  {
    if kids == [] then []
    else NonText(kids[..|kids| - 1]) + (if kids[|kids| - 1].kind != TextNode then [kids[|kids| - 1]] else [])
  }

  /** The text between consecutive non-text children: segment `j` is the
      concatenated data of the text children between non-text child `j - 1`
      and non-text child `j`. */
  function Segments(kids: seq<Node>): (segs: seq<string>)
    ensures |segs| >= 1
    decreases |kids|
  {
    if kids == [] then [""]
    else
      var s := Segments(kids[..|kids| - 1]);
      var c := kids[|kids| - 1];
      if c.kind == TextNode then AppendToLast(s, c.data) else s + [""]
  }

  function AppendToLast(segs: seq<string>, x: string): (r: seq<string>)
    requires |segs| >= 1
    ensures |r| == |segs|
  {
    segs[..|segs| - 1] + [segs[|segs| - 1] + x]
  }

  lemma AppendToLastTwice(segs: seq<string>, x: string, y: string)
    requires |segs| >= 1
    ensures AppendToLast(AppendToLast(segs, x), y) == AppendToLast(segs, x + y)
  {
    var r := AppendToLast(segs, x);
    assert r[..|r| - 1] == segs[..|segs| - 1];
    assert r[|r| - 1] + y == segs[|segs| - 1] + (x + y);
  }

  /** No two consecutive children are text nodes after the merge. */
  lemma {:induction false} MergedNoAdjacentText(kids: seq<Node>)
    ensures NoAdjacentText(Merged(kids))
    decreases |kids|
  {
    if kids != [] {
      var init := kids[..|kids| - 1];
      MergedNoAdjacentText(init);
      var m := Merged(init);
      var c := kids[|kids| - 1];
      if c.kind == TextNode && |m| > 0 && m[|m| - 1].kind == TextNode {
        var r := m[..|m| - 1] + [m[|m| - 1].(data := m[|m| - 1].data + c.data)];
        assert forall i :: 0 <= i < |r| ==> r[i].kind == m[i].kind;
      } else {
        var r := m + [c];
        assert forall i :: 0 <= i < |m| ==> r[i] == m[i];
      }
    }
  }

  lemma NonTextSnocText(s: seq<Node>, x: Node)
    requires x.kind == TextNode
    ensures NonText(s + [x]) == NonText(s)
  {
    assert (s + [x])[..|s|] == s;
  }

  /** The merge keeps the non-text children and their order. */
  lemma {:induction false} MergedKeepsNonText(kids: seq<Node>)
    ensures NonText(Merged(kids)) == NonText(kids)
    decreases |kids|
  {
    if kids != [] {
      var init := kids[..|kids| - 1];
      MergedKeepsNonText(init);
      var m := Merged(init);
      var c := kids[|kids| - 1];
      if c.kind == TextNode && |m| > 0 && m[|m| - 1].kind == TextNode {
        var last := m[|m| - 1];
        var front := m[..|m| - 1];
        assert m == front + [last];
        NonTextSnocText(front, last);
        NonTextSnocText(front, last.(data := last.data + c.data));
      } else {
        assert (m + [c])[..|m|] == m;
      }
    }
  }

  lemma SegmentsSnocText(s: seq<Node>, x: Node)
    requires x.kind == TextNode
    ensures Segments(s + [x]) == AppendToLast(Segments(s), x.data)
  {
    assert (s + [x])[..|s|] == s;
  }

  /** The merge keeps the text between any two non-text children: every maximal
      run of text children becomes one node holding the run's concatenation. */
  lemma {:induction false} MergedKeepsSegments(kids: seq<Node>)
    ensures Segments(Merged(kids)) == Segments(kids)
    decreases |kids|
  {
    if kids != [] {
      var init := kids[..|kids| - 1];
      MergedKeepsSegments(init);
      var m := Merged(init);
      var c := kids[|kids| - 1];
      assert kids == init + [c];
      if c.kind == TextNode && |m| > 0 && m[|m| - 1].kind == TextNode {
        var last := m[|m| - 1];
        var front := m[..|m| - 1];
        assert m == front + [last];
        SegmentsSnocText(front, last);
        SegmentsSnocText(front, last.(data := last.data + c.data));
        AppendToLastTwice(Segments(front), last.data, c.data);
        SegmentsSnocText(init, c);
      } else {
        assert (m + [c])[..|m|] == m;
      }
    }
  }

  /** Children with no two adjacent text nodes are left exactly as they are, so
      a second merge changes nothing. */
  lemma {:induction false} MergedIdentity(kids: seq<Node>)
    requires NoAdjacentText(kids)
    ensures Merged(kids) == kids
    decreases |kids|
  {
    if kids != [] {
      var init := kids[..|kids| - 1];
      assert NoAdjacentText(init);
      MergedIdentity(init);
      assert kids == init + [kids[|kids| - 1]];
    }
  }

  lemma MergedIdempotent(kids: seq<Node>)
    ensures Merged(Merged(kids)) == Merged(kids)
  {
    MergedNoAdjacentText(kids);
    MergedIdentity(Merged(kids));
  }

  /** A node without children, such as a text node, is left unchanged. */
  lemma NormalizeChildless(n: Node)
    requires n.children == []
    ensures n.(children := Merged(n.children)) == n
  {
  }
}
