/**
 * The tree walker that turns a parsed document into Pug lines
 * (`pkg/html2pug-go/convertor.go`): the dispatch over node kinds, the special
 * elements (`script`, `style`, `pre`, the synthetic `conditional`), comments and
 * conditional comments, and the doctype line.
 *
 * Every method writes through a `StringOutput` and is specified by a function on
 * `OutState`; the properties of the walk are lemmas on those functions. The one
 * change the walker makes to the tree, the element `Conditional` appends to the
 * parent of a conditional comment, is modelled by the child sequence the
 * `Children` loop walks growing by that element.
 */
module Convertors {
  import opened Wrappers
  import opened GoStrings
  import opened Dom
  import opened Entities
  import opened Util
  import opened Output
  import opened Writers
  import opened Documents

  // ---------------------------------------------------------------------------
  // The conditional-comment pattern `\s*\[(if\s+[^\]]+)\]`
  // ---------------------------------------------------------------------------

  predicate IsCloseBracket(c: char) {
    c == ']'
  }

  /** What the group `(if\s+[^\]]+)` can capture: `if`, a white-space
      character, at least one more character, and no `]`. */
  predicate IsConditionText(c: string) {
    |c| >= 4 && c[..2] == "if" && IsRegexSpace(c[2]) && ']' !in c
  }

  /** The pattern matches with its `[` at position `q` of `s`, capturing `c`. */
  predicate MatchesAt(s: string, q: nat, c: string) {
    IsConditionText(c) && q + |c| + 2 <= |s| && s[q..q + |c| + 2] == "[" + c + "]"
  }

  /** The capture when the pattern matches with its `[` at position `q`. The
      class `[^\]]+` stops at the first `]`, and `\s+` leaves it at least one
      character. The leading `\s*` only widens the match to the left, so the
      capture is decided by the position of the `[`. */
  function ConditionAt(s: string, q: nat): Option<string> {
    if q + 3 <= |s| && s[q..q + 3] == "[if" then
      match IndexFunc(s[q + 3..], IsCloseBracket)
      case None => None
      case Some(j) =>
        var seg := s[q + 3..][..j];
        if |seg| >= 2 && IsRegexSpace(seg[0]) then Some("if" + seg) else None
    else None
  }

  /** The leftmost position at or after `q` where the pattern matches. */
  function FirstCondition(s: string, q: nat): (r: Option<(nat, string)>)
    ensures r.Some? ==> q <= r.value.0 && ConditionAt(s, r.value.0) == Some(r.value.1)
    ensures r.Some? ==> forall p :: q <= p < r.value.0 ==> ConditionAt(s, p).None?
    ensures r.None? ==> forall p :: q <= p ==> ConditionAt(s, p).None?
    decreases |s| - q
  {
    if q >= |s| then None
    else match ConditionAt(s, q)
      case Some(c) => Some((q, c))
      case None => FirstCondition(s, q + 1)
  }

  /** The group of `FindStringSubmatch` on a comment's data, if the pattern
      matches anywhere. */
  function FindCondition(s: string): Option<string> {
    match FirstCondition(s, 0)
    case None => None
    case Some(m) => Some(m.1)
  }

  // ---------------------------------------------------------------------------
  // The node `Conditional` appends
  // ---------------------------------------------------------------------------

  /** The comment's data with white space trimmed and the two markers removed. */
  function InnerHtml(data: string, condition: string): (r: string)
    ensures |r| <= |TrimSpace(data)|
    ensures ' ' !in TrimSpace(data) && '<' !in TrimSpace(data) ==> r == TrimSpace(data)
  {
    var t := TrimSpace(data);
    var opener := " [if " + condition + "]> ";
    var a := ReplaceAll(t, opener, "");
    ReplaceAllEmptyShrinks(t, opener);
    ReplaceAllEmptyShrinks(a, "<![endif]");
    if ' ' !in t && '<' !in t then
      ReplaceAllAbsent(t, opener, "");
      ReplaceAllAbsent(t, "<![endif]", "");
      ReplaceAll(a, "<![endif]", "")
    else ReplaceAll(a, "<![endif]", "")
  }

  /** The `conditional` element for a comment, with the condition as its one
      attribute and the inner text as its one child when there is any. */
  function ConditionalElement(data: string, condition: string): (e: Node)
    ensures e.kind == ElementNode && e.data == "conditional" && |e.attr| == 1
    ensures e.attr[0].key == "condition"
    ensures HasPrefix(InnerHtml(data, condition), "<!") ==> e.attr[0].val == " [" + condition + "] <!" && e.children == []
    ensures !HasPrefix(InnerHtml(data, condition), "<!") ==> e.attr[0].val == condition
    ensures |e.children| <= 1
    ensures |e.children| == 1 <==> InnerHtml(data, condition) != "" && !HasPrefix(InnerHtml(data, condition), "<!")
    ensures |e.children| == 1 ==> e.children[0] == Node(TextNode, InnerHtml(data, condition), [], [])
    ensures Rank(e) <= 2
  {
    var inner := InnerHtml(data, condition);
    var opener := HasPrefix(inner, "<!");
    var cond := if opener then " [" + condition + "] <!" else condition;
    var text := if opener then "" else inner;
    var kids := if text != "" then [Node(TextNode, text, [], [])] else [];
    TextLeafRank(text);
    Node(ElementNode, "conditional", [Attribute("condition", cond)], kids)
  }

  lemma TextLeafRank(text: string)
    ensures RankSum([Node(TextNode, text, [], [])]) == 1
  {
    assert [Node(TextNode, text, [], [])][1..] == [];
  }

  /** The children the `Children` loop walks once it has visited `kids[i]`: a
      conditional comment appends its `conditional` element at the end. */
  function Visited(kids: seq<Node>, i: nat): (r: seq<Node>)
    requires i < |kids|
    ensures |kids| <= |r| <= |kids| + 1 && r[..|kids|] == kids
  {
    var c := kids[i];
    if c.kind == CommentNode && FindCondition(c.data).Some? then kids + [ConditionalElement(c.data, FindCondition(c.data).value)]
    else kids
  }

  /** The children still to be visited weigh less after every visit: a comment
      weighs 3 and the element it may append at most 2. */
  lemma VisitedShrinks(kids: seq<Node>, i: nat)
    requires i < |kids|
    ensures RankSum(Visited(kids, i)[i + 1..]) < RankSum(kids[i..])
  {
    RankSumSuffix(kids, i);
    var c := kids[i];
    if c.kind == CommentNode && FindCondition(c.data).Some? {
      AppendShrinks(kids, i, ConditionalElement(c.data, FindCondition(c.data).value));
    }
  }

  lemma AppendShrinks(kids: seq<Node>, i: nat, e: Node)
    requires i < |kids| && Rank(e) < Rank(kids[i])
    ensures RankSum((kids + [e])[i + 1..]) < RankSum(kids[i..])
  {
    assert (kids + [e])[i + 1..] == kids[i + 1..] + [e];
    RankSumAppend(kids[i + 1..], [e]);
    RankSumSuffix(kids, i);
    assert [e][1..] == [];
  }

  // ---------------------------------------------------------------------------
  // The opener of a conditional comment
  // ---------------------------------------------------------------------------

  /** A conditional comment as the parser hands it over. */
  const ConditionalSample := "[if\tI]>x"

  /** The text removed as the opener starts with `[if ` followed by the
      capture, which itself starts with `if`, so the actual opener `[if\tI]>`
      stays in the element's text child. */
  lemma ConditionalKeepsOpener()
    ensures FindCondition(ConditionalSample) == Some("if\tI")
    ensures ConditionalElement(ConditionalSample, "if\tI").children == [Node(TextNode, ConditionalSample, [], [])]
  {
    SampleCondition();
    SampleInner();
    var e := ConditionalElement(ConditionalSample, "if\tI");
    assert !HasPrefix(ConditionalSample, "<!") by {
      assert ConditionalSample[..2][0] == '[';
    }
  }

  lemma SampleCondition()
    ensures FindCondition(ConditionalSample) == Some("if\tI")
  {
    var s := ConditionalSample;
    var c := "if\tI";
    assert c[..2] == "if" && IsRegexSpace(c[2]) && ']' !in c;
    assert s[0..|c| + 2] == "[" + c + "]";
    MatchesAtFound(s, 0, c);
  }

  lemma SampleInner()
    ensures InnerHtml(ConditionalSample, "if\tI") == ConditionalSample
  {
    var s := ConditionalSample;
    TrimSpaceUnchanged(s);
    var opener := " [if " + "if\tI" + "]> ";
    assert opener[0] !in s;
    ReplaceAllAbsent(s, opener, "");
    var closer := "<![endif]";
    assert closer[0] !in s;
    ReplaceAllAbsent(s, closer, "");
  }

  /** A string with no white space at either end is its own trimmed form. */
  lemma TrimSpaceUnchanged(s: string)
    requires |s| > 0 && !IsSpace(s[0]) && !IsSpace(s[|s| - 1])
    ensures TrimSpace(s) == s
  {
    assert LeadingCount(s, IsSpace) == 0;
    assert s[0..] == s;
    assert TrailingCount(s, IsSpace) == 0;
    assert s[..|s|] == s;
  }

  // ---------------------------------------------------------------------------
  // The text options of the walker
  // ---------------------------------------------------------------------------

  /** The options for the text children of `parent`: character references
      always, the pipe inside `code`. */
  function ChildTextOptions(parent: Node): (r: TextOptions)
    ensures r.encodeEntityRef && !r.wrap && !r.escapeBackslash
    ensures r.pipe <==> ToLower(parent.data) == "code"
  {
    TextOptions(true, ToLower(parent.data) == "code", false, false, false)
  }

  /** The options for the lines of a comment that spans several lines. */
  const CommentOptions := TextOptions(false, false, true, false, false)

  /** The options for a script's content outside Scalate. */
  const ScriptOptions := TextOptions(false, false, true, false, true)

  /** The options for a style's content outside Scalate. */
  const StyleOptions := TextOptions(false, false, true, false, false)

  // ---------------------------------------------------------------------------
  // Doctype resolution
  // ---------------------------------------------------------------------------

  datatype Convertor = Convertor(
    options: ConvertorOptions,
    publicIdDocTypeNames: map<string, string>,
    systemIdDocTypeNames: map<string, string>,
    writer: Writer)
  {
    /** The name the doctype line uses; `""` writes no line. */
    function ResolveDoctype(dt: Doctype): (name: string)
      ensures dt.publicId != "" ==> name == (if dt.publicId in publicIdDocTypeNames then publicIdDocTypeNames[dt.publicId] else "")
      ensures dt.publicId == "" && dt.systemId != "" ==>
        name == (if dt.systemId in systemIdDocTypeNames then systemIdDocTypeNames[dt.systemId] else "")
      ensures dt.publicId == "" && dt.systemId == "" ==> (name != "" <==> ToLower(dt.name) == "html")
      ensures dt.publicId == "" && dt.systemId == "" && name != "" ==> name == "html"
    {
      if dt.publicId != "" then
        (if dt.publicId in publicIdDocTypeNames then publicIdDocTypeNames[dt.publicId] else "")
      else if dt.systemId != "" then
        (if dt.systemId in systemIdDocTypeNames then systemIdDocTypeNames[dt.systemId] else "")
      else if dt.name != "" && ToLower(dt.name) == "html" then "html"
      else ""
    }

    /** The doctype line, when a record is present and its name resolves. */
    function DoctypeLineF(docType: Option<Doctype>, st: OutState): OutState {
      if docType.Some? && ResolveDoctype(docType.value) != "" then
        st.WriteLine("doctype " + ResolveDoctype(docType.value), true)
      else st
    }

    // -------------------------------------------------------------------------
    // What the walker writes
    // -------------------------------------------------------------------------

    /** What `Element` leaves in the output, from the state `st`. */
    function ElementF(cfg: IndentConfig, node: Option<Node>, doNotEncode: bool, st: OutState): OutState
      decreases if node.Some? then Rank(node.value) else 0, 1
    {
      if node.None? || node.value.kind != ElementNode then st
      else
        var n := node.value;
        var tagName := ToLower(n.data);
        var head := HeadOf(node);
        var attr := writer.AttrClause(node, st.indents);
        if tagName == "script" || tagName == "style" then
          if HasAttr(n, "src") then writer.WriteTextContentF(cfg, n, Plain, st.WriteLine(head + attr, true))
          else if tagName == "script" then ScriptF(cfg, n, head, attr, st)
          else StyleF(cfg, n, head, attr, st)
        else if tagName == "conditional" then
          ChildrenF(cfg, n, true, st.WriteLine("//" + GetAttr(n, "condition"), true))
        else if tagName == "pre" then PreBlockF(cfg, n, head, attr, st)
        else if options.bodyless && (tagName == "html" || tagName == "body") then ChildrenF(cfg, n, false, st)
        else if !options.keepHead && tagName == "head" then st
        else match writer.TagText(node)
          case Some(text) => st.WriteLine(head + attr + " " + (if doNotEncode then text else EscapeString(text)), true)
          case None => ChildrenF(cfg, n, true, st.WriteLine(head + attr, true))
    }

    /** What `Children` leaves in the output: the children in order, one step
        further in when `indent` is set. */
    function ChildrenF(cfg: IndentConfig, parent: Node, indent: bool, st: OutState): OutState
      decreases Rank(parent), 0
    {
      if indent then ChildLoopF(cfg, parent, parent.children, 0, st.Enter(cfg)).Leave(cfg)
      else ChildLoopF(cfg, parent, parent.children, 0, st)
    }

    /** The loop of `Children` from the child at position `i` of `kids`. */
    function ChildLoopF(cfg: IndentConfig, parent: Node, kids: seq<Node>, i: nat, st: OutState): OutState
      requires i <= |kids|
      decreases RankSum(kids[i..]), 3
    {
      if i == |kids| then st
      else
        var st2 := VisitF(cfg, parent, kids, i, st);
        VisitedShrinks(kids, i);
        ChildLoopF(cfg, parent, Visited(kids, i), i + 1, st2)
    }

    /** One turn of the loop of `Children`: the dispatch on the kind of `kids[i]`. */
    function VisitF(cfg: IndentConfig, parent: Node, kids: seq<Node>, i: nat, st: OutState): OutState
      requires i < |kids|
      decreases RankSum(kids[i..]), 2
    {
      var child := kids[i];
      RankSumSuffix(kids, i);
      match child.kind
      case ElementNode => ElementF(cfg, Some(child), false, st)
      case TextNode => TextF(child, SiblingsAt(kids, i), ChildTextOptions(parent), st)
      case CommentNode => CommentF(cfg, child, SiblingsAt(kids, i), st)
      case _ => st
    }

    /** What `Text` leaves in the output: the node's lines, after its own text
        children are merged. */
    function TextF(node: Node, sib: Siblings, opts: TextOptions, st: OutState): OutState {
      writer.WriteTextF(node.(children := Merged(node.children)), sib, opts, st)
    }

    /** What `Comment` leaves in the output. A conditional comment writes
        nothing here: its element is converted when the loop reaches it. */
    function CommentF(cfg: IndentConfig, node: Node, sib: Siblings, st: OutState): OutState {
      if FindCondition(node.data).Some? then st
      else if |node.data| == 0 || IndexFunc(node.data, IsBreak).None? then
        st.WriteLine("// " + TrimSpace(node.data), true)
      else
        writer.WriteLinesF(sib, Split(node.data, "\r\n"), CommentOptions, st.WriteLine("//", true).Enter(cfg)).Leave(cfg)
    }

    function ScriptF(cfg: IndentConfig, n: Node, head: string, attr: string, st: OutState): OutState {
      if options.scalate then writer.WriteTextContentF(cfg, n, Plain, st.WriteLine(":javascript", true))
      else writer.WriteTextContentF(cfg, n, ScriptOptions, st.WriteLine(head + attr + ".", true))
    }

    function StyleF(cfg: IndentConfig, n: Node, head: string, attr: string, st: OutState): OutState {
      if options.scalate then writer.WriteTextContentF(cfg, n, Plain, st.WriteLine(":css", true))
      else writer.WriteTextContentF(cfg, n, StyleOptions, st.WriteLine(head + attr + ".", true))
    }

    /** What the `pre` branch leaves in the output, with the block's last line
        ended by a newline once some text was written. */
    function PreBlockF(cfg: IndentConfig, n: Node, head: string, attr: string, st: OutState): OutState {
      var p := PreLoopF(n.children, |n.children|, PreState(st.WriteLine(head + attr + ".", true).Enter(cfg), true));
      (if p.firstLine then p.out else p.out.Write("\n", false)).Leave(cfg)
    }

    /** The `pre` branch as written: it ends with a `WriteLine` of the empty
        string, which writes nothing, and leaves the step as `Leave` is written. */
    function PreBlockAsWrittenF(cfg: IndentConfig, n: Node, head: string, attr: string, st: OutState): (r: OutState)
      requires cfg.useTabs || cfg.nSpaces >= 0
      ensures r.fragments == PreBlockF(cfg, n, head, attr, st).fragments ||
              r.fragments + ["\n"] == PreBlockF(cfg, n, head, attr, st).fragments
      ensures (cfg.useTabs || cfg.nSpaces >= 1) && PreSilent(n.children) ==> r == PreBlockF(cfg, n, head, attr, st)
    {
      var p0 := PreState(st.WriteLine(head + attr + ".", true).Enter(cfg), true);
      var p := PreLoopF(n.children, |n.children|, p0);
      WriteLineEmpty(p.out);
      assert "" + "\n" == "\n";
      if PreSilent(n.children) then
        PreLoopSilent(n.children, |n.children|, p0);
        LeaveStateAsWritten(cfg, p.out.WriteLine("", true))
      else LeaveStateAsWritten(cfg, p.out.WriteLine("", true))
    }

    /** What `Document` leaves in the output once the doctype record is known. */
    function DocumentF(cfg: IndentConfig, docType: Option<Doctype>, documentElement: Option<Element>, root: Option<Node>, st: OutState): OutState
      requires documentElement.Some? ==> root.Some?
    {
      var st1 := DoctypeLineF(docType, st);
      if documentElement.Some? then ChildrenF(cfg, root.value, false, st1)
      else
        var htmlEls := if root.None? then [] else ElementsNamed(root.value, "html");
        if |htmlEls| > 0 then ElementF(cfg, Some(htmlEls[0]), false, st1) else st1
    }

    // -------------------------------------------------------------------------
    // What the walker as written writes
    // -------------------------------------------------------------------------

    /** `Element` as written: the head keeps the id untrimmed, every step is
        left by `Leave` as written, and a `pre` block ends with an empty
        `WriteLine`. It is defined for the settings under which `Leave` does
        not panic. */
    function ElementAsWrittenF(cfg: IndentConfig, node: Option<Node>, doNotEncode: bool, st: OutState): OutState
      requires cfg.useTabs || cfg.nSpaces >= 0
      decreases if node.Some? then Rank(node.value) else 0, 1
    {
      if node.None? || node.value.kind != ElementNode then st
      else
        var n := node.value;
        var tagName := ToLower(n.data);
        var head := TagHeadAsWritten(node);
        var attr := writer.AttrClause(node, st.indents);
        if tagName == "script" || tagName == "style" then
          if HasAttr(n, "src") then TextContentAsWrittenF(cfg, n, Plain, st.WriteLine(head + attr, true))
          else if tagName == "script" then ScriptAsWrittenF(cfg, n, head, attr, st)
          else StyleAsWrittenF(cfg, n, head, attr, st)
        else if tagName == "conditional" then
          ChildrenAsWrittenF(cfg, n, true, st.WriteLine("//" + GetAttr(n, "condition"), true))
        else if tagName == "pre" then PreBlockAsWrittenF(cfg, n, head, attr, st)
        else if options.bodyless && (tagName == "html" || tagName == "body") then ChildrenAsWrittenF(cfg, n, false, st)
        else if !options.keepHead && tagName == "head" then st
        else match writer.TagText(node)
          case Some(text) => st.WriteLine(head + attr + " " + (if doNotEncode then text else EscapeString(text)), true)
          case None => ChildrenAsWrittenF(cfg, n, true, st.WriteLine(head + attr, true))
    }

    function ChildrenAsWrittenF(cfg: IndentConfig, parent: Node, indent: bool, st: OutState): OutState
      requires cfg.useTabs || cfg.nSpaces >= 0
      decreases Rank(parent), 0
    {
      if indent then LeaveStateAsWritten(cfg, ChildLoopAsWrittenF(cfg, parent, parent.children, 0, st.Enter(cfg)))
      else ChildLoopAsWrittenF(cfg, parent, parent.children, 0, st)
    }

    function ChildLoopAsWrittenF(cfg: IndentConfig, parent: Node, kids: seq<Node>, i: nat, st: OutState): OutState
      requires i <= |kids| && (cfg.useTabs || cfg.nSpaces >= 0)
      decreases RankSum(kids[i..]), 3
    {
      if i == |kids| then st
      else
        var st2 := VisitAsWrittenF(cfg, parent, kids, i, st);
        VisitedShrinks(kids, i);
        ChildLoopAsWrittenF(cfg, parent, Visited(kids, i), i + 1, st2)
    }

    function VisitAsWrittenF(cfg: IndentConfig, parent: Node, kids: seq<Node>, i: nat, st: OutState): OutState
      requires i < |kids| && (cfg.useTabs || cfg.nSpaces >= 0)
      decreases RankSum(kids[i..]), 2
    {
      var child := kids[i];
      RankSumSuffix(kids, i);
      match child.kind
      case ElementNode => ElementAsWrittenF(cfg, Some(child), false, st)
      case TextNode => TextF(child, SiblingsAt(kids, i), ChildTextOptions(parent), st)
      case CommentNode => CommentAsWrittenF(cfg, child, SiblingsAt(kids, i), st)
      case _ => st
    }

    function CommentAsWrittenF(cfg: IndentConfig, node: Node, sib: Siblings, st: OutState): OutState
      requires cfg.useTabs || cfg.nSpaces >= 0
    {
      if FindCondition(node.data).Some? then st
      else if |node.data| == 0 || IndexFunc(node.data, IsBreak).None? then
        st.WriteLine("// " + TrimSpace(node.data), true)
      else
        LeaveStateAsWritten(cfg, writer.WriteLinesF(sib, Split(node.data, "\r\n"), CommentOptions, st.WriteLine("//", true).Enter(cfg)))
    }

    /** `WriteTextContent` with `Leave` as written. */
    function TextContentAsWrittenF(cfg: IndentConfig, n: Node, opts: TextOptions, st: OutState): OutState
      requires cfg.useTabs || cfg.nSpaces >= 0
    {
      LeaveStateAsWritten(cfg, writer.ChildTextsF(n.children, |n.children|, opts, st.Enter(cfg)))
    }

    function ScriptAsWrittenF(cfg: IndentConfig, n: Node, head: string, attr: string, st: OutState): OutState
      requires cfg.useTabs || cfg.nSpaces >= 0
    {
      if options.scalate then TextContentAsWrittenF(cfg, n, Plain, st.WriteLine(":javascript", true))
      else TextContentAsWrittenF(cfg, n, ScriptOptions, st.WriteLine(head + attr + ".", true))
    }

    function StyleAsWrittenF(cfg: IndentConfig, n: Node, head: string, attr: string, st: OutState): OutState
      requires cfg.useTabs || cfg.nSpaces >= 0
    {
      if options.scalate then TextContentAsWrittenF(cfg, n, Plain, st.WriteLine(":css", true))
      else TextContentAsWrittenF(cfg, n, StyleOptions, st.WriteLine(head + attr + ".", true))
    }

    function DocumentAsWrittenF(cfg: IndentConfig, docType: Option<Doctype>, documentElement: Option<Element>, root: Option<Node>, st: OutState): OutState
      requires documentElement.Some? ==> root.Some?
      requires cfg.useTabs || cfg.nSpaces >= 0
    {
      var st1 := DoctypeLineF(docType, st);
      if documentElement.Some? then ChildrenAsWrittenF(cfg, root.value, false, st1)
      else
        var htmlEls := if root.None? then [] else ElementsNamed(root.value, "html");
        if |htmlEls| > 0 then ElementAsWrittenF(cfg, Some(htmlEls[0]), false, st1) else st1
    }

    // -------------------------------------------------------------------------
    // The walker
    // -------------------------------------------------------------------------

    method Element(node: Option<Node>, out: StringOutput, doNotEncode: bool)
      modifies out
      ensures out.State() == ElementF(out.options, node, doNotEncode, old(out.State()))
      decreases if node.Some? then Rank(node.value) else 0, 1
    {
      if node.None? || node.value.kind != ElementNode {
        return;
      }
      var n := node.value;
      var tagName := ToLower(n.data);
      var tagHead := writer.TagHead(node);
      var indents := out.GetIndents();
      var tagAttr := writer.TagAttribute(node, indents);
      var tagText := writer.TagText(node);
      if tagName == "script" || tagName == "style" {
        if HasAttr(n, "src") {
          out.WriteLine(tagHead + tagAttr, true);
          writer.WriteTextContent(n, out, Plain);
        } else if tagName == "script" {
          Script(n, out, tagHead, tagAttr);
        } else {
          Style(n, out, tagHead, tagAttr);
        }
      } else if tagName == "conditional" {
        var cond := GetAttr(n, "condition");
        out.WriteLine("//" + cond, true);
        Children(n, out, true);
      } else if tagName == "pre" {
        PreBlock(n, out, tagHead, tagAttr);
      } else if options.bodyless && (tagName == "html" || tagName == "body") {
        Children(n, out, false);
      } else if !options.keepHead && tagName == "head" {
        // the head and its children are skipped
      } else if tagText.Some? {
        if doNotEncode {
          out.WriteLine(tagHead + tagAttr + " " + tagText.value, true);
        } else {
          out.WriteLine(tagHead + tagAttr + " " + EscapeString(tagText.value), true);
        }
      } else {
        out.WriteLine(tagHead + tagAttr, true);
        Children(n, out, true);
      }
    }

    method Children(parent: Node, out: StringOutput, indent: bool)
      modifies out
      ensures out.State() == ChildrenF(out.options, parent, indent, old(out.State()))
      decreases Rank(parent), 0
    {
      if indent {
        out.Enter();
      }
      ghost var st1 := out.State();
      var kids := parent.children;
      var i := 0;
      assert kids[0..] == kids;
      while i < |kids|
        invariant i <= |kids|
        invariant RankSum(kids[i..]) <= RankSum(parent.children)
        invariant ChildLoopF(out.options, parent, kids, i, out.State()) == ChildLoopF(out.options, parent, parent.children, 0, st1)
        decreases RankSum(kids[i..])
      {
        VisitedShrinks(kids, i);
        kids := VisitChild(parent, kids, i, out);
        i := i + 1;
      }
      if indent {
        out.Leave();
      }
    }

    /** One turn of the loop of `Children`; the result is the parent's children
        afterwards. */
    method VisitChild(parent: Node, kids: seq<Node>, i: nat, out: StringOutput) returns (next: seq<Node>)
      requires i < |kids|
      modifies out
      ensures next == Visited(kids, i)
      ensures out.State() == VisitF(out.options, parent, kids, i, old(out.State()))
      decreases RankSum(kids[i..]), 2
    {
      var child := kids[i];
      next := kids;
      RankSumSuffix(kids, i);
      match child.kind
      case ElementNode => Element(Some(child), out, false);
      case TextNode => Text(child, SiblingsAt(kids, i), out, ChildTextOptions(parent));
      case CommentNode => next := Comment(kids, i, out);
      case _ =>
    }

    /** `Comment` on `kids[i]`; the result is the parent's children afterwards. */
    method Comment(kids: seq<Node>, i: nat, out: StringOutput) returns (next: seq<Node>)
      requires i < |kids| && kids[i].kind == CommentNode
      modifies out
      ensures next == Visited(kids, i)
      ensures out.State() == CommentF(out.options, kids[i], SiblingsAt(kids, i), old(out.State()))
    {
      var node := kids[i];
      var condition := FindCondition(node.data);
      if condition.None? {
        next := kids;
        var data := node.data;
        if |data| == 0 || IndexFunc(data, IsBreak).None? {
          out.WriteLine("// " + TrimSpace(data), true);
        } else {
          out.WriteLine("//", true);
          out.Enter();
          var lines := Split(data, "\r\n");
          writer.WritePieces(SiblingsAt(kids, i), lines, out, CommentOptions);
          out.Leave();
        }
      } else {
        next := Conditional(kids, i, condition.value);
      }
    }

    /** `Conditional` for the comment `kids[i]`: the parent's children with the
        new element appended. */
    method Conditional(kids: seq<Node>, i: nat, condition: string) returns (next: seq<Node>)
      requires i < |kids|
      ensures next == kids + [ConditionalElement(kids[i].data, condition)]
    {
      var innerHtml := TrimSpace(kids[i].data);
      innerHtml := ReplaceAll(innerHtml, " [if " + condition + "]> ", "");
      innerHtml := ReplaceAll(innerHtml, "<![endif]", "");
      var cond := condition;
      if HasPrefix(innerHtml, "<!") {
        cond := " [" + condition + "] <!";
        innerHtml := "";
      }
      var children: seq<Node> := [];
      if innerHtml != "" {
        children := [Node(TextNode, innerHtml, [], [])];
      }
      next := kids + [Node(ElementNode, "conditional", [Attribute("condition", cond)], children)];
    }

    method Text(node: Node, sib: Siblings, out: StringOutput, opts: TextOptions)
      modifies out
      ensures out.State() == TextF(node, sib, opts, old(out.State()))
    {
      var normalized := NormalizeTextNode(node);
      writer.WriteText(normalized, sib, out, opts);
    }

    method Script(n: Node, out: StringOutput, tagHead: string, tagAttr: string)
      modifies out
      ensures out.State() == ScriptF(out.options, n, tagHead, tagAttr, old(out.State()))
    {
      if options.scalate {
        out.WriteLine(":javascript", true);
        writer.WriteTextContent(n, out, Plain);
      } else {
        out.WriteLine(tagHead + tagAttr + ".", true);
        writer.WriteTextContent(n, out, ScriptOptions);
      }
    }

    method Style(n: Node, out: StringOutput, tagHead: string, tagAttr: string)
      modifies out
      ensures out.State() == StyleF(out.options, n, tagHead, tagAttr, old(out.State()))
    {
      if options.scalate {
        out.WriteLine(":css", true);
        writer.WriteTextContent(n, out, Plain);
      } else {
        out.WriteLine(tagHead + tagAttr + ".", true);
        writer.WriteTextContent(n, out, StyleOptions);
      }
    }

    /** The `pre` branch of `Element`, with its last line ended. */
    method PreBlock(n: Node, out: StringOutput, tagHead: string, tagAttr: string)
      modifies out
      ensures out.State() == PreBlockF(out.options, n, tagHead, tagAttr, old(out.State()))
    {
      out.WriteLine(tagHead + tagAttr + ".", true);
      out.Enter();
      ghost var p0 := PreState(out.State(), true);
      var firstLine := true;
      var kids := n.children;
      var i := 0;
      while i < |kids|
        invariant i <= |kids|
        invariant PreState(out.State(), firstLine) == PreLoopF(kids, i, p0)
      {
        firstLine := PreChild(kids[i], firstLine, out);
        i := i + 1;
      }
      if !firstLine {
        out.Write("\n", false);
      }
      out.Leave();
    }

    method Document(document: Document, out: StringOutput)
      requires document.documentElement.Some? ==> document.root.Some?
      modifies document, out
      ensures document.doctype == DocTypeAfter(document.Chain(), old(document.doctype))
      ensures out.State() == DocumentF(out.options, document.doctype, document.documentElement, document.root, old(out.State()))
    {
      var docType := document.GetDocType();
      if docType.Some? {
        var docTypeName := ResolveDoctype(docType.value);
        if docTypeName != "" {
          out.WriteLine("doctype " + docTypeName, true);
        }
      }
      if document.documentElement.Some? {
        Children(document.root.value, out, false);
      } else {
        var htmlEls := document.GetElementsByTagName("html");
        if |htmlEls| > 0 {
          Element(Some(htmlEls[0]), out, false);
        }
      }
    }

    // -------------------------------------------------------------------------
    // The walk keeps the indentation and ends its lines
    // -------------------------------------------------------------------------

    /** A line followed by a node's text content continues the output. */
    lemma LineThenContentExtends(cfg: IndentConfig, n: Node, opts: TextOptions, line: string, st: OutState)
      requires Uniform(cfg, st.indents)
      ensures Extends(st, writer.WriteTextContentF(cfg, n, opts, st.WriteLine(line, true)))
    {
      var st1 := st.WriteLine(line, true);
      WriteLineExtends(st, line);
      writer.ContentBalanced(cfg, n, opts, st1);
      AddsLinesExtends(st1, writer.WriteTextContentF(cfg, n, opts, st1), st1.indents + Repeat(cfg.Unit(), cfg.Width()));
    }

    lemma ScriptExtends(cfg: IndentConfig, n: Node, head: string, attr: string, st: OutState)
      requires Uniform(cfg, st.indents)
      ensures Extends(st, ScriptF(cfg, n, head, attr, st))
    {
      if options.scalate {
        LineThenContentExtends(cfg, n, Plain, ":javascript", st);
      } else {
        LineThenContentExtends(cfg, n, ScriptOptions, head + attr + ".", st);
      }
    }

    lemma StyleExtends(cfg: IndentConfig, n: Node, head: string, attr: string, st: OutState)
      requires Uniform(cfg, st.indents)
      ensures Extends(st, StyleF(cfg, n, head, attr, st))
    {
      if options.scalate {
        LineThenContentExtends(cfg, n, Plain, ":css", st);
      } else {
        LineThenContentExtends(cfg, n, StyleOptions, head + attr + ".", st);
      }
    }

    lemma TextExtends(node: Node, sib: Siblings, opts: TextOptions, st: OutState)
      ensures Extends(st, TextF(node, sib, opts, st))
    {
      var m := node.(children := Merged(node.children));
      writer.TextAddsLines(m, sib, opts, st);
      AddsLinesExtends(st, writer.WriteTextF(m, sib, opts, st), st.indents);
    }

    lemma CommentExtends(cfg: IndentConfig, node: Node, sib: Siblings, st: OutState)
      requires Uniform(cfg, st.indents)
      ensures Extends(st, CommentF(cfg, node, sib, st))
    {
      if FindCondition(node.data).None? {
        if |node.data| == 0 || IndexFunc(node.data, IsBreak).None? {
          WriteLineExtends(st, "// " + TrimSpace(node.data));
        } else {
          var st1 := st.WriteLine("//", true);
          WriteLineExtends(st, "//");
          var st2 := st1.Enter(cfg);
          var ls := Split(node.data, "\r\n");
          writer.LinesAddLines(sib, ls, CommentOptions, st2);
          AddsLinesExtends(st2, writer.WriteLinesF(sib, ls, CommentOptions, st2), st2.indents);
          EnterLeaveExtends(cfg, st1, writer.WriteLinesF(sib, ls, CommentOptions, st2));
          ExtendsTrans(st, st1, CommentF(cfg, node, sib, st));
        }
      }
    }

    /** The `pre` block continues the output; once it wrote any text after its
        head line, it ends at a line start whatever state it started from. */
    lemma PreBlockEndsLine(cfg: IndentConfig, n: Node, head: string, attr: string, st: OutState)
      requires Uniform(cfg, st.indents)
      ensures Extends(st, PreBlockF(cfg, n, head, attr, st))
      ensures PreBlockF(cfg, n, head, attr, st).fragments != st.WriteLine(head + attr + ".", true).fragments ==>
        AtLineStart(PreBlockF(cfg, n, head, attr, st))
    {
      var st1 := st.WriteLine(head + attr + ".", true);
      WriteLineExtends(st, head + attr + ".");
      var p0 := PreState(st1.Enter(cfg), true);
      var p := PreLoopF(n.children, |n.children|, p0);
      PreLoopExtends(n.children, |n.children|, p0);
      var end := if p.firstLine then p.out else p.out.Write("\n", false);
      assert Extends(st1.Enter(cfg), end);
      EnterLeaveExtends(cfg, st1, end);
      ExtendsTrans(st, st1, end.Leave(cfg));
    }

    lemma {:induction false} ElementExtends(cfg: IndentConfig, node: Option<Node>, doNotEncode: bool, st: OutState)
      requires Uniform(cfg, st.indents)
      ensures Extends(st, ElementF(cfg, node, doNotEncode, st))
      decreases if node.Some? then Rank(node.value) else 0, 1
    {
      if node.Some? && node.value.kind == ElementNode {
        var n := node.value;
        var tagName := ToLower(n.data);
        var head := HeadOf(node);
        var attr := writer.AttrClause(node, st.indents);
        if tagName == "script" || tagName == "style" {
          if HasAttr(n, "src") {
            LineThenContentExtends(cfg, n, Plain, head + attr, st);
          } else if tagName == "script" {
            ScriptExtends(cfg, n, head, attr, st);
          } else {
            StyleExtends(cfg, n, head, attr, st);
          }
        } else if tagName == "conditional" {
          LineThenChildrenExtends(cfg, n, "//" + GetAttr(n, "condition"), st);
        } else if tagName == "pre" {
          PreBlockEndsLine(cfg, n, head, attr, st);
        } else if options.bodyless && (tagName == "html" || tagName == "body") {
          ChildrenExtends(cfg, n, false, st);
        } else if !options.keepHead && tagName == "head" {
        } else if writer.TagText(node).Some? {
          var text := writer.TagText(node).value;
          WriteLineExtends(st, head + attr + " " + (if doNotEncode then text else EscapeString(text)));
        } else {
          LineThenChildrenExtends(cfg, n, head + attr, st);
        }
      }
    }

    lemma {:induction false} LineThenChildrenExtends(cfg: IndentConfig, n: Node, line: string, st: OutState)
      requires Uniform(cfg, st.indents)
      ensures Extends(st, ChildrenF(cfg, n, true, st.WriteLine(line, true)))
      decreases Rank(n), 0, 1
    {
      WriteLineExtends(st, line);
      ChildrenExtends(cfg, n, true, st.WriteLine(line, true));
      ExtendsTrans(st, st.WriteLine(line, true), ChildrenF(cfg, n, true, st.WriteLine(line, true)));
    }

    lemma {:induction false} ChildrenExtends(cfg: IndentConfig, parent: Node, indent: bool, st: OutState)
      requires Uniform(cfg, st.indents)
      ensures Extends(st, ChildrenF(cfg, parent, indent, st))
      decreases Rank(parent), 0, 0
    {
      assert parent.children[0..] == parent.children;
      if indent {
        EnterThenLeave(cfg, st);
        ChildLoopExtends(cfg, parent, parent.children, 0, st.Enter(cfg));
        EnterLeaveExtends(cfg, st, ChildLoopF(cfg, parent, parent.children, 0, st.Enter(cfg)));
      } else {
        ChildLoopExtends(cfg, parent, parent.children, 0, st);
      }
    }

    lemma {:induction false} ChildLoopExtends(cfg: IndentConfig, parent: Node, kids: seq<Node>, i: nat, st: OutState)
      requires i <= |kids| && Uniform(cfg, st.indents)
      ensures Extends(st, ChildLoopF(cfg, parent, kids, i, st))
      decreases RankSum(kids[i..]), 3
    {
      if i < |kids| {
        var st2 := VisitF(cfg, parent, kids, i, st);
        VisitExtends(cfg, parent, kids, i, st);
        VisitedShrinks(kids, i);
        ChildLoopExtends(cfg, parent, Visited(kids, i), i + 1, st2);
        ExtendsTrans(st, st2, ChildLoopF(cfg, parent, Visited(kids, i), i + 1, st2));
      }
    }

    lemma {:induction false} VisitExtends(cfg: IndentConfig, parent: Node, kids: seq<Node>, i: nat, st: OutState)
      requires i < |kids| && Uniform(cfg, st.indents)
      ensures Extends(st, VisitF(cfg, parent, kids, i, st))
      decreases RankSum(kids[i..]), 2
    {
      var child := kids[i];
      RankSumSuffix(kids, i);
      match child.kind
      case ElementNode => ElementExtends(cfg, Some(child), false, st);
      case TextNode => TextExtends(child, SiblingsAt(kids, i), ChildTextOptions(parent), st);
      case CommentNode => CommentExtends(cfg, child, SiblingsAt(kids, i), st);
      case _ =>
    }

    /** A document converted from `st` continues it; from an empty output the
        text `Final` returns is empty or ends with a newline, and the
        indentation is back to none. */
    lemma DocumentExtends(cfg: IndentConfig, docType: Option<Doctype>, documentElement: Option<Element>, root: Option<Node>, st: OutState)
      requires documentElement.Some? ==> root.Some?
      requires Uniform(cfg, st.indents)
      ensures Extends(st, DocumentF(cfg, docType, documentElement, root, st))
      ensures st == OutState("", []) ==>
        var r := DocumentF(cfg, docType, documentElement, root, st);
        r.indents == "" && (r.Text() == "" || r.Text()[|r.Text()| - 1] == '\n')
    {
      var st1 := DoctypeLineF(docType, st);
      if docType.Some? && ResolveDoctype(docType.value) != "" {
        WriteLineExtends(st, "doctype " + ResolveDoctype(docType.value));
      }
      var r := DocumentF(cfg, docType, documentElement, root, st);
      if documentElement.Some? {
        ChildrenExtends(cfg, root.value, false, st1);
      } else {
        var htmlEls := if root.None? then [] else ElementsNamed(root.value, "html");
        if |htmlEls| > 0 {
          ElementExtends(cfg, Some(htmlEls[0]), false, st1);
        }
      }
      ExtendsTrans(st, st1, r);
      if st == OutState("", []) {
        TextEndsLine(r);
      }
    }

    // -------------------------------------------------------------------------
    // The `pre` block as written
    // -------------------------------------------------------------------------

    /** As written, a `pre` block whose text does not end with a newline leaves
        the output in the middle of a line, so the next line is glued to it:
        `pre` holding `x`, from an empty output with two-space steps, ends with
        the fragment of two spaces, a backslash, `n` and `x`. */
    lemma PreBlockAsWrittenLeavesLineOpen()
      ensures AtLineStart(OutState("", []))
      ensures var r := PreBlockAsWrittenF(IndentConfig(false, 2), PreSample, "pre", "", OutState("", []));
        !AtLineStart(r) && r.fragments == PreSampleOut.fragments
    {
      PreSampleLoop();
      var cfg := IndentConfig(false, 2);
      WriteLineEmpty(PreSampleOut);
      assert LeaveStateAsWritten(cfg, PreSampleOut).fragments == PreSampleOut.fragments;
      var last := PreSampleOut.fragments[1];
      assert last[|last| - 1] == 'x';
    }

    /** The corrected block ends the same text with a newline. */
    lemma PreBlockSampleEndsLine()
      ensures var r := PreBlockF(IndentConfig(false, 2), PreSample, "pre", "", OutState("", []));
        AtLineStart(r) && r.fragments == PreSampleOut.fragments + ["\n"]
    {
      PreSampleLoop();
      CloseAndLeave(PreSampleOut, IndentConfig(false, 2));
    }

    // -------------------------------------------------------------------------
    // The walker as written against the corrected walker
    // -------------------------------------------------------------------------

    /** Where the corrections make no difference, the walker is the code as
        written: with tabs or at least one space per step, on a tree whose ids
        need no trimming and whose `pre` elements hold only blank text. */
    lemma {:induction false} ElementAsWrittenAgrees(cfg: IndentConfig, node: Option<Node>, doNotEncode: bool, st: OutState)
      requires cfg.useTabs || cfg.nSpaces >= 1
      requires node.Some? ==> Unaffected(node.value)
      ensures ElementAsWrittenF(cfg, node, doNotEncode, st) == ElementF(cfg, node, doNotEncode, st)
      decreases if node.Some? then Rank(node.value) else 0, 1
    {
      if node.Some? && node.value.kind == ElementNode {
        var n := node.value;
        var tagName := ToLower(n.data);
        var head := HeadOf(node);
        var attr := writer.AttrClause(node, st.indents);
        assert TagHeadAsWritten(node) == head;
        if tagName == "script" || tagName == "style" {
        } else if tagName == "conditional" {
          ChildrenAsWrittenAgrees(cfg, n, true, st.WriteLine("//" + GetAttr(n, "condition"), true));
        } else if tagName == "pre" {
          var p0 := PreState(st.WriteLine(head + attr + ".", true).Enter(cfg), true);
          PreLoopSilent(n.children, |n.children|, p0);
          WriteLineEmpty(p0.out);
        } else if options.bodyless && (tagName == "html" || tagName == "body") {
          ChildrenAsWrittenAgrees(cfg, n, false, st);
        } else if !options.keepHead && tagName == "head" {
        } else if writer.TagText(node).None? {
          ChildrenAsWrittenAgrees(cfg, n, true, st.WriteLine(head + attr, true));
        }
      }
    }

    lemma {:induction false} ChildrenAsWrittenAgrees(cfg: IndentConfig, parent: Node, indent: bool, st: OutState)
      requires cfg.useTabs || cfg.nSpaces >= 1
      requires forall k :: 0 <= k < |parent.children| ==> Unaffected(parent.children[k])
      ensures ChildrenAsWrittenF(cfg, parent, indent, st) == ChildrenF(cfg, parent, indent, st)
      decreases Rank(parent), 0
    {
      assert parent.children[0..] == parent.children;
      if indent {
        ChildLoopAsWrittenAgrees(cfg, parent, parent.children, 0, st.Enter(cfg));
      } else {
        ChildLoopAsWrittenAgrees(cfg, parent, parent.children, 0, st);
      }
    }

    lemma {:induction false} ChildLoopAsWrittenAgrees(cfg: IndentConfig, parent: Node, kids: seq<Node>, i: nat, st: OutState)
      requires i <= |kids| && (cfg.useTabs || cfg.nSpaces >= 1)
      requires forall k :: 0 <= k < |kids| ==> Unaffected(kids[k])
      ensures ChildLoopAsWrittenF(cfg, parent, kids, i, st) == ChildLoopF(cfg, parent, kids, i, st)
      decreases RankSum(kids[i..]), 3
    {
      if i < |kids| {
        var st2 := VisitF(cfg, parent, kids, i, st);
        VisitAsWrittenAgrees(cfg, parent, kids, i, st);
        VisitedShrinks(kids, i);
        VisitedUnaffected(kids, i);
        ChildLoopAsWrittenAgrees(cfg, parent, Visited(kids, i), i + 1, st2);
      }
    }

    lemma {:induction false} VisitAsWrittenAgrees(cfg: IndentConfig, parent: Node, kids: seq<Node>, i: nat, st: OutState)
      requires i < |kids| && (cfg.useTabs || cfg.nSpaces >= 1)
      requires forall k :: 0 <= k < |kids| ==> Unaffected(kids[k])
      ensures VisitAsWrittenF(cfg, parent, kids, i, st) == VisitF(cfg, parent, kids, i, st)
      decreases RankSum(kids[i..]), 2
    {
      var child := kids[i];
      RankSumSuffix(kids, i);
      if child.kind == ElementNode {
        ElementAsWrittenAgrees(cfg, Some(child), false, st);
      }
    }

    /** A whole document converted where the corrections make no difference
        is the code as written. */
    lemma DocumentAsWrittenAgrees(cfg: IndentConfig, docType: Option<Doctype>, documentElement: Option<Element>, root: Option<Node>, st: OutState)
      requires documentElement.Some? ==> root.Some?
      requires cfg.useTabs || cfg.nSpaces >= 1
      requires root.Some? ==> Unaffected(root.value)
      ensures DocumentAsWrittenF(cfg, docType, documentElement, root, st) == DocumentF(cfg, docType, documentElement, root, st)
    {
      var st1 := DoctypeLineF(docType, st);
      if documentElement.Some? {
        ChildrenAsWrittenAgrees(cfg, root.value, false, st1);
      } else if root.Some? {
        var htmlEls := ElementsNamed(root.value, "html");
        if |htmlEls| > 0 {
          ElementsNamedUnaffected(root.value, "html");
          ElementAsWrittenAgrees(cfg, Some(htmlEls[0]), false, st1);
        }
      }
    }

    /** As written, with the zero default of `nSpaces`, the children of an
        element are left one step deeper than they were entered: an element
        without children leaves the indentation two spaces longer, where the
        corrected walker restores it. */
    lemma ChildrenAsWrittenDeepens(parent: Node, st: OutState)
      requires parent.children == [] && Uniform(IndentConfig(false, 0), st.indents)
      ensures ChildrenAsWrittenF(IndentConfig(false, 0), parent, true, st).indents == st.indents + "  "
      ensures ChildrenF(IndentConfig(false, 0), parent, true, st) == st
    {
      var cfg := IndentConfig(false, 0);
      assert Repeat(' ', 2) == "  ";
      EnterThenLeave(cfg, st);
    }

    // -------------------------------------------------------------------------
    // Comments
    // -------------------------------------------------------------------------

    /** A one-line comment that is not conditional becomes the line `// ` and
        its trimmed text. */
    lemma CommentOneLine(cfg: IndentConfig, node: Node, sib: Siblings, st: OutState)
      requires FindCondition(node.data).None? && IndexFunc(node.data, IsBreak).None?
      ensures CommentF(cfg, node, sib, st).indents == st.indents
      ensures CommentF(cfg, node, sib, st).Text() == st.Text() + st.indents + "// " + TrimSpace(node.data) + "\n"
    {
      CommentLineText(st, TrimSpace(node.data));
    }

    /** A comment over several lines becomes the line `//` and, one step
        deeper, its pieces; no word is lost or added. */
    lemma CommentWords(cfg: IndentConfig, node: Node, sib: Siblings, st: OutState)
      requires FindCondition(node.data).None? && IndexFunc(node.data, IsBreak).Some?
      requires Uniform(cfg, st.indents)
      ensures FlatFields(CommentF(cfg, node, sib, st).fragments) == FlatFields(st.fragments) + ["//"] + Fields(node.data)
    {
      var st1 := st.WriteLine("//", true);
      UniformSpaces(cfg, st.indents);
      WriteLineWords(st, "//");
      FieldsOfWord("//");
      var st2 := st1.Enter(cfg);
      EnterThenLeave(cfg, st1);
      UniformSpaces(cfg, st2.indents);
      var ls := Split(node.data, "\r\n");
      writer.LinesWords(sib, ls, CommentOptions, st2);
      FieldsOfCrlfSplit(node.data);
    }

    // -------------------------------------------------------------------------
    // The doctype line
    // -------------------------------------------------------------------------

    /** The record `GetDocType` stores has no name and no identifiers, so it
        never resolves and no doctype line is written for a parsed document. */
    lemma ParsedDoctypeWritesNothing(chain: seq<Node>, st: OutState)
      ensures DoctypeLineF(DocTypeAfter(chain, None), st) == st
    {
      if exists i :: 0 <= i < |chain| && chain[i].kind == DoctypeNode {
        assert DocTypeAfter(chain, None) == Some(Doctype("", "", ""));
      } else {
        assert DocTypeAfter(chain, None) == None;
      }
    }
  }

  // ---------------------------------------------------------------------------
  // The `pre` text
  // ---------------------------------------------------------------------------

  /** The state of the `pre` loop: the output and whether no text was written yet. */
  datatype PreState = PreState(out: OutState, firstLine: bool)

  /** One text of a `pre` block as written: the first one loses its leading
      line breaks and gets a literal `\n`; tabs become a literal `\t`; then
      `\r\n`, `\r` and `\n` are each replaced by a newline and the indentation. */
  function PreText(data: string, first: bool, ind: string): (r: string)
    ensures '\r' !in ind ==> '\r' !in r
    ensures '\t' !in ind ==> '\t' !in r
  {
    var d := if first then "\\n" + TrimLeftFunc(data, IsBreak) else data;
    var d1 := ReplaceAll(d, "\t", "\\t");
    var d2 := ReplaceAll(d1, "\r\n", "\n" + ind);
    var d3 := ReplaceAll(d2, "\r", "\n" + ind);
    PreReplaceCharacters(d, ind);
    ReplaceAll(d3, "\n", "\n" + ind)
  }

  /** A text child that is not blank is written; any other child is skipped. */
  function PreStep(c: Node, p: PreState): (r: PreState)
    ensures r.out.indents == p.out.indents
    ensures r.firstLine ==> p.firstLine
    ensures c.kind == TextNode && TrimSpace(c.data) != "" ==>
      !r.firstLine && r.out.fragments == p.out.fragments + [p.out.indents + PreText(c.data, p.firstLine, p.out.indents)]
    ensures !(c.kind == TextNode && TrimSpace(c.data) != "") ==> r == p
  {
    if c.kind == TextNode && TrimSpace(c.data) != "" then
      PreState(p.out.Write(PreText(c.data, p.firstLine, p.out.indents), true), false)
    else p
  }

  /** The first `n` children of a `pre` element through the loop. */
  function PreLoopF(kids: seq<Node>, n: nat, p: PreState): PreState
    requires n <= |kids|
  {
    if n == 0 then p else PreStep(kids[n - 1], PreLoopF(kids, n - 1, p))
  }

  /** A `pre` element holding the one text `x`. */
  const PreSample := Node(ElementNode, "pre", [], [Node(TextNode, "x", [], [])])

  /** The output after the loop over `PreSample`, from an empty output with
      two-space steps: the head line and the text after the indentation. */
  const PreSampleOut := OutState("  ", ["pre.\n", "  \\nx"])

  lemma WriteLineEmpty(st: OutState)
    ensures st.WriteLine("", true) == st
  {
    assert TrimFunc("", IsBlank) == "";
  }

  /** Ending the line and leaving the step, as the corrected block does. */
  lemma CloseAndLeave(st: OutState, cfg: IndentConfig)
    requires |st.indents| >= cfg.Width()
    ensures st.Write("\n", false).Leave(cfg) == OutState(st.indents[cfg.Width()..], st.fragments + ["\n"])
    ensures AtLineStart(st.Write("\n", false).Leave(cfg))
  {
    assert "" + "\n" == "\n";
  }

  lemma PreSampleLoop()
    ensures PreLoopF(PreSample.children, |PreSample.children|,
                     PreState(OutState("", []).WriteLine("pre" + "" + ".", true).Enter(IndentConfig(false, 2)), true))
         == PreState(PreSampleOut, false)
  {
    PreSampleHead();
    assert Repeat(' ', 2) == "  ";
    var st2 := OutState("  ", ["pre.\n"]);
    assert OutState("", ["pre.\n"]).Enter(IndentConfig(false, 2)) == st2;
    var kid := Node(TextNode, "x", [], []);
    assert PreSample.children == [kid];
    TrimmedWord("x");
    PreStepPlain("x", st2);
    assert PreLoopF([kid], 1, PreState(st2, true)) == PreStep(kid, PreState(st2, true));
    assert "\\n" + "x" == "\\nx";
    assert "  " + "\\nx" == "  \\nx";
  }

  /** The first text of a block, holding no tab, carriage return or newline
      and not blank, is written after the indentation and a literal `\n`. */
  lemma PreStepPlain(t: string, st: OutState)
    requires '\t' !in t && '\r' !in t && '\n' !in t && TrimSpace(t) != ""
    ensures PreStep(Node(TextNode, t, [], []), PreState(st, true))
         == PreState(OutState(st.indents, st.fragments + [st.indents + ("\\n" + t)]), false)
  {
    PreTextOfPlain(t, st.indents);
  }

  lemma PreSampleHead()
    ensures OutState("", []).WriteLine("pre" + "" + ".", true) == OutState("", ["pre.\n"])
  {
    assert "pre" + "" + "." == "pre.";
    TrimFuncEmpty("pre.", IsBlank);
    assert !IsBlank("pre."[0]);
    assert "" + "pre." + "\n" == "pre.\n";
  }

  /** The first text of a block, when it holds no tab, carriage return or
      newline, is written as a literal `\n` followed by the text. */
  lemma PreTextOfPlain(t: string, ind: string)
    requires '\t' !in t && '\r' !in t && '\n' !in t
    ensures PreText(t, true, ind) == "\\n" + t
  {
    if t != [] {
      assert !IsBreak(t[0]);
    }
    assert LeadingCount(t, IsBreak) == 0;
    assert t[0..] == t;
    var d := "\\n" + t;
    assert d[0] == '\\' && d[1] == 'n' && d[2..] == t;
    assert '\t' !in d && '\r' !in d && '\n' !in d by {
      forall i | 0 <= i < |d|
        ensures d[i] != '\t' && d[i] != '\r' && d[i] != '\n'
      {
        if i >= 2 {
          assert d[i] == t[i - 2];
        }
      }
    }
    PreTextPlain(t, true, ind);
  }

  /** A text holding no tab, carriage return or newline is written as it is. */
  lemma PreTextPlain(data: string, first: bool, ind: string)
    requires var d := if first then "\\n" + TrimLeftFunc(data, IsBreak) else data;
      '\t' !in d && '\r' !in d && '\n' !in d
    ensures PreText(data, first, ind) == if first then "\\n" + TrimLeftFunc(data, IsBreak) else data
  {
    var d := if first then "\\n" + TrimLeftFunc(data, IsBreak) else data;
    assert "\t"[0] == '\t' && "\r\n"[0] == '\r' && "\r"[0] == '\r' && "\n"[0] == '\n';
    ReplaceAllAbsent(d, "\t", "\\t");
    ReplaceAllAbsent(d, "\r\n", "\n" + ind);
    ReplaceAllAbsent(d, "\r", "\n" + ind);
    ReplaceAllAbsent(d, "\n", "\n" + ind);
  }

  /** One child of a `pre` element through the loop. */
  method PreChild(child: Node, firstLine: bool, out: StringOutput) returns (first: bool)
    modifies out
    ensures PreState(out.State(), first) == PreStep(child, PreState(old(out.State()), firstLine))
  {
    first := firstLine;
    if child.kind == TextNode {
      var data := child.data;
      if TrimSpace(data) != "" {
        if first {
          data := TrimLeftFunc(data, IsBreak);
          data := "\\n" + data;
          first := false;
        }
        var indents := out.GetIndents();
        data := ReplaceAll(data, "\t", "\\t");
        data := ReplaceAll(data, "\r\n", "\n" + indents);
        data := ReplaceAll(data, "\r", "\n" + indents);
        data := ReplaceAll(data, "\n", "\n" + indents);
        out.Write(data, true);
      }
    }
  }

  /** The converter with the options it is built from; its doctype tables are
      never filled. */
  function NewConvertor(options: ConvertorOptions, writer: Writer): (c: Convertor)
    ensures c.options == options && c.writer == writer
    ensures c.publicIdDocTypeNames == map[] && c.systemIdDocTypeNames == map[]
  {
    Convertor(options, map[], map[], writer)
  }

  /** A converter built by `NewConvertor` resolves a doctype record only when it
      has no public and no system identifier and is named `html` in any case. */
  lemma NewConvertorResolvesOnlyHtml(options: ConvertorOptions, writer: Writer, dt: Doctype)
    ensures NewConvertor(options, writer).ResolveDoctype(dt) != "" <==>
      dt.publicId == "" && dt.systemId == "" && ToLower(dt.name) == "html"
  {
  }

  /** The lookup by tag name the converter defines for itself: the document
      element alone when its lower-cased tag name is `tag`, nothing otherwise. */
  function GetElementsByTagName(doc: Document, tag: string): (r: seq<Element>)
    ensures |r| <= 1
    ensures |r| == 1 <==> doc.documentElement.Some? && ToLower(doc.documentElement.value.tagName) == tag
    ensures |r| == 1 ==> r[0] == doc.documentElement.value
  {
    if doc.documentElement.Some? && ToLower(doc.documentElement.value.tagName) == tag then [doc.documentElement.value]
    else []
  }

  // ---------------------------------------------------------------------------
  // The meaning of the condition pattern
  // ---------------------------------------------------------------------------

  /** `ConditionAt` captures `c` at `q` exactly when the pattern matches there
      with that capture. */
  lemma ConditionAtMatches(s: string, q: nat, c: string)
    ensures ConditionAt(s, q) == Some(c) <==> MatchesAt(s, q, c)
  {
    if ConditionAt(s, q) == Some(c) {
      ConditionAtSound(s, q);
    }
    if MatchesAt(s, q, c) {
      MatchesAtFound(s, q, c);
    }
  }

  lemma ConditionAtSound(s: string, q: nat)
    requires ConditionAt(s, q).Some?
    ensures MatchesAt(s, q, ConditionAt(s, q).value)
  {
    var t := s[q + 3..];
    var j := IndexFunc(t, IsCloseBracket).value;
    var seg := t[..j];
    var c := "if" + seg;
    assert c[2] == seg[0];
    forall i | 0 <= i < |c|
      ensures c[i] != ']'
    {
      if i >= 2 {
        assert c[i] == t[i - 2];
      }
    }
    assert s[q..q + |c| + 2] == s[q..q + 3] + seg + [t[j]];
  }

  lemma MatchesAtFound(s: string, q: nat, c: string)
    requires MatchesAt(s, q, c)
    ensures ConditionAt(s, q) == Some(c)
  {
    var w := "[" + c + "]";
    assert s[q..q + |w|] == w;
    assert s[q..q + 3] == w[..3];
    var t := s[q + 3..];
    var j := |c| - 2;
    forall i | 0 <= i < j
      ensures t[i] == c[i + 2] && !IsCloseBracket(t[i])
    {
      assert t[i] == w[i + 3] == c[i + 2];
    }
    assert t[j] == w[|c| + 1];
    var r := IndexFunc(t, IsCloseBracket);
    assert r == Some(j);
    assert t[..j] == c[2..];
    assert c == "if" + c[2..];
  }

  /** `FindCondition` finds nothing exactly when the pattern matches nowhere,
      and otherwise the capture of the leftmost match. */
  lemma FindConditionLeftmost(s: string)
    ensures FindCondition(s).None? <==> forall q: nat, c: string :: !MatchesAt(s, q, c)
    ensures FindCondition(s).Some? ==>
      exists q: nat :: MatchesAt(s, q, FindCondition(s).value) && forall p: nat, c: string :: p < q ==> !MatchesAt(s, p, c)
  {
    match FirstCondition(s, 0)
    case None =>
      forall q: nat, c: string
        ensures !MatchesAt(s, q, c)
      {
        ConditionAtMatches(s, q, c);
      }
    case Some(m) =>
      ConditionAtMatches(s, m.0, m.1);
      forall p: nat, c: string | p < m.0
        ensures !MatchesAt(s, p, c)
      {
        ConditionAtMatches(s, p, c);
      }
  }

  // ---------------------------------------------------------------------------
  // Trees on which the corrections make no difference
  // ---------------------------------------------------------------------------

  /** Every text child is blank, so the `pre` loop writes nothing. */
  predicate PreSilent(kids: seq<Node>) {
    forall k :: 0 <= k < |kids| ==> kids[k].kind == TextNode ==> TrimSpace(kids[k].data) == ""
  }

  /** A tree on which the corrected head and the corrected end of a `pre`
      block change nothing: every element's last `id` value has no white
      space around it, and every `pre` element holds only blank text. */
  predicate Unaffected(n: Node)
    decreases n
  {
    (n.kind == ElementNode ==>
      TrimSpace(LastAttr(n.attr, "id")) == LastAttr(n.attr, "id") &&
      (ToLower(n.data) == "pre" ==> PreSilent(n.children))) &&
    forall k :: 0 <= k < |n.children| ==> Unaffected(n.children[k])
  }

  lemma {:induction false} PreLoopSilent(kids: seq<Node>, n: nat, p: PreState)
    requires n <= |kids| && PreSilent(kids)
    ensures PreLoopF(kids, n, p) == p
  {
    if n > 0 {
      PreLoopSilent(kids, n - 1, p);
    }
  }

  /** The element a conditional comment appends has no `id` and is no `pre`. */
  lemma ConditionalUnaffected(data: string, condition: string)
    ensures Unaffected(ConditionalElement(data, condition))
  {
    var e := ConditionalElement(data, condition);
    assert e.attr[..0] == [];
    assert LastAttr(e.attr, "id") == "";
    assert TrimSpace("") == "" by {
      assert ""[0..] == "";
    }
    assert |ToLower(e.data)| == 11;
  }

  lemma VisitedUnaffected(kids: seq<Node>, i: nat)
    requires i < |kids|
    requires forall k :: 0 <= k < |kids| ==> Unaffected(kids[k])
    ensures forall k :: 0 <= k < |Visited(kids, i)| ==> Unaffected(Visited(kids, i)[k])
  {
    var c := kids[i];
    if c.kind == CommentNode && FindCondition(c.data).Some? {
      ConditionalUnaffected(c.data, FindCondition(c.data).value);
    }
  }

  lemma {:induction false} ElementsNamedUnaffected(n: Node, tagName: string)
    requires Unaffected(n)
    ensures forall k :: 0 <= k < |ElementsNamed(n, tagName)| ==> Unaffected(ElementsNamed(n, tagName)[k])
    decreases n, 1
  {
    ElementsNamedAllUnaffected(n.children, tagName);
  }

  lemma {:induction false} ElementsNamedAllUnaffected(kids: seq<Node>, tagName: string)
    requires forall k :: 0 <= k < |kids| ==> Unaffected(kids[k])
    ensures forall k :: 0 <= k < |ElementsNamedAll(kids, tagName)| ==> Unaffected(ElementsNamedAll(kids, tagName)[k])
    decreases kids, 0
  {
    if kids != [] {
      ElementsNamedUnaffected(kids[0], tagName);
      ElementsNamedAllUnaffected(kids[1..], tagName);
    }
  }

  // ---------------------------------------------------------------------------
  // How the walk extends the output
  // ---------------------------------------------------------------------------

  predicate EndsWithNewline(f: string) {
    |f| > 0 && f[|f| - 1] == '\n'
  }

  /** Nothing is written yet, or the last fragment ends a line. */
  predicate AtLineStart(st: OutState) {
    st.fragments == [] || EndsWithNewline(st.fragments[|st.fragments| - 1])
  }

  /** `st2` continues `st`: the same indentation, the fragments of `st`
      followed by new ones, and at a line start again if `st` was. */
  predicate Extends(st: OutState, st2: OutState) {
    st2.indents == st.indents && st.fragments <= st2.fragments &&
    (AtLineStart(st) ==> AtLineStart(st2))
  }

  lemma ExtendsTrans(a: OutState, b: OutState, c: OutState)
    requires Extends(a, b) && Extends(b, c)
    ensures Extends(a, c)
  {
  }

  lemma WriteLineExtends(st: OutState, data: string)
    ensures Extends(st, st.WriteLine(data, true))
  {
  }

  /** Whole lines at any indentation continue the output. */
  lemma AddsLinesExtends(st: OutState, st2: OutState, ind: string)
    requires AddsLines(st, st2, ind)
    ensures Extends(st, st2)
  {
    if |st2.fragments| > |st.fragments| {
      assert IsLineAt(ind, st2.fragments[|st2.fragments| - 1]);
    } else {
      assert st2.fragments == st2.fragments[..|st.fragments|];
    }
  }

  /** A stretch that starts with `Enter` and ends with `Leave` continues the
      output when what lies between continues the entered state. */
  lemma EnterLeaveExtends(cfg: IndentConfig, st: OutState, inner: OutState)
    requires Uniform(cfg, st.indents) && Extends(st.Enter(cfg), inner)
    ensures Extends(st, inner.Leave(cfg))
  {
    EnterThenLeave(cfg, st);
    assert inner.Leave(cfg).indents == st.Enter(cfg).Leave(cfg).indents;
  }

  lemma CommentLineText(st: OutState, t: string)
    ensures st.WriteLine("// " + t, true).indents == st.indents
    ensures st.WriteLine("// " + t, true).Text() == st.Text() + st.indents + "// " + t + "\n"
  {
    var line := "// " + t;
    assert line[0] != ' ';
    TextOfWriteLine(st, line, true);
  }

  /** The text `Final` returns ends a line when the output is at a line start. */
  lemma TextEndsLine(st: OutState)
    requires AtLineStart(st)
    ensures st.Text() == "" || st.Text()[|st.Text()| - 1] == '\n'
  {
    if st.fragments != [] {
      var fr := st.fragments;
      assert fr == fr[..|fr| - 1] + [fr[|fr| - 1]];
      JoinEmptySnoc(fr[..|fr| - 1], fr[|fr| - 1]);
    }
  }

  // ---------------------------------------------------------------------------
  // The `pre` loop and its text
  // ---------------------------------------------------------------------------

  /** The loop keeps the indentation and only appends; while no text was
      written, nothing changed. */
  lemma {:induction false} PreLoopExtends(kids: seq<Node>, n: nat, p: PreState)
    requires n <= |kids|
    ensures PreLoopF(kids, n, p).out.indents == p.out.indents
    ensures p.out.fragments <= PreLoopF(kids, n, p).out.fragments
    ensures PreLoopF(kids, n, p).firstLine ==> PreLoopF(kids, n, p) == p
  {
    if n > 0 {
      PreLoopExtends(kids, n - 1, p);
    }
  }

  /** The replacements of a `pre` text leave no `\r`, and no tab unless the
      indentation holds one. */
  lemma PreReplaceCharacters(d: string, ind: string)
    ensures var d3 := ReplaceAll(ReplaceAll(ReplaceAll(d, "\t", "\\t"), "\r\n", "\n" + ind), "\r", "\n" + ind);
      ('\r' !in ind ==> '\r' !in ReplaceAll(d3, "\n", "\n" + ind)) &&
      ('\t' !in ind ==> '\t' !in ReplaceAll(d3, "\n", "\n" + ind))
  {
    var d1 := ReplaceAll(d, "\t", "\\t");
    var d2 := ReplaceAll(d1, "\r\n", "\n" + ind);
    var d3 := ReplaceAll(d2, "\r", "\n" + ind);
    assert "\t" == ['\t'] && "\r" == ['\r'] && "\n" == ['\n'];
    if '\r' !in ind {
      ReplaceAllRemoves(d2, '\r', "\n" + ind);
      ReplaceAllKeepsAbsent(d3, "\n", "\n" + ind, '\r');
    }
    if '\t' !in ind {
      ReplaceAllRemoves(d, '\t', "\\t");
      ReplaceAllKeepsAbsent(d1, "\r\n", "\n" + ind, '\t');
      ReplaceAllKeepsAbsent(d2, "\r", "\n" + ind, '\t');
      ReplaceAllKeepsAbsent(d3, "\n", "\n" + ind, '\t');
    }
  }

  /** A `\n` line break in a `pre` text gets the indentation once. */
  lemma PreTextIndentsLf()
    ensures PreText("a\nb", false, "  ") == "a\n  b"
  {
    var d := "a\nb";
    assert "\t" == ['\t'] && "\r" == ['\r'];
    ReplaceAllAbsent(d, "\t", "\\t");
    ReplaceAllAbsent(d, "\r\n", "\n  ");
    ReplaceAllAbsent(d, "\r", "\n  ");
    ReplaceAllSkips("a", "\nb", "\n", "\n  ");
    assert "a" + "\nb" == d;
    var tail := ReplaceAll("\nb", "\n", "\n  ");
    assert "\nb"[..1] == "\n";
    assert tail == "\n  " + ReplaceAll("b", "\n", "\n  ");
  }

  /** A `\r\n` line break gets it twice: the first replacement inserts a `\n`
      that the last one indents again. */
  lemma PreTextIndentsCrlfTwice()
    ensures PreText("a\r\nb", false, "  ") == "a\n    b"
  {
    var d := "a\r\nb";
    assert "\t" == ['\t'] && "\r" == ['\r'];
    ReplaceAllAbsent(d, "\t", "\\t");
    CrlfToIndentedLf();
    var d2 := "a\n  b";
    ReplaceAllAbsent(d2, "\r", "\n  ");
    LfIndentedAgain();
    assert "\n" + "  " == "\n  ";
  }

  lemma CrlfToIndentedLf()
    ensures ReplaceAll("a\r\nb", "\r\n", "\n  ") == "a\n  b"
  {
    ReplaceAllSkips("a", "\r\nb", "\r\n", "\n  ");
    assert "a" + "\r\nb" == "a\r\nb";
    assert "\r\nb"[..2] == "\r\n" && "\r\nb"[2..] == "b";
    assert ReplaceAll("\r\nb", "\r\n", "\n  ") == "\n  b";
  }

  lemma LfIndentedAgain()
    ensures ReplaceAll("a\n  b", "\n", "\n  ") == "a\n    b"
  {
    ReplaceAllSkips("a", "\n  b", "\n", "\n  ");
    assert "a" + "\n  b" == "a\n  b";
    assert "\n  b"[..1] == "\n" && "\n  b"[1..] == "  b";
    ReplaceAllAbsent("  b", "\n", "\n  ");
    assert ReplaceAll("\n  b", "\n", "\n  ") == "\n    b";
  }

  // ---------------------------------------------------------------------------
  // The words of a comment
  // ---------------------------------------------------------------------------

  /** Splitting at `\r\n` keeps the words of the text. */
  lemma {:induction false} FieldsOfCrlfSplit(s: string)
    ensures FlatFields(Split(s, "\r\n")) == Fields(s)
    decreases |s|
  {
    match IndexOf(s, "\r\n")
    case None =>
      assert [s][1..] == [];
    case Some(k) =>
      var rest := s[k + 2..];
      FieldsOfCrlfSplit(rest);
      assert ([s[..k]] + Split(rest, "\r\n"))[1..] == Split(rest, "\r\n");
      assert s == s[..k] + ['\r'] + (['\n'] + rest) by {
        assert s[k..k + 2] == "\r\n";
        SplitAround(s, k, 2);
      }
      FieldsSeparated(s[..k], '\r', ['\n'] + rest);
      assert [] + ['\n'] + rest == ['\n'] + rest;
      FieldsSeparated([], '\n', rest);
  }
}
