/**
 * The formatting rules of the Pug writer (`pkg/html2pug-go/writer.go`): the
 * greedy word wrapper, attribute quoting, the tag head and attribute clause, the
 * inline-text test and the per-line text pipeline.
 *
 * The writer's fields are never changed after construction, so `Writer` is a
 * datatype. Its quotes are single characters: the source keeps them as
 * one-character strings.
 */
module Writers {
  import opened Wrappers
  import opened GoStrings
  import opened Dom
  import opened Entities
  import opened Util
  import opened Output

  /** An option flag that is unset reads as `false`. */
  function Flag(b: Option<bool>): bool {
    b.Some? && b.value
  }

  /** The writer settings in force: a missing record reads as one with every
      field unset. */
  function SettingsOf(options: ConvertorOptions): WriterOptions {
    if options.writerOptions.Some? then options.writerOptions.value else NoWriterOptions
  }

  /** A writer built from the converter options. Every unset flag reads as
      `false` and an unset wrap length as 80. */
  function NewWriter(options: ConvertorOptions): (w: Writer)
    ensures w.Quotes()
    ensures options.writerOptions.None? ==> w == Writer(80, false, ", ", '\'', '"', false)
    ensures SettingsOf(options).wrapLength.Some? ==> w.wrapLength == SettingsOf(options).wrapLength.value
    ensures SettingsOf(options).wrapLength.None? ==> w.wrapLength == 80
    ensures w.scalate <==> Flag(SettingsOf(options).scalate)
    ensures w.attrSep == " " || w.attrSep == ", "
    ensures w.attrSep == " " <==> Flag(SettingsOf(options).scalate) || Flag(SettingsOf(options).noAttrComma)
    ensures w.attrQuote == '"' <==> Flag(SettingsOf(options).double)
    ensures w.attrQuote == '\'' <==> !Flag(SettingsOf(options).double)
    ensures w.noEmptyPipe <==> Flag(SettingsOf(options).noEmptyPipe)
  {
    var o := SettingsOf(options);
    var scalate := Flag(o.scalate);
    var double := Flag(o.double);
    Writer(
      if o.wrapLength.Some? then o.wrapLength.value else 80,
      scalate,
      if scalate || Flag(o.noAttrComma) then " " else ", ",
      if double then '"' else '\'',
      if double then '\'' else '"',
      Flag(o.noEmptyPipe))
  }

  /** A line made of words separated by single spaces, with no space at either end. */
  predicate GoodLine(l: string) {
    l == Join(Fields(l), " ")
  }

  /** The fields of every line, one after the other. */
  function FlatFields(ls: seq<string>): seq<string>
    decreases |ls|
  {
    if ls == [] then [] else Fields(ls[0]) + FlatFields(ls[1..])
  }

  /** The size that bounds the recursion of `WriteTextLine`: the number of words,
      plus one when the line still holds an ASCII space. */
  function Measure(line: string): nat {
    |Fields(line)| + (if ' ' in line then 1 else 0)
  }

  function MaxMeasure(ls: seq<string>): nat
    decreases |ls|
  {
    if ls == [] then 0
    else
      var m := MaxMeasure(ls[..|ls| - 1]);
      var last := Measure(ls[|ls| - 1]);
      if m < last then last else m
  }

  datatype Writer = Writer(
    wrapLength: int,
    scalate: bool,
    attrSep: string,
    attrQuote: char,
    nonAttrQuote: char,
    noEmptyPipe: bool)
  {
    /** The two quote characters are the ASCII single and double quote, one of each. */
    predicate Quotes() {
      (attrQuote == '\'' && nonAttrQuote == '"') || (attrQuote == '"' && nonAttrQuote == '\'')
    }

    function AttrQuoteEscaped(): string {
      ['\\', attrQuote]
    }

    // -------------------------------------------------------------------------
    // BreakLine
    // -------------------------------------------------------------------------

    /** The loop of `BreakLine` from a state where `words` are still to be placed,
        `current` is the line being filled and `lines` are the finished lines. */
    function Greedy(words: seq<string>, current: string, lines: seq<string>): seq<string>
      decreases |words|
    {
      if words == [] then (if |current| > 0 then lines + [current] else lines)
      else
        var word := words[0];
        if |current| + |word| > wrapLength then Greedy(words[1..], word, lines + [current])
        else if |current| > 0 then Greedy(words[1..], current + " " + word, lines)
        else Greedy(words[1..], word, lines)
    }

    /** What `BreakLine` returns. */
    function BrokenLines(line: string): seq<string> {
      if |line| == 0 then []
      else if ' ' !in line then [line]
      else Greedy(Fields(line), "", [])
    }

    method BreakLine(line: string) returns (lines: seq<string>)
      ensures lines == BrokenLines(line)
    {
      if |line| == 0 {
        return [];
      }
      if ' ' !in line {
        return [line];
      }
      lines := [];
      var currentLine := "";
      var words := Fields(line);
      while |words| > 0
        invariant Greedy(words, currentLine, lines) == Greedy(Fields(line), "", [])
        decreases |words|
      {
        var word := words[0];
        words := words[1..];
        if |currentLine| + |word| > wrapLength {
          lines := lines + [currentLine];
          currentLine := word;
        } else if |currentLine| > 0 {
          currentLine := currentLine + " " + word;
        } else {
          currentLine := word;
        }
      }
      if |currentLine| > 0 {
        lines := lines + [currentLine];
      }
    }

    /** A line the wrapper may produce: words separated by single spaces and, when
        it holds more than one word, at most one character longer than the wrap
        length and made of words that each fit it. */
    predicate LineOk(l: string) {
      GoodLine(l) &&
      (|Fields(l)| >= 2 ==>
         |l| <= wrapLength + 1 && forall k :: 0 <= k < |Fields(l)| ==> |Fields(l)[k]| <= wrapLength)
    }

    lemma WordIsLineOk(w: string)
      requires IsWord(w)
      ensures Fields(w) == [w] && LineOk(w)
    {
      FieldsOfWord(w);
    }

    /** Appending a word that fits to a non-empty line keeps it a wrapper line. */
    lemma ExtendLine(cur: string, w: string)
      requires LineOk(cur) && cur != "" && IsWord(w)
      requires |cur| + |w| <= wrapLength
      ensures Fields(cur + " " + w) == Fields(cur) + [w]
      ensures LineOk(cur + " " + w)
    {
      var l := cur + " " + w;
      assert l == cur + [' '] + w;
      FieldsSeparated(cur, ' ', w);
      FieldsOfWord(w);
      var fs := Fields(cur);
      assert Join([], " ") == "";
      JoinSnoc(fs, w, " ");
      assert |fs| == 1 ==> cur == fs[0];
      forall k | 0 <= k < |Fields(l)|
        ensures |Fields(l)[k]| <= wrapLength
      {
        if k == |fs| {
          assert Fields(l)[k] == w;
        } else {
          assert Fields(l)[k] == fs[k];
        }
      }
    }

    lemma {:induction false} GreedyPrefix(ws: seq<string>, cur: string, acc: seq<string>)
      ensures Greedy(ws, cur, acc) == acc + Greedy(ws, cur, [])
      decreases |ws|
    {
      if ws != [] {
        var w := ws[0];
        if |cur| + |w| > wrapLength {
          GreedyPrefix(ws[1..], w, acc + [cur]);
          GreedyPrefix(ws[1..], w, [cur]);
          assert [] + [cur] == [cur];
        } else if |cur| > 0 {
          GreedyPrefix(ws[1..], cur + " " + w, acc);
        } else {
          GreedyPrefix(ws[1..], w, acc);
        }
      }
    }

    lemma AllWordsTail(ws: seq<string>)
      requires AllWords(ws) && ws != []
      ensures IsWord(ws[0]) && AllWords(ws[1..])
    {
      var more := ws[1..];
      forall k | 0 <= k < |more| ensures IsWord(more[k]) {
        assert more[k] == ws[k + 1];
      }
    }

    lemma FlatFieldsCons(l: string, ls: seq<string>)
      ensures FlatFields([l] + ls) == Fields(l) + FlatFields(ls)
    {
      assert ([l] + ls)[1..] == ls;
    }

    /** Every line the loop produces from `ws` and `cur` is a wrapper line. */
    lemma {:induction false} GreedyLinesOk(ws: seq<string>, cur: string)
      requires AllWords(ws) && LineOk(cur)
      ensures forall i :: 0 <= i < |Greedy(ws, cur, [])| ==> LineOk(Greedy(ws, cur, [])[i])
      decreases |ws|
    {
      var empty: seq<string> := [];
      assert empty + [cur] == [cur];
      if ws != [] {
        var w := ws[0];
        assert IsWord(w);
        WordIsLineOk(w);
        if |cur| + |w| > wrapLength {
          GreedyLinesOk(ws[1..], w);
          GreedyPrefix(ws[1..], w, [cur]);
        } else if |cur| > 0 {
          ExtendLine(cur, w);
          GreedyLinesOk(ws[1..], cur + " " + w);
        } else {
          GreedyLinesOk(ws[1..], w);
        }
      }
    }

    /** The lines the loop produces hold the words of `cur` and then `ws`. */
    lemma {:induction false} GreedyWords(ws: seq<string>, cur: string)
      requires AllWords(ws) && LineOk(cur)
      ensures FlatFields(Greedy(ws, cur, [])) == Fields(cur) + ws
      decreases |ws|, 2
    {
      if ws == [] {
        var empty: seq<string> := [];
        assert empty + [cur] == [cur];
        if |cur| > 0 {
          FlatFieldsCons(cur, []);
        } else {
          assert Fields(cur) == [];
        }
      } else {
        GreedyWordsStep(ws, cur);
      }
    }

    /** One word placed: it starts a new line or joins the current one. */
    lemma {:induction false} GreedyWordsStep(ws: seq<string>, cur: string)
      requires AllWords(ws) && LineOk(cur) && ws != []
      ensures FlatFields(Greedy(ws, cur, [])) == Fields(cur) + ws
      decreases |ws|, 1
    {
      var w := ws[0];
      AllWordsTail(ws);
      WordIsLineOk(w);
      if |cur| + |w| > wrapLength {
        GreedyWordsBreak(ws, cur);
      } else if |cur| > 0 {
        ExtendLine(cur, w);
        GreedyWords(ws[1..], cur + " " + w);
        assert ws == [w] + ws[1..];
      } else {
        assert Fields(cur) == [];
        GreedyWords(ws[1..], w);
        assert ws == [w] + ws[1..];
      }
    }

    /** The word does not fit: the current line is finished and the word starts
        the next. */
    lemma {:induction false} GreedyWordsBreak(ws: seq<string>, cur: string)
      requires AllWords(ws) && LineOk(cur) && ws != []
      requires |cur| + |ws[0]| > wrapLength
      ensures FlatFields(Greedy(ws, cur, [])) == Fields(cur) + ws
      decreases |ws|, 0
    {
      var w := ws[0];
      var more := ws[1..];
      AllWordsTail(ws);
      WordIsLineOk(w);
      var empty: seq<string> := [];
      assert empty + [cur] == [cur];
      GreedyWords(more, w);
      GreedyPrefix(more, w, [cur]);
      FlatFieldsCons(cur, Greedy(more, w, []));
      assert ws == [w] + more;
    }

    /** Once the line being filled is non-empty, no empty line is produced. */
    lemma {:induction false} GreedyNoEmptyLine(ws: seq<string>, cur: string)
      requires AllWords(ws) && cur != ""
      ensures forall i :: 0 <= i < |Greedy(ws, cur, [])| ==> Greedy(ws, cur, [])[i] != ""
      decreases |ws|
    {
      var empty: seq<string> := [];
      assert empty + [cur] == [cur];
      if ws != [] {
        var w := ws[0];
        assert IsWord(w);
        if |cur| + |w| > wrapLength {
          GreedyNoEmptyLine(ws[1..], w);
          GreedyPrefix(ws[1..], w, [cur]);
        } else {
          GreedyNoEmptyLine(ws[1..], cur + " " + w);
        }
      }
    }

    /** A line being filled that is already too long is finished as it is. */
    lemma GreedyHead(ws: seq<string>, cur: string)
      requires AllWords(ws) && |cur| > wrapLength && cur != ""
      ensures |Greedy(ws, cur, [])| >= 1 && Greedy(ws, cur, [])[0] == cur
    {
      if ws != [] {
        assert IsWord(ws[0]);
        GreedyPrefix(ws[1..], ws[0], [cur]);
        assert [] + [cur] == [cur];
      }
    }

    /** Every word of the line reaches the output, in order, none lost or added; a
        line without a space is returned whole and the empty line yields nothing. */
    lemma BrokenLinesKeepWords(line: string)
      ensures FlatFields(BrokenLines(line)) == Fields(line)
      ensures Fields(Join(BrokenLines(line), " ")) == Fields(line)
      ensures line == "" ==> BrokenLines(line) == []
      ensures line != "" && ' ' !in line ==> BrokenLines(line) == [line]
    {
      if ' ' in line {
        GreedyWords(Fields(line), "");
      } else if line != "" {
        FlatFieldsCons(line, []);
      }
      FieldsOfJoinedLines(BrokenLines(line));
    }

    /** A line that holds an ASCII space is broken into wrapper lines: one with
        several words is at most one character longer than the wrap length, and
        a word longer than the wrap length is on a line of its own. */
    lemma BrokenLinesFit(line: string)
      requires ' ' in line
      ensures forall i :: 0 <= i < |BrokenLines(line)| ==> LineOk(BrokenLines(line)[i])
      ensures forall i, k ::
        (0 <= i < |BrokenLines(line)| && 0 <= k < |Fields(BrokenLines(line)[i])| &&
         |Fields(BrokenLines(line)[i])[k]| > wrapLength) ==> BrokenLines(line)[i] == Fields(BrokenLines(line)[i])[k]
    {
      var ls := BrokenLines(line);
      GreedyLinesOk(Fields(line), "");
      forall i, k | 0 <= i < |ls| && 0 <= k < |Fields(ls[i])| && |Fields(ls[i])[k]| > wrapLength
        ensures ls[i] == Fields(ls[i])[k]
      {
        assert LineOk(ls[i]);
        assert |Fields(ls[i])| == 1;
      }
    }

    /** Breaking a line that holds a space into anything but a single line makes
        every piece strictly smaller by `Measure`, which bounds the recursion of
        `WriteTextLine`. */
    lemma BrokenLinesShrink(e: string)
      requires ' ' in e && |BrokenLines(e)| != 1
      ensures forall i :: 0 <= i < |BrokenLines(e)| ==> Measure(BrokenLines(e)[i]) < Measure(e)
      ensures MaxMeasure(BrokenLines(e)) < Measure(e)
    {
      var ws := Fields(e);
      var n := |ws|;
      var ls := BrokenLines(e);
      if ws != [] {
        var w0 := ws[0];
        assert IsWord(w0);
        WordIsLineOk(w0);
        assert ' ' !in w0;
        var rest := Greedy(ws[1..], w0, []);
        GreedyLinesOk(ws[1..], w0);
        GreedyWords(ws[1..], w0);
        GreedyNoEmptyLine(ws[1..], w0);
        assert ws == [w0] + ws[1..];
        forall j | 0 <= j < |rest|
          ensures |Fields(rest[j])| >= 1 && Measure(rest[j]) <= |Fields(rest[j])| + (if |Fields(rest[j])| >= 2 then 1 else 0)
        {
          GoodLineMeasure(rest[j]);
        }
        if |w0| > wrapLength {
          var empty: seq<string> := [];
          assert empty + [""] == [""];
          GreedyPrefix(ws[1..], w0, [""]);
          assert ls == [""] + rest;
          GreedyHead(ws[1..], w0);
          assert Fields("") == [];
          forall i | 0 <= i < |ls|
            ensures Measure(ls[i]) < Measure(e)
          {
            if i == 1 {
              assert ls[1] == w0;
            } else if i > 1 {
              FlatFieldsBound(rest, i - 1);
              assert ls[i] == rest[i - 1];
            }
          }
        } else {
          assert ls == rest;
          forall i | 0 <= i < |ls|
            ensures Measure(ls[i]) < Measure(e)
          {
            FlatFieldsBound(rest, i);
          }
        }
      }
      MaxMeasureBelow(ls, Measure(e));
    }

    // -------------------------------------------------------------------------
    // BuildTagAttribute
    // -------------------------------------------------------------------------

    /** `name=` and the value in quotes: the primary quote when the value lacks
        it, else the other quote when the value lacks that, else the primary
        quote with every primary quote inside escaped by a backslash. */
    function BuildTagAttribute(name: string, value: string): (r: string)
      ensures HasPrefix(r, name + "=")
      ensures attrQuote !in value ==> r == name + "=" + [attrQuote] + value + [attrQuote]
      ensures attrQuote in value && nonAttrQuote !in value ==> r == name + "=" + [nonAttrQuote] + value + [nonAttrQuote]
      ensures attrQuote in value && nonAttrQuote in value ==>
        r == name + "=" + [attrQuote] + ReplaceAll(value, [attrQuote], AttrQuoteEscaped()) + [attrQuote]
    {
      var q := if attrQuote !in value || nonAttrQuote in value then attrQuote else nonAttrQuote;
      var body := if attrQuote in value && nonAttrQuote in value
        then ReplaceAll(value, [attrQuote], AttrQuoteEscaped()) else value;
      assert (name + "=" + [q] + body + [q])[..|name + "="|] == name + "=";
      name + "=" + [q] + body + [q]
    }

    /** Read as a quoted string, the text after `name=` is the value again, for
        every value without a backslash. */
    lemma AttributeReadsBack(name: string, value: string)
      requires Quotes() && '\\' !in value
      ensures Unquote(BuildTagAttribute(name, value)[|name| + 1..]) == Some(value)
    {
      var r := BuildTagAttribute(name, value);
      var q := if attrQuote !in value || nonAttrQuote in value then attrQuote else nonAttrQuote;
      var body := if attrQuote in value && nonAttrQuote in value
        then ReplaceAll(value, [attrQuote], AttrQuoteEscaped()) else value;
      assert r[|name| + 1..] == [q] + (body + [q]);
      if attrQuote in value && nonAttrQuote in value {
        ReplaceAllChar(value, attrQuote, AttrQuoteEscaped());
        ReadEscaped(value, attrQuote);
      } else {
        ReadPlain(value, q);
      }
    }

    // -------------------------------------------------------------------------
    // TagAttribute
    // -------------------------------------------------------------------------

    /** The entries one attribute contributes to the attribute clause: none for a
        valid id (it is written as `#id` in the head), one `class` entry holding
        the invalid class names when there are any, and one entry with the line
        breaks escaped for every other attribute. */
    function AttrEntry(a: Attribute, indents: string): seq<string> {
      if a.key == "id" && IsValidJadeId(a.val) then []
      else if a.key == "class" then
        var invalid := InvalidClassNames(Fields(a.val));
        if |invalid| > 0 then [BuildTagAttribute(a.key, Join(invalid, " "))] else []
      else [BuildTagAttribute(a.key, EscapeAttrBreaks(a.val, indents))]
    }

    function AttrEntries(attrs: seq<Attribute>, indents: string): seq<string>
      decreases |attrs|
    {
      if attrs == [] then []
      else AttrEntries(attrs[..|attrs| - 1], indents) + AttrEntry(attrs[|attrs| - 1], indents)
    }

    /** What `TagAttribute` returns. */
    function AttrClause(node: Option<Node>, indents: string): string {
      if node.None? || node.value.kind != ElementNode || |node.value.attr| == 0 then ""
      else
        var entries := AttrEntries(node.value.attr, indents);
        if |entries| > 0 then "(" + Join(entries, attrSep) + ")" else ""
    }

    method TagAttribute(node: Option<Node>, indents: string) returns (r: string)
      ensures r == AttrClause(node, indents)
      ensures node.None? || node.value.kind != ElementNode || |node.value.attr| == 0 ==> r == ""
      ensures r != "" ==> |r| >= 2 && r[0] == '(' && r[|r| - 1] == ')'
    {
      if node.None? || node.value.kind != ElementNode || |node.value.attr| == 0 {
        return "";
      }
      var attrs := node.value.attr;
      var result: seq<string> := [];
      var i := 0;
      while i < |attrs|
        invariant 0 <= i <= |attrs|
        invariant result == AttrEntries(attrs[..i], indents)
      {
        assert attrs[..i + 1][..i] == attrs[..i];
        var entry := AttrEntryOf(attrs[i], indents);
        result := result + entry;
        i := i + 1;
      }
      assert attrs[..|attrs|] == attrs;
      if |result| > 0 {
        r := "(" + Join(result, attrSep) + ")";
      } else {
        r := "";
      }
    }

    /** The body of the attribute loop: what one attribute adds to the clause. */
    method AttrEntryOf(attr: Attribute, indents: string) returns (entry: seq<string>)
      ensures entry == AttrEntry(attr, indents)
    {
      entry := [];
      if attr.key == "id" && IsValidJadeId(attr.val) {
        // a valid id is written in the head
      } else if attr.key == "class" {
        var invalidClassNames := FilterInvalidClassNames(Fields(attr.val));
        if |invalidClassNames| > 0 {
          entry := [BuildTagAttribute(attr.key, Join(invalidClassNames, " "))];
        }
      } else {
        entry := [BuildTagAttribute(attr.key, EscapeAttrBreaks(attr.val, indents))];
      }
    }

    lemma {:induction false} AttrEntriesAppend(a: seq<Attribute>, b: seq<Attribute>, indents: string)
      ensures AttrEntries(a + b, indents) == AttrEntries(a, indents) + AttrEntries(b, indents)
      decreases |b|
    {
      if b == [] {
        assert a + b == a;
      } else {
        var init := b[..|b| - 1];
        assert (a + b)[..|a + b| - 1] == a + init;
        AttrEntriesAppend(a, init, indents);
      }
    }

    /** Without `id` and `class` attributes, the clause has one entry per
        attribute, in order, each with its line breaks escaped. */
    lemma {:induction false} AttrEntriesOther(attrs: seq<Attribute>, indents: string)
      requires forall k :: 0 <= k < |attrs| ==> attrs[k].key != "id" && attrs[k].key != "class"
      ensures |AttrEntries(attrs, indents)| == |attrs|
      ensures forall k :: 0 <= k < |attrs| ==>
        AttrEntries(attrs, indents)[k] == BuildTagAttribute(attrs[k].key, EscapeAttrBreaks(attrs[k].val, indents))
      decreases |attrs|
    {
      if attrs != [] {
        var init := attrs[..|attrs| - 1];
        AttrEntriesOther(init, indents);
      }
    }

    /** A valid `id` attribute contributes nothing to the clause: the clause is the
        one of the other attributes. */
    lemma AttrEntriesSkipValidId(attrs: seq<Attribute>, k: nat, indents: string)
      requires k < |attrs| && attrs[k].key == "id" && IsValidJadeId(attrs[k].val)
      ensures AttrEntries(attrs, indents) == AttrEntries(attrs[..k] + attrs[k + 1..], indents)
    {
      var a := attrs[..k];
      var b := attrs[k + 1..];
      var x := attrs[k];
      assert attrs == a + [x] + b;
      assert AttrEntry(x, indents) == [];
      SingleEntry(x, indents);
      AttrEntriesAppend(a + [x], b, indents);
      AttrEntriesAppend(a, [x], indents);
      AttrEntriesAppend(a, b, indents);
    }

    lemma SingleEntry(x: Attribute, indents: string)
      ensures AttrEntries([x], indents) == AttrEntry(x, indents)
    {
      assert [x][..0] == [];
    }

    /** A `class` attribute's entry, when there is one, holds exactly the class
        names that fail the test, separated by spaces. */
    lemma ClassEntryHoldsInvalidNames(a: Attribute, indents: string)
      requires a.key == "class"
      ensures AttrEntry(a, indents) == [] <==> InvalidClassNames(Fields(a.val)) == []
      ensures AttrEntry(a, indents) != [] ==>
        exists v :: AttrEntry(a, indents) == [BuildTagAttribute("class", v)] &&
                    Fields(v) == InvalidClassNames(Fields(a.val))
    {
      var invalid := InvalidClassNames(Fields(a.val));
      if invalid != [] {
        FilteredWords(Fields(a.val));
        FieldsOfJoin(invalid);
        assert AttrEntry(a, indents) == [BuildTagAttribute("class", Join(invalid, " "))];
      }
    }

    // -------------------------------------------------------------------------
    // TagHead
    // -------------------------------------------------------------------------

    method TagHead(node: Option<Node>) returns (result: string)
      ensures result == HeadOf(node)
      ensures result != ""
      ensures node.None? || node.value.kind != ElementNode ==> result == "div"
    {
      if node.None? || node.value.kind != ElementNode {
        return "div";
      }
      var n := node.value;
      result := "";
      if ToLower(n.data) != "div" {
        result := ToLower(n.data);
      }
      var id, classAttr := ScanHeadAttributes(n.attr);
      if id != "" && IsValidJadeId(id) {
        result := result + ("#" + TrimSpace(id));
      }
      assert result == TagPart(n) + IdPart(id, true);
      ghost var beforeClasses := result;
      if classAttr != "" {
        var validClassNames := FilterValidClassNames(Fields(classAttr));
        assert validClassNames == HeadClasses(classAttr);
        if |validClassNames| > 0 {
          result := result + ("." + Join(validClassNames, "."));
        }
      } else {
        assert ClassPart(classAttr) == "";
      }
      assert result == TagPart(n) + IdPart(id, true) + ClassPart(classAttr);
      HeadOfElement(n);
      if result == "" {
        result := "div";
      }
    }

    // -------------------------------------------------------------------------
    // TagText
    // -------------------------------------------------------------------------

    /** The text written on the tag's own line: the data of a lone text child
        that fits the wrap length and holds no line break. */
    function TagText(node: Option<Node>): (r: Option<string>)
      ensures r.Some? ==> (node.Some? && |node.value.children| == 1 &&
        node.value.children[0].kind == TextNode && node.value.children[0].data == r.value)
      ensures r.Some? ==> |r.value| <= wrapLength && forall i :: 0 <= i < |r.value| ==> !IsBreak(r.value[i])
      ensures r.None? ==> (node.None? || |node.value.children| != 1 || node.value.children[0].kind != TextNode ||
        |node.value.children[0].data| > wrapLength ||
        exists i :: 0 <= i < |node.value.children[0].data| && IsBreak(node.value.children[0].data[i]))
    {
      if node.None? || node.value.children == [] then None
      else
        var first := node.value.children[0];
        if first.kind != TextNode then None
        else if |node.value.children| != 1 then None
        else if |first.data| > wrapLength || IndexFunc(first.data, IsBreak).Some? then None
        else Some(first.data)
    }

    // -------------------------------------------------------------------------
    // WriteTextLine, WriteText, WriteTextContent
    // -------------------------------------------------------------------------

    /** What `WriteTextLine` leaves in the output, from the state `st`. */
    function WriteTextLineF(sib: Siblings, line: string, opts: TextOptions, st: OutState): OutState
      decreases Measure(line), 1
    {
      if opts.pipe && noEmptyPipe && TrimSpace(line) == "" then st
      else
        var prefix := if opts.pipe then "| " else "";
        var l := Trimmed(sib, line);
        if |l| == 0 then st
        else WriteEncodedF(sib, prefix, Encoded(opts, l), opts, st)
    }

    /** The end of `WriteTextLine`, once the line `e` is trimmed and encoded: one
        output line, or, for a line longer than the wrap length that breaks, each
        piece through the whole pipeline again. */
    function WriteEncodedF(sib: Siblings, prefix: string, e: string, opts: TextOptions, st: OutState): OutState
      requires |e| > 0
      decreases Measure(e), 0
    {
      if !opts.wrap || |e| <= wrapLength then st.WriteLine(prefix + e, true)
      else
        var ls := BrokenLines(e);
        if |ls| == 1 then st.WriteLine(prefix + e, true)
        else
          PieceMeasure(e);
          WriteLinesF(sib, ls, opts, st)
    }

    /** The pieces `ls`, one after the other, through `WriteTextLine`. */
    function WriteLinesF(sib: Siblings, ls: seq<string>, opts: TextOptions, st: OutState): OutState
      decreases MaxMeasure(ls), 2, |ls|
    {
      if ls == [] then st
      else WriteTextLineF(sib, ls[|ls| - 1], opts, WriteLinesF(sib, ls[..|ls| - 1], opts, st))
    }

    /** A broken piece of a line is smaller than the line, so the recursion ends. */
    lemma PieceMeasure(e: string)
      requires |e| > 0 && |BrokenLines(e)| != 1
      ensures MaxMeasure(BrokenLines(e)) < Measure(e)
    {
      BrokenLinesKeepWords(e);
      BrokenLinesShrink(e);
    }

    /** What `WriteText` leaves in the output: the lines of a non-empty text node,
        split at every line break, each through `WriteTextLine`. */
    function WriteTextF(node: Node, sib: Siblings, opts: TextOptions, st: OutState): OutState {
      if node.kind == TextNode && |node.data| > 0 then WriteLinesF(sib, SplitFunc(node.data, IsBreak), opts, st)
      else st
    }

    /** The first `n` children of `kids`, each through `WriteText`. */
    function ChildTextsF(kids: seq<Node>, n: nat, opts: TextOptions, st: OutState): OutState
      requires n <= |kids|
    {
      if n == 0 then st
      else WriteTextF(kids[n - 1], SiblingsAt(kids, n - 1), opts, ChildTextsF(kids, n - 1, opts, st))
    }

    /** What `WriteTextContent` leaves in the output: the text children one step
        further in. */
    function WriteTextContentF(cfg: IndentConfig, node: Node, opts: TextOptions, st: OutState): OutState {
      ChildTextsF(node.children, |node.children|, opts, st.Enter(cfg)).Leave(cfg)
    }

    lemma ChildTextsStep(kids: seq<Node>, i: nat, opts: TextOptions, st: OutState, before: OutState, after: OutState)
      requires i < |kids|
      requires before == ChildTextsF(kids, i, opts, st)
      requires after == WriteTextF(kids[i], SiblingsAt(kids, i), opts, before)
      ensures after == ChildTextsF(kids, i + 1, opts, st)
    {
    }

    method WriteTextLine(sib: Siblings, line: string, out: StringOutput, opts: TextOptions)
      modifies out
      ensures out.State() == WriteTextLineF(sib, line, opts, old(out.State()))
      decreases Measure(line), 1
    {
      if opts.pipe && noEmptyPipe && |TrimSpace(line)| == 0 {
        return;
      }
      var prefix := "";
      if opts.pipe {
        prefix := "| ";
      }
      var l := TrimLine(sib, line);
      if |l| > 0 {
        var e := EncodeLine(opts, l);
        WriteEncoded(sib, prefix, e, out, opts);
      }
    }

    /** The two trims of `WriteTextLine`, left then right. */
    method TrimLine(sib: Siblings, line: string) returns (l: string)
      ensures l == Trimmed(sib, line)
    {
      l := line;
      if sib.prev.Some? && sib.prev.value != ElementNode {
        l := TrimLeftFunc(l, IsBlank);
      }
      if sib.next.Some? && sib.next.value != ElementNode {
        l := TrimRightFunc(l, IsBlank);
      }
    }

    /** The two optional rewritings of `WriteTextLine`, in order. */
    method EncodeLine(opts: TextOptions, line: string) returns (l: string)
      ensures l == Encoded(opts, line)
    {
      l := line;
      if opts.encodeEntityRef {
        l := EscapeString(l);
      }
      if opts.escapeBackslash {
        l := ReplaceAll(l, "\\", "\\\\");
      }
    }

    /** The wrap test and the output of `WriteTextLine`. */
    method WriteEncoded(sib: Siblings, prefix: string, e: string, out: StringOutput, opts: TextOptions)
      requires |e| > 0
      modifies out
      ensures out.State() == WriteEncodedF(sib, prefix, e, opts, old(out.State()))
      decreases Measure(e), 0
    {
      if !opts.wrap || |e| <= wrapLength {
        out.WriteLine(prefix + e, true);
      } else {
        var lines := BreakLine(e);
        if |lines| == 1 {
          out.WriteLine(prefix + e, true);
        } else {
          PieceMeasure(e);
          WritePieces(sib, lines, out, opts);
        }
      }
    }

    /** The loop over the pieces of a line, shared by `WriteText` and the
        recursion of `WriteTextLine`. */
    method WritePieces(sib: Siblings, lines: seq<string>, out: StringOutput, opts: TextOptions)
      modifies out
      ensures out.State() == WriteLinesF(sib, lines, opts, old(out.State()))
      decreases MaxMeasure(lines), 2
    {
      var i := 0;
      while i < |lines|
        invariant 0 <= i <= |lines|
        invariant out.State() == WriteLinesF(sib, lines[..i], opts, old(out.State()))
      {
        assert lines[..i + 1][..i] == lines[..i];
        MaxMeasureAt(lines, i);
        WriteTextLine(sib, lines[i], out, opts);
        i := i + 1;
      }
      assert lines[..|lines|] == lines;
    }

    method WriteText(node: Node, sib: Siblings, out: StringOutput, opts: TextOptions)
      modifies out
      ensures out.State() == WriteTextF(node, sib, opts, old(out.State()))
    {
      if node.kind == TextNode {
        var data := node.data;
        if |data| > 0 {
          var lines := SplitFunc(data, IsBreak);
          WritePieces(sib, lines, out, opts);
        }
      }
    }

    method WriteTextContent(node: Node, out: StringOutput, opts: TextOptions)
      modifies out
      ensures out.State() == WriteTextContentF(out.options, node, opts, old(out.State()))
    {
      out.Enter();
      WriteChildTexts(node, out, opts);
      out.Leave();
    }

    /** The callback of `ForEachChild` in `WriteTextContent`, applied to every
        child with its sibling links. */
    method WriteChildTexts(node: Node, out: StringOutput, opts: TextOptions)
      modifies out
      ensures out.State() == ChildTextsF(node.children, |node.children|, opts, old(out.State()))
    {
      ghost var st0 := out.State();
      var kids := node.children;
      var i := 0;
      while i < |kids|
        invariant 0 <= i <= |kids|
        invariant out.State() == ChildTextsF(kids, i, opts, st0)
      {
        ghost var before := out.State();
        WriteText(kids[i], SiblingsAt(kids, i), out, opts);
        ChildTextsStep(kids, i, opts, st0, before, out.State());
        i := i + 1;
      }
    }

    // -------------------------------------------------------------------------
    // What the text pipeline writes
    // -------------------------------------------------------------------------

    /** `WriteTextLine` keeps the indentation and the earlier output and adds
        only whole lines at the current indentation. */
    lemma {:induction false} TextLineAddsLines(sib: Siblings, line: string, opts: TextOptions, st: OutState)
      ensures AddsLines(st, WriteTextLineF(sib, line, opts, st), st.indents)
      decreases Measure(line), 1
    {
      if !(opts.pipe && noEmptyPipe && TrimSpace(line) == "") {
        var prefix := if opts.pipe then "| " else "";
        var l := Trimmed(sib, line);
        if |l| > 0 {
          EncodedAddsLines(sib, prefix, Encoded(opts, l), opts, st);
        }
      }
    }

    lemma {:induction false} EncodedAddsLines(sib: Siblings, prefix: string, e: string, opts: TextOptions, st: OutState)
      requires |e| > 0
      ensures AddsLines(st, WriteEncodedF(sib, prefix, e, opts, st), st.indents)
      decreases Measure(e), 0
    {
      if !opts.wrap || |e| <= wrapLength || |BrokenLines(e)| == 1 {
        WriteLineAddsLine(st, prefix + e);
      } else {
        PieceMeasure(e);
        LinesAddLines(sib, BrokenLines(e), opts, st);
      }
    }

    lemma {:induction false} LinesAddLines(sib: Siblings, ls: seq<string>, opts: TextOptions, st: OutState)
      ensures AddsLines(st, WriteLinesF(sib, ls, opts, st), st.indents)
      decreases MaxMeasure(ls), 2, |ls|
    {
      if ls != [] {
        var init := ls[..|ls| - 1];
        LinesAddLines(sib, init, opts, st);
        var mid := WriteLinesF(sib, init, opts, st);
        MaxMeasureAt(ls, |ls| - 1);
        TextLineAddsLines(sib, ls[|ls| - 1], opts, mid);
        AddsLinesTrans(st, mid, WriteLinesF(sib, ls, opts, st), st.indents);
      }
    }

    /** Under the pipe, a kept line that needs no wrapping is written as
        exactly one line: the indentation, `| `, and the line trimmed beside
        its siblings and encoded. */
    lemma TextLinePiped(sib: Siblings, line: string, opts: TextOptions, st: OutState)
      requires opts.pipe && !(noEmptyPipe && TrimSpace(line) == "")
      requires |Trimmed(sib, line)| > 0
      requires !opts.wrap || |Encoded(opts, Trimmed(sib, line))| <= wrapLength
      ensures WriteTextLineF(sib, line, opts, st) ==
        OutState(st.indents, st.fragments + [st.indents + "| " + Encoded(opts, Trimmed(sib, line)) + "\n"])
    {
      var e := Encoded(opts, Trimmed(sib, line));
      TrimFuncEmpty("| " + e, IsBlank);
      assert !IsBlank(("| " + e)[0]);
      assert st.indents + ("| " + e) + "\n" == st.indents + "| " + e + "\n";
    }

    /** Without the pipe, a kept line that needs no wrapping is written as
        exactly one line when its encoded form holds a character other than
        a space. */
    lemma TextLineUnpiped(sib: Siblings, line: string, opts: TextOptions, st: OutState)
      requires !opts.pipe
      requires |Trimmed(sib, line)| > 0
      requires !opts.wrap || |Encoded(opts, Trimmed(sib, line))| <= wrapLength
      requires exists i :: 0 <= i < |Encoded(opts, Trimmed(sib, line))| && !IsBlank(Encoded(opts, Trimmed(sib, line))[i])
      ensures WriteTextLineF(sib, line, opts, st) ==
        OutState(st.indents, st.fragments + [st.indents + Encoded(opts, Trimmed(sib, line)) + "\n"])
    {
      var e := Encoded(opts, Trimmed(sib, line));
      TrimFuncEmpty(e, IsBlank);
      assert "" + e == e;
    }

    /** `WriteTextLine` writes nothing for a blank line under the pipe with
        `noEmptyPipe`, for a line the trims empty, and, without the pipe, for
        a line that needs no wrapping and is all spaces once encoded. */
    lemma TextLineWritesNothing(sib: Siblings, line: string, opts: TextOptions, st: OutState)
      ensures opts.pipe && noEmptyPipe && TrimSpace(line) == "" ==> WriteTextLineF(sib, line, opts, st) == st
      ensures |Trimmed(sib, line)| == 0 ==> WriteTextLineF(sib, line, opts, st) == st
      ensures var e := Encoded(opts, Trimmed(sib, line));
        (!opts.pipe && (!opts.wrap || |e| <= wrapLength) && (forall i :: 0 <= i < |e| ==> IsBlank(e[i]))) ==>
        WriteTextLineF(sib, line, opts, st) == st
    {
      var e := Encoded(opts, Trimmed(sib, line));
      TrimFuncEmpty(e, IsBlank);
      assert "" + e == e;
    }

    /** With no pipe and no encoding, `WriteTextLine` writes exactly the words
        of the line, whatever the trims and the wrapping do to the spaces
        between them. */
    lemma {:induction false} TextLineWords(sib: Siblings, line: string, opts: TextOptions, st: OutState)
      requires Verbatim(opts) && Spaces(st.indents)
      ensures FlatFields(WriteTextLineF(sib, line, opts, st).fragments) == FlatFields(st.fragments) + Fields(line)
      decreases Measure(line), 1
    {
      var l := Trimmed(sib, line);
      if |l| == 0 {
        assert Fields(line) == Fields(l) == [];
      } else {
        EncodedWords(sib, Encoded(opts, l), opts, st);
      }
    }

    lemma {:induction false} EncodedWords(sib: Siblings, e: string, opts: TextOptions, st: OutState)
      requires |e| > 0
      requires Verbatim(opts) && Spaces(st.indents)
      ensures FlatFields(WriteEncodedF(sib, "", e, opts, st).fragments) == FlatFields(st.fragments) + Fields(e)
      decreases Measure(e), 0
    {
      assert "" + e == e;
      if !opts.wrap || |e| <= wrapLength || |BrokenLines(e)| == 1 {
        WriteLineWords(st, e);
      } else {
        PieceMeasure(e);
        LinesWords(sib, BrokenLines(e), opts, st);
        BrokenLinesKeepWords(e);
      }
    }

    lemma {:induction false} LinesWords(sib: Siblings, ls: seq<string>, opts: TextOptions, st: OutState)
      requires Verbatim(opts) && Spaces(st.indents)
      ensures FlatFields(WriteLinesF(sib, ls, opts, st).fragments) == FlatFields(st.fragments) + FlatFields(ls)
      decreases MaxMeasure(ls), 2, |ls|
    {
      if ls != [] {
        var init, last := ls[..|ls| - 1], ls[|ls| - 1];
        var mid := WriteLinesF(sib, init, opts, st);
        LinesWords(sib, init, opts, st);
        LinesKeepIndents(sib, init, opts, st);
        MaxMeasureAt(ls, |ls| - 1);
        TextLineWords(sib, last, opts, mid);
        FlatFieldsLast(ls);
        WordsStep(st.fragments, mid.fragments, WriteLinesF(sib, ls, opts, st).fragments, FlatFields(init), Fields(last));
      }
    }

    lemma LinesKeepIndents(sib: Siblings, ls: seq<string>, opts: TextOptions, st: OutState)
      ensures WriteLinesF(sib, ls, opts, st).indents == st.indents
    {
      LinesAddLines(sib, ls, opts, st);
    }

    /** `WriteText` adds only whole lines at the current indentation. */
    lemma TextAddsLines(node: Node, sib: Siblings, opts: TextOptions, st: OutState)
      ensures AddsLines(st, WriteTextF(node, sib, opts, st), st.indents)
    {
      if node.kind == TextNode && |node.data| > 0 {
        LinesAddLines(sib, SplitFunc(node.data, IsBreak), opts, st);
      }
    }

    /** With no pipe and no encoding, `WriteText` writes the words of a text
        node and nothing for any other node. */
    lemma TextWords(node: Node, sib: Siblings, opts: TextOptions, st: OutState)
      requires Verbatim(opts) && Spaces(st.indents)
      ensures FlatFields(WriteTextF(node, sib, opts, st).fragments) == FlatFields(st.fragments) + NodeWords(node)
    {
      if node.kind == TextNode && |node.data| > 0 {
        LinesWords(sib, SplitFunc(node.data, IsBreak), opts, st);
        FieldsOfBreakSplit(node.data);
      } else if node.kind == TextNode {
        assert Fields(node.data) == [];
      }
    }

    /** The children's text, one after the other, adds only whole lines at the
        indentation. */
    lemma {:induction false} ChildTextsAddLines(kids: seq<Node>, n: nat, opts: TextOptions, st: OutState)
      requires n <= |kids|
      ensures AddsLines(st, ChildTextsF(kids, n, opts, st), st.indents)
    {
      if n > 0 {
        ChildTextsAddLines(kids, n - 1, opts, st);
        var mid := ChildTextsF(kids, n - 1, opts, st);
        TextAddsLines(kids[n - 1], SiblingsAt(kids, n - 1), opts, mid);
        AddsLinesTrans(st, mid, ChildTextsF(kids, n, opts, st), st.indents);
      }
    }

    lemma ChildTextsKeepIndents(kids: seq<Node>, n: nat, opts: TextOptions, st: OutState)
      requires n <= |kids|
      ensures ChildTextsF(kids, n, opts, st).indents == st.indents
    {
      ChildTextsAddLines(kids, n, opts, st);
    }

    /** With no pipe and no encoding, the children's text holds the words of the
        text children, in order. */
    lemma {:induction false} ChildTextsWords(kids: seq<Node>, n: nat, opts: TextOptions, st: OutState)
      requires n <= |kids|
      requires Verbatim(opts) && Spaces(st.indents)
      ensures FlatFields(ChildTextsF(kids, n, opts, st).fragments) == FlatFields(st.fragments) + ChildWords(kids[..n])
    {
      if n > 0 {
        var mid := ChildTextsF(kids, n - 1, opts, st);
        ChildTextsWords(kids, n - 1, opts, st);
        ChildTextsKeepIndents(kids, n - 1, opts, st);
        TextWords(kids[n - 1], SiblingsAt(kids, n - 1), opts, mid);
        ChildWordsLast(kids, n);
        WordsStep(st.fragments, mid.fragments, ChildTextsF(kids, n, opts, st).fragments, ChildWords(kids[..n - 1]), NodeWords(kids[n - 1]));
      }
    }

    /** `WriteTextContent` returns to the indentation it started from, keeps
        the earlier output and adds only whole lines one step further in. */
    lemma ContentBalanced(cfg: IndentConfig, node: Node, opts: TextOptions, st: OutState)
      requires Uniform(cfg, st.indents)
      ensures AddsLines(st, WriteTextContentF(cfg, node, opts, st), st.indents + Repeat(cfg.Unit(), cfg.Width()))
    {
      var inner := st.Enter(cfg);
      ChildTextsAddLines(node.children, |node.children|, opts, inner);
      var mid := ChildTextsF(node.children, |node.children|, opts, inner);
      EnterThenLeave(cfg, OutState(st.indents, mid.fragments));
    }

    /** With no pipe and no encoding, `WriteTextContent` writes the words of the
        node's text children, in order, and nothing else. */
    lemma ContentWords(cfg: IndentConfig, node: Node, opts: TextOptions, st: OutState)
      requires Verbatim(opts) && Uniform(cfg, st.indents)
      ensures FlatFields(WriteTextContentF(cfg, node, opts, st).fragments) == FlatFields(st.fragments) + ChildWords(node.children)
    {
      var inner := st.Enter(cfg);
      EnterThenLeave(cfg, st);
      UniformSpaces(cfg, inner.indents);
      ChildTextsWords(node.children, |node.children|, opts, inner);
      assert node.children[..|node.children|] == node.children;
    }
  }


  // ---------------------------------------------------------------------------
  // Reading a quoted attribute value back
  // ---------------------------------------------------------------------------

  /** The characters of a quoted string up to its closing quote `q`, which must
      end the text; a backslash takes the next character literally. */
  function ReadQuoted(s: string, q: char): Option<string>
    decreases |s|
  {
    if s == [] then None
    else if s[0] == q then (if |s| == 1 then Some("") else None)
    else if s[0] == '\\' then
      (if |s| < 2 then None
       else match ReadQuoted(s[2..], q)
         case None => None
         case Some(t) => Some([s[1]] + t))
    else match ReadQuoted(s[1..], q)
      case None => None
      case Some(t) => Some([s[0]] + t)
  }

  /** A value in single or double quotes, read as a string literal. */
  function Unquote(t: string): Option<string> {
    if |t| >= 1 && (t[0] == '\'' || t[0] == '"') then ReadQuoted(t[1..], t[0]) else None
  }

  lemma {:induction false} ReadPlain(v: string, q: char)
    requires q !in v && '\\' !in v
    ensures ReadQuoted(v + [q], q) == Some(v)
    decreases |v|
  {
    if v != [] {
      assert (v + [q])[1..] == v[1..] + [q];
      ReadPlain(v[1..], q);
      assert v == [v[0]] + v[1..];
    }
  }

  lemma {:induction false} ReadEscaped(v: string, q: char)
    requires q != '\\' && '\\' !in v
    ensures ReadQuoted(FlatMap(v, Swap(q, ['\\', q])) + [q], q) == Some(v)
    decreases |v|
  {
    if v != [] {
      var rest := FlatMap(v[1..], Swap(q, ['\\', q]));
      ReadEscaped(v[1..], q);
      var s := FlatMap(v, Swap(q, ['\\', q])) + [q];
      if v[0] == q {
        assert s == ['\\', q] + (rest + [q]);
        assert s[2..] == rest + [q];
      } else {
        assert s == [v[0]] + (rest + [q]);
        assert s[1..] == rest + [q];
      }
      assert v == [v[0]] + v[1..];
    }
  }

  // ---------------------------------------------------------------------------
  // Escaping line breaks in attribute values: the replacement of `(\r|\n)\s*`
  // by a backslash, the break character and the indentation
  // ---------------------------------------------------------------------------

  function EscapeAttrBreaks(v: string, indents: string): (r: string)
    ensures |r| > 0 ==> !IsBreak(r[0])
    decreases |v|
  {
    if v == [] then []
    else if IsBreak(v[0]) then ['\\', v[0]] + indents + EscapeAttrBreaks(TrimLeftFunc(v[1..], IsRegexSpace), indents)
    else [v[0]] + EscapeAttrBreaks(v[1..], indents)
  }

  /** Every line break left in the escaped value follows a backslash, so the value
      stays one logical line. */
  lemma {:induction false} BreaksEscaped(v: string, indents: string)
    requires forall i :: 0 <= i < |indents| ==> !IsBreak(indents[i])
    ensures forall i :: 0 <= i < |EscapeAttrBreaks(v, indents)| && IsBreak(EscapeAttrBreaks(v, indents)[i]) ==>
      i > 0 && EscapeAttrBreaks(v, indents)[i - 1] == '\\'
    decreases |v|
  {
    if v != [] {
      var r := EscapeAttrBreaks(v, indents);
      var rest := if IsBreak(v[0]) then TrimLeftFunc(v[1..], IsRegexSpace) else v[1..];
      var prefix := if IsBreak(v[0]) then ['\\', v[0]] + indents else [v[0]];
      var tail := EscapeAttrBreaks(rest, indents);
      BreaksEscaped(rest, indents);
      assert r == prefix + tail;
      forall i | 0 <= i < |r| && IsBreak(r[i])
        ensures i > 0 && r[i - 1] == '\\'
      {
        if i >= |prefix| {
          assert r[i] == tail[i - |prefix|];
          assert r[i - 1] == tail[i - 1 - |prefix|];
        }
      }
    }
  }

  /** A value without line breaks is kept as it is. */
  lemma {:induction false} NoBreaksUnchanged(v: string, indents: string)
    requires forall i :: 0 <= i < |v| ==> !IsBreak(v[i])
    ensures EscapeAttrBreaks(v, indents) == v
    decreases |v|
  {
    if v != [] {
      NoBreaksUnchanged(v[1..], indents);
      assert v == [v[0]] + v[1..];
    }
  }

  // ---------------------------------------------------------------------------
  // Class names
  // ---------------------------------------------------------------------------

  /** The class names the head writes as `.name`. */
  function ValidClassNames(names: seq<string>): seq<string>
    decreases |names|
  {
    if names == [] then []
    else
      var name := names[|names| - 1];
      ValidClassNames(names[..|names| - 1]) + (if name != "" && IsValidJadeClassName(name) then [name] else [])
  }

  /** The class names the attribute clause keeps in `class=`. */
  function InvalidClassNames(names: seq<string>): seq<string>
    decreases |names|
  {
    if names == [] then []
    else
      var name := names[|names| - 1];
      InvalidClassNames(names[..|names| - 1]) + (if name != "" && !IsValidJadeClassName(name) then [name] else [])
  }

  /** Both filters keep only names they were given, so words stay words. */
  lemma {:induction false} FilteredWords(names: seq<string>)
    requires AllWords(names)
    ensures AllWords(ValidClassNames(names)) && AllWords(InvalidClassNames(names))
    decreases |names|
  {
    if names != [] {
      var init := names[..|names| - 1];
      assert AllWords(init) by {
        forall k | 0 <= k < |init| ensures IsWord(init[k]) {
          assert init[k] == names[k];
        }
      }
      FilteredWords(init);
      assert IsWord(names[|names| - 1]);
    }
  }

  /** The loop of `TagHead` that keeps the valid class names. */
  method FilterValidClassNames(classNames: seq<string>) returns (valid: seq<string>)
    ensures valid == ValidClassNames(classNames)
  {
    valid := [];
    var j := 0;
    while j < |classNames|
      invariant 0 <= j <= |classNames|
      invariant valid == ValidClassNames(classNames[..j])
    {
      assert classNames[..j + 1][..j] == classNames[..j];
      var name := classNames[j];
      if name != "" && IsValidJadeClassName(name) {
        valid := valid + [name];
      }
      j := j + 1;
    }
    assert classNames[..|classNames|] == classNames;
  }

  /** The loop of `TagAttribute` that keeps the invalid class names. */
  method FilterInvalidClassNames(classNames: seq<string>) returns (invalid: seq<string>)
    ensures invalid == InvalidClassNames(classNames)
  {
    invalid := [];
    var j := 0;
    while j < |classNames|
      invariant 0 <= j <= |classNames|
      invariant invalid == InvalidClassNames(classNames[..j])
    {
      assert classNames[..j + 1][..j] == classNames[..j];
      var name := classNames[j];
      if name != "" && !IsValidJadeClassName(name) {
        invalid := invalid + [name];
      }
      j := j + 1;
    }
    assert classNames[..|classNames|] == classNames;
  }

  /** Every class token goes to exactly one of the two renderers: the head when it
      passes the test, the attribute clause when it fails it. */
  /** Each name goes to exactly one side: the valid names to the head, the
      others to the `class=` attribute, and on words nothing is lost. */
  lemma ClassPartition(names: seq<string>)
    ensures forall t :: t in ValidClassNames(names) <==> t in names && t != "" && IsValidJadeClassName(t)
    ensures forall t :: t in InvalidClassNames(names) <==> t in names && t != "" && !IsValidJadeClassName(t)
    ensures AllWords(names) ==> multiset(ValidClassNames(names)) + multiset(InvalidClassNames(names)) == multiset(names)
  {
    ClassMembers(names);
    if AllWords(names) {
      ClassMultiset(names);
    }
  }

  lemma {:induction false} ClassMembers(names: seq<string>)
    ensures forall t :: t in ValidClassNames(names) <==> t in names && t != "" && IsValidJadeClassName(t)
    ensures forall t :: t in InvalidClassNames(names) <==> t in names && t != "" && !IsValidJadeClassName(t)
    decreases |names|
  {
    if names != [] {
      var init := names[..|names| - 1];
      ClassMembers(init);
      assert names == init + [names[|names| - 1]];
    }
  }

  lemma {:induction false} ClassMultiset(names: seq<string>)
    requires AllWords(names)
    ensures multiset(ValidClassNames(names)) + multiset(InvalidClassNames(names)) == multiset(names)
    decreases |names|
  {
    if names != [] {
      var init := names[..|names| - 1];
      var last := names[|names| - 1];
      assert AllWords(init) by {
        forall k | 0 <= k < |init| ensures IsWord(init[k]) {
          assert init[k] == names[k];
        }
      }
      ClassMultiset(init);
      assert names == init + [last];
      assert IsWord(last);
      assert last != "";
    }
  }

  // ---------------------------------------------------------------------------
  // The tag head
  // ---------------------------------------------------------------------------

  /** The value of the last attribute called `key`, or "" when there is none. */
  function LastAttr(attrs: seq<Attribute>, key: string): string
    decreases |attrs|
  {
    if attrs == [] then ""
    else if attrs[|attrs| - 1].key == key then attrs[|attrs| - 1].val
    else LastAttr(attrs[..|attrs| - 1], key)
  }

  /** The lower-cased tag name, or nothing for a `div`. */
  function TagPart(n: Node): string {
    if ToLower(n.data) != "div" then ToLower(n.data) else ""
  }

  /** `#` and the id when it is valid; `trimId` says whether the id is written
      trimmed, as it was validated, or as it stands in the attribute. */
  function IdPart(id: string, trimId: bool): string {
    if id != "" && IsValidJadeId(id) then "#" + (if trimId then TrimSpace(id) else id) else ""
  }

  /** The class names that pass the test, in order. */
  function HeadClasses(classAttr: string): seq<string> {
    if classAttr != "" then ValidClassNames(Fields(classAttr)) else []
  }

  function ClassPart(classAttr: string): string {
    if |HeadClasses(classAttr)| > 0 then "." + Join(HeadClasses(classAttr), ".") else ""
  }

  /** The tag head, with the id trimmed or not. */
  function HeadFrom(node: Option<Node>, trimId: bool): (r: string)
    ensures r != ""
  {
    if node.None? || node.value.kind != ElementNode then "div"
    else
      var n := node.value;
      var r := TagPart(n) + IdPart(LastAttr(n.attr, "id"), trimId) + ClassPart(LastAttr(n.attr, "class"));
      if r == "" then "div" else r
  }

  /** The last `id` and the last `class` attribute values, found in one pass. */
  method ScanHeadAttributes(attrs: seq<Attribute>) returns (id: string, classAttr: string)
    ensures id == LastAttr(attrs, "id")
    ensures classAttr == LastAttr(attrs, "class")
  {
    id := "";
    classAttr := "";
    var i := 0;
    while i < |attrs|
      invariant 0 <= i <= |attrs|
      invariant id == LastAttr(attrs[..i], "id")
      invariant classAttr == LastAttr(attrs[..i], "class")
    {
      assert attrs[..i + 1][..i] == attrs[..i];
      if attrs[i].key == "id" {
        id := attrs[i].val;
      } else if attrs[i].key == "class" {
        classAttr := attrs[i].val;
      }
      i := i + 1;
    }
    assert attrs[..|attrs|] == attrs;
  }

  lemma HeadOfElement(n: Node)
    requires n.kind == ElementNode
    ensures HeadOf(Some(n)) == (var r := TagPart(n) + IdPart(LastAttr(n.attr, "id"), true) + ClassPart(LastAttr(n.attr, "class"));
                               if r == "" then "div" else r)
  {
  }

  /** What `TagHead` returns, with the id written trimmed. */
  function HeadOf(node: Option<Node>): string {
    HeadFrom(node, true)
  }

  /** `TagHead` as written: the id is written untrimmed after `#`. */
  function TagHeadAsWritten(node: Option<Node>): (r: string)
    ensures r != ""
    ensures node.None? || node.value.kind != ElementNode ==> r == "div"
    ensures node.Some? && TrimSpace(LastAttr(node.value.attr, "id")) == LastAttr(node.value.attr, "id") ==> r == HeadOf(node)
  {
    HeadFrom(node, false)
  }

  /** The three parts a tag head stands for. */
  datatype HeadParts = HeadParts(tag: string, id: string, classes: seq<string>)

  /** Reads a head `tag#id.c1.c2` back into its parts. */
  function ParseHead(h: string): HeadParts {
    var parts := Split(h, ".");
    var tagAndId := Split(parts[0], "#");
    HeadParts(tagAndId[0], if |tagAndId| > 1 then tagAndId[1] else "", parts[1..])
  }

  /** What the head of an element should say: its lower-cased tag name unless it
      is `div`, its valid id trimmed, its valid class names; `div` alone when all
      three are empty. */
  function HeadMeaning(n: Node): HeadParts {
    var tag := if ToLower(n.data) != "div" then ToLower(n.data) else "";
    var id := LastAttr(n.attr, "id");
    var idValue := if id != "" && IsValidJadeId(id) then TrimSpace(id) else "";
    var classAttr := LastAttr(n.attr, "class");
    var valid := if classAttr != "" then ValidClassNames(Fields(classAttr)) else [];
    if tag == "" && idValue == "" && valid == [] then HeadParts("div", "", []) else HeadParts(tag, idValue, valid)
  }

  /** No valid class name holds a dot or a hash. */
  lemma ValidNamesAreShorthand(names: seq<string>)
    requires AllWords(names)
    ensures forall k :: 0 <= k < |ValidClassNames(names)| ==>
      '.' !in ValidClassNames(names)[k] && '#' !in ValidClassNames(names)[k]
  {
    ClassPartition(names);
    var valid := ValidClassNames(names);
    forall k | 0 <= k < |valid|
      ensures '.' !in valid[k] && '#' !in valid[k]
    {
      var t := valid[k];
      assert t in valid;
      var j :| 0 <= j < |names| && names[j] == t;
      assert IsWord(t);
      TrimmedWord(t);
      ValidatorsAgree(t);
      ValidNameIsShorthand(t);
    }
  }

  /** The head reads back as the tag, id and class names it stands for, when the
      tag name itself holds no dot or hash. */
  lemma HeadReadsBack(n: Node)
    requires n.kind == ElementNode
    requires '.' !in ToLower(n.data) && '#' !in ToLower(n.data)
    ensures ParseHead(HeadOf(Some(n))) == HeadMeaning(n)
  {
    var tag := TagPart(n);
    var id := LastAttr(n.attr, "id");
    var classAttr := LastAttr(n.attr, "class");
    HeadOfElement(n);
    if tag + IdPart(id, true) + ClassPart(classAttr) == "" {
      DivReadsBack();
    } else {
      TagIdReadsBack(tag, id);
      ClassNamesHaveNoDot(classAttr);
      PrefixReadsBack(tag + IdPart(id, true), HeadClasses(classAttr));
    }
  }

  lemma DivReadsBack()
    ensures ParseHead("div") == HeadParts("div", "", [])
  {
    IndexOfAbsent("div", '.');
    IndexOfAbsent("div", '#');
  }

  /** The part before `#` is the tag, the part after it the trimmed valid id. */
  lemma TagIdReadsBack(tag: string, id: string)
    requires '.' !in tag && '#' !in tag
    ensures '.' !in tag + IdPart(id, true)
    ensures Split(tag + IdPart(id, true), "#")[0] == tag
    ensures var t := Split(tag + IdPart(id, true), "#");
            (if |t| > 1 then t[1] else "") == (if id != "" && IsValidJadeId(id) then TrimSpace(id) else "")
  {
    if id != "" && IsValidJadeId(id) {
      var idValue := TrimSpace(id);
      ValidNameIsShorthand(id);
      assert '.' !in idValue && '#' !in idValue;
      assert tag + IdPart(id, true) == tag + ['#'] + idValue;
      SplitAt(tag, '#', idValue);
      IndexOfAbsent(idValue, '#');
    } else {
      assert tag + IdPart(id, true) == tag;
      IndexOfAbsent(tag, '#');
    }
  }

  lemma ClassNamesHaveNoDot(classAttr: string)
    ensures forall k :: 0 <= k < |HeadClasses(classAttr)| ==> '.' !in HeadClasses(classAttr)[k]
  {
    if classAttr != "" {
      ValidNamesAreShorthand(Fields(classAttr));
    }
  }

  /** The part before the first dot is the tag and id, the rest the classes. */
  lemma PrefixReadsBack(p: string, valid: seq<string>)
    requires '.' !in p
    requires forall k :: 0 <= k < |valid| ==> '.' !in valid[k]
    ensures Split(p + (if |valid| > 0 then "." + Join(valid, ".") else ""), ".") == [p] + valid
  {
    var parts := [p] + valid;
    forall k | 0 <= k < |parts|
      ensures '.' !in parts[k]
    {
      if k > 0 {
        assert parts[k] == valid[k - 1];
      }
    }
    var s := p + (if |valid| > 0 then "." + Join(valid, ".") else "");
    assert s == Join(parts, ".") by {
      if |valid| > 0 {
        JoinCons(p, valid, ".");
      } else {
        assert parts == [p];
        assert p + "" == p;
      }
    }
    SplitOfJoin(parts, '.');
  }

  /** The element of the counterexample below: a `div` whose only attribute is
      the id " x ". */
  function SpacedIdDiv(): Node {
    Node(ElementNode, "div", [Attribute("id", " x ")], [])
  }

  lemma TrimSpacedId()
    ensures TrimSpace(" x ") == "x"
    ensures IsValidJadeId(" x ")
  {
    var s := " x ";
    assert LeadingCount(s[1..], IsSpace) == 0;
    assert LeadingCount(s, IsSpace) == 1;
    var t := s[1..];
    assert t == "x ";
    assert t[..|t| - 1] == "x";
    assert TrailingCount("x", IsSpace) == 0;
    assert TrailingCount(t, IsSpace) == 1;
    assert TrimSpace(s) == t[..1];
  }

  lemma SpacedIdDivParts()
    ensures TagPart(SpacedIdDiv()) == ""
    ensures LastAttr(SpacedIdDiv().attr, "id") == " x "
    ensures LastAttr(SpacedIdDiv().attr, "class") == ""
  {
    var n := SpacedIdDiv();
    assert ToLower("div") == "div";
    assert n.attr[..0] == [];
  }

  lemma SpacedIdDivHeads()
    ensures TagHeadAsWritten(Some(SpacedIdDiv())) == "# x "
    ensures HeadOf(Some(SpacedIdDiv())) == "#x"
  {
    SpacedIdDivParts();
    TrimSpacedId();
    assert ClassPart("") == "";
    assert IdPart(" x ", false) == "# x ";
    assert IdPart(" x ", true) == "#x";
  }

  lemma ParseSpacedHead()
    ensures ParseHead("# x ").id == " x "
  {
    SplitSpacedHead();
    var parts := Split("# x ", ".");
    assert parts[0] == "# x ";
    var tagAndId := Split(parts[0], "#");
    assert tagAndId == ["", " x "];
  }

  lemma SplitSpacedHead()
    ensures Split("# x ", ".") == ["# x "]
    ensures Split("# x ", "#") == ["", " x "]
  {
    IndexOfAbsent("# x ", '.');
    var empty: string := [];
    assert "# x " == empty + ['#'] + " x ";
    SplitAt(empty, '#', " x ");
    IndexOfAbsent(" x ", '#');
  }

  /** The head as written keeps the spaces around an id: a `div` whose id is
      " x " gets the head "# x ", which reads back with the id " x "; the
      corrected head is "#x". */
  lemma TagHeadKeepsSpacedId()
    ensures TagHeadAsWritten(Some(SpacedIdDiv())) == "# x "
    ensures ParseHead(TagHeadAsWritten(Some(SpacedIdDiv()))).id == " x "
    ensures HeadOf(Some(SpacedIdDiv())) == "#x"
  {
    SpacedIdDivHeads();
    ParseSpacedHead();
  }

  /** A line of single-space-separated words holds a space only when it has two
      words or more, and it is empty when it has none. */
  lemma GoodLineMeasure(l: string)
    requires GoodLine(l)
    ensures Measure(l) <= |Fields(l)| + (if |Fields(l)| >= 2 then 1 else 0)
    ensures |Fields(l)| == 0 ==> l == ""
  {
    if |Fields(l)| <= 1 {
      JoinOfOneWordHasNoBlank(Fields(l));
    }
  }

  /** When every line holds a word, no line holds all words but the others' share. */
  lemma {:induction false} FlatFieldsBound(ls: seq<string>, i: nat)
    requires i < |ls|
    requires forall j :: 0 <= j < |ls| ==> |Fields(ls[j])| >= 1
    ensures |Fields(ls[i])| + |ls| - 1 <= |FlatFields(ls)|
    decreases |ls|
  {
    if |ls| > 1 {
      var rest := ls[1..];
      assert forall j :: 0 <= j < |rest| ==> |Fields(rest[j])| >= 1 by {
        forall j | 0 <= j < |rest| ensures |Fields(rest[j])| >= 1 {
          assert rest[j] == ls[j + 1];
        }
      }
      if i == 0 {
        FlatFieldsBound(rest, 0);
      } else {
        FlatFieldsBound(rest, i - 1);
        assert rest[i - 1] == ls[i];
      }
    }
  }

  lemma {:induction false} MaxMeasureBelow(ls: seq<string>, m: nat)
    requires m > 0
    requires forall i :: 0 <= i < |ls| ==> Measure(ls[i]) < m
    ensures MaxMeasure(ls) < m
    decreases |ls|
  {
    if ls != [] {
      var init := ls[..|ls| - 1];
      assert forall i :: 0 <= i < |init| ==> init[i] == ls[i];
      MaxMeasureBelow(init, m);
    }
  }

  lemma {:induction false} FieldsOfJoinedLines(ls: seq<string>)
    ensures Fields(Join(ls, " ")) == FlatFields(ls)
    decreases |ls|
  {
    if |ls| == 1 {
      assert ls[1..] == [];
    } else if |ls| > 1 {
      FieldsOfJoinedLines(ls[1..]);
      assert Join(ls, " ") == ls[0] + [' '] + Join(ls[1..], " ");
      FieldsSeparated(ls[0], ' ', Join(ls[1..], " "));
    }
  }

  // ---------------------------------------------------------------------------
  // Children and the per-line text steps
  // ---------------------------------------------------------------------------

  /** The children of `parent` in order, each with its sibling links; nothing
      for a nil parent. */
  function ForEachChild(parent: Option<Node>): (r: seq<(Node, Siblings)>)
    ensures parent.None? ==> r == []
    ensures parent.Some? ==> |r| == |parent.value.children|
    ensures parent.Some? ==> forall i :: 0 <= i < |r| ==>
      r[i].0 == parent.value.children[i] && r[i].1 == SiblingsAt(parent.value.children, i)
  {
    if parent.None? then []
    else
      var kids := parent.value.children;
      seq(|kids|, i requires 0 <= i < |kids| => (kids[i], SiblingsAt(kids, i)))
  }

  /** The line with its ASCII spaces cut on each side that has a sibling which
      is not an element: white space next to a tag is kept. */
  function Trimmed(sib: Siblings, line: string): (r: string)
    ensures Fields(r) == Fields(line)
    ensures ' ' in r ==> ' ' in line
    ensures (sib.prev.None? || sib.prev.value == ElementNode) && (sib.next.None? || sib.next.value == ElementNode) ==> r == line
  {
    var a := if sib.prev.Some? && sib.prev.value != ElementNode then TrimLeftFunc(line, IsBlank) else line;
    TrimBlankFacts(line);
    TrimBlankFacts(a);
    if sib.next.Some? && sib.next.value != ElementNode then TrimRightFunc(a, IsBlank) else a
  }

  /** Cutting ASCII spaces at either end keeps the words and adds no space. */
  lemma TrimBlankFacts(s: string)
    ensures Fields(TrimLeftFunc(s, IsBlank)) == Fields(s)
    ensures Fields(TrimRightFunc(s, IsBlank)) == Fields(s)
    ensures ' ' in TrimLeftFunc(s, IsBlank) ==> ' ' in s
    ensures ' ' in TrimRightFunc(s, IsBlank) ==> ' ' in s
  {
    FieldsTrimLeftBlank(s);
    FieldsTrimRightBlank(s);
    if ' ' in TrimLeftFunc(s, IsBlank) {
      InSuffix(s, LeadingCount(s, IsBlank), ' ');
    }
    if ' ' in TrimRightFunc(s, IsBlank) {
      InPrefix(s, |s| - TrailingCount(s, IsBlank), ' ');
    }
  }

  /** The line with character references for markup, then with every backslash
      doubled, as the options ask. */
  function Encoded(opts: TextOptions, line: string): (r: string)
    ensures |Fields(r)| == |Fields(line)|
    ensures ' ' in r ==> ' ' in line
    ensures |r| >= |line|
    ensures !opts.encodeEntityRef && !opts.escapeBackslash ==> r == line
  {
    var a := if opts.encodeEntityRef then EscapeString(line) else line;
    EscapeIsSpacePreserving();
    FieldsCountFlatMap(line, HtmlEscapeChar);
    BlankFromFlatMap(line, HtmlEscapeChar);
    FlatMapLength(line, HtmlEscapeChar);
    var b := if opts.escapeBackslash then ReplaceAll(a, "\\", "\\\\") else a;
    ReplaceAllChar(a, '\\', "\\\\");
    SwapIsSpacePreserving('\\', "\\\\");
    FieldsCountFlatMap(a, Swap('\\', "\\\\"));
    BlankFromFlatMap(a, Swap('\\', "\\\\"));
    FlatMapLength(a, Swap('\\', "\\\\"));
    b
  }

  lemma {:induction false} MaxMeasureAt(ls: seq<string>, i: nat)
    requires i < |ls|
    ensures Measure(ls[i]) <= MaxMeasure(ls)
    decreases |ls|
  {
    var init := ls[..|ls| - 1];
    if i < |ls| - 1 {
      MaxMeasureAt(init, i);
      assert init[i] == ls[i];
    }
  }

  // ---------------------------------------------------------------------------
  // Appending whole lines
  // ---------------------------------------------------------------------------

  /** `f` is one output line written at the indentation `ind`: the indentation,
      at least one character and a newline. */
  predicate IsLineAt(ind: string, f: string) {
    HasPrefix(f, ind) && |f| >= |ind| + 2 && f[|f| - 1] == '\n'
  }

  /** `st2` has the indentation and the fragments of `st`, followed only by
      whole lines written at `ind`. */
  predicate AddsLines(st: OutState, st2: OutState, ind: string) {
    st2.indents == st.indents && |st.fragments| <= |st2.fragments| &&
    st2.fragments[..|st.fragments|] == st.fragments &&
    forall j :: |st.fragments| <= j < |st2.fragments| ==> IsLineAt(ind, st2.fragments[j])
  }

  /** Text options under which a line is written as it is: no pipe, no
      character references, no doubled backslashes. */
  predicate Verbatim(opts: TextOptions) {
    !opts.pipe && !opts.encodeEntityRef && !opts.escapeBackslash
  }

  predicate Spaces(s: string) {
    forall i :: 0 <= i < |s| ==> IsSpace(s[i])
  }

  /** The words a node contributes as text: those of a text node's data. */
  function NodeWords(node: Node): seq<string> {
    if node.kind == TextNode then Fields(node.data) else []
  }

  /** The words of the text children, in order. */
  function ChildWords(kids: seq<Node>): seq<string>
    decreases |kids|
  {
    if kids == [] then [] else ChildWords(kids[..|kids| - 1]) + NodeWords(kids[|kids| - 1])
  }

  lemma AddsLinesTrans(a: OutState, b: OutState, c: OutState, ind: string)
    requires AddsLines(a, b, ind) && AddsLines(b, c, ind)
    ensures AddsLines(a, c, ind)
  {
    assert c.fragments[..|a.fragments|] == c.fragments[..|b.fragments|][..|a.fragments|];
  }

  /** One `WriteLine` at the current indentation adds nothing or one whole line. */
  lemma WriteLineAddsLine(st: OutState, data: string)
    ensures AddsLines(st, st.WriteLine(data, true), st.indents)
  {
    if TrimFunc(data, IsBlank) != "" {
      var f := st.indents + data + "\n";
      assert f[..|st.indents|] == st.indents;
      assert (st.fragments + [f])[..|st.fragments|] == st.fragments;
    }
  }

  lemma {:induction false} FlatFieldsSnoc(ls: seq<string>, x: string)
    ensures FlatFields(ls + [x]) == FlatFields(ls) + Fields(x)
    decreases |ls|
  {
    if ls == [] {
      assert [x][1..] == [];
    } else {
      assert (ls + [x])[1..] == ls[1..] + [x];
      FlatFieldsSnoc(ls[1..], x);
    }
  }

  lemma FlatFieldsLast(ls: seq<string>)
    requires ls != []
    ensures FlatFields(ls) == FlatFields(ls[..|ls| - 1]) + Fields(ls[|ls| - 1])
  {
    assert ls == ls[..|ls| - 1] + [ls[|ls| - 1]];
    FlatFieldsSnoc(ls[..|ls| - 1], ls[|ls| - 1]);
  }

  lemma ChildWordsLast(kids: seq<Node>, n: nat)
    requires 0 < n <= |kids|
    ensures ChildWords(kids[..n]) == ChildWords(kids[..n - 1]) + NodeWords(kids[n - 1])
  {
    assert kids[..n][..n - 1] == kids[..n - 1];
  }

  lemma WordsStep(f0: seq<string>, f1: seq<string>, f2: seq<string>, w1: seq<string>, w2: seq<string>)
    requires FlatFields(f1) == FlatFields(f0) + w1
    requires FlatFields(f2) == FlatFields(f1) + w2
    ensures FlatFields(f2) == FlatFields(f0) + (w1 + w2)
  {
  }

  /** A `WriteLine` at an indentation of white space adds the words of `data`. */
  lemma WriteLineWords(st: OutState, data: string)
    requires Spaces(st.indents)
    ensures FlatFields(st.WriteLine(data, true).fragments) == FlatFields(st.fragments) + Fields(data)
  {
    TrimFuncEmpty(data, IsBlank);
    if TrimFunc(data, IsBlank) == "" {
      FieldsAfterSpaces(data, "");
      assert data + "" == data;
    } else {
      var f := st.indents + data + "\n";
      FlatFieldsSnoc(st.fragments, f);
      assert f == st.indents + (data + "\n");
      FieldsAfterSpaces(st.indents, data + "\n");
      assert data + "\n" == data + ['\n'] + "";
      FieldsSeparated(data, '\n', "");
    }
  }

  /** Splitting at line breaks keeps the words. */
  lemma {:induction false} FieldsOfBreakSplit(s: string)
    ensures FlatFields(SplitFunc(s, IsBreak)) == Fields(s)
    decreases |s|
  {
    match IndexFunc(s, IsBreak)
    case None =>
      assert [s][1..] == [];
    case Some(k) =>
      var rest := SplitFunc(s[k + 1..], IsBreak);
      FieldsOfBreakSplit(s[k + 1..]);
      assert ([s[..k]] + rest)[1..] == rest;
      assert s == s[..k] + [s[k]] + s[k + 1..];
      FieldsSeparated(s[..k], s[k], s[k + 1..]);
  }

  /** An indentation of tabs or spaces is white space. */
  lemma UniformSpaces(cfg: IndentConfig, ind: string)
    requires Uniform(cfg, ind)
    ensures Spaces(ind)
  {
  }

  /** A text made of whole lines has the words of its lines: `Final` returns
      the words the fragments hold. */
  lemma {:induction false} FieldsOfLines(frags: seq<string>, ind: string)
    requires forall j :: 0 <= j < |frags| ==> IsLineAt(ind, frags[j])
    ensures Fields(Join(frags, "")) == FlatFields(frags)
    decreases |frags|
  {
    if |frags| == 1 {
      assert frags[1..] == [];
      assert Fields(frags[0]) + [] == Fields(frags[0]);
    } else if |frags| > 1 {
      var rest := frags[1..];
      assert forall j :: 0 <= j < |rest| ==> rest[j] == frags[j + 1];
      FieldsOfLines(rest, ind);
      assert Join(frags, "") == frags[0] + Join(rest, "");
      FieldsAppend(frags[0], Join(rest, ""));
    }
  }
}
