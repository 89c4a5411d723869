# html2pug-go: the conversion engine, modelled in Dafny

html2pug-go turns a parsed HTML tree into Pug (formerly Jade) source text. This
project models the engine that does the conversion:

- **The writer** (`Writers`). It holds the formatting rules:
  - the tag head `tag#id.class1.class2`, in which `div` is left out;
  - the attribute clause `(name='value', …)`, with its choice of quote and the
    escaping of line breaks;
  - the test for text that fits on the tag's own line;
  - the text pipeline each line goes through: the pipe prefix, trimming that
    depends on the siblings, character references, doubled backslashes, and
    wrapping by the greedy `BreakLine`.
- **The validators and the text-node merge** (`Util`).
- **The output** (`Output`). It keeps an indentation string, which `Enter` and
  `Leave` grow and shrink, and a buffer of fragments, which `Write` and
  `WriteLine` append to and `Final` drains.
- **The tree walker** (`Convertors`). It dispatches on the kind of node:
  - elements, with the special cases `script`, `style`, `pre` and the synthetic
    `conditional`, and the `bodyless` and `keepHead` options;
  - text, comments and conditional comments;
  - the doctype line.
- **The document record and its two queries** (`Documents`).

Supporting modules:

- `Dom`: the HTML node tree, as a datatype whose nodes own their children.
- `Entities`: the option and record types.
- `GoStrings`: the pieces of Go's `strings`, `unicode`, `html` and `regexp`
  packages the engine calls, written as functions on `seq<char>`.
- `Wrappers`: an `Option`.

How the model is built:

- **The walker's methods** write through a `StringOutput` object. Each method
  is proved against a function on the output's state, `OutState(indents,
  fragments)`: for example `Convertor.Element` ensures `out.State() ==
  ElementF(…, old(out.State()))`.
- **The writer is a datatype.** It is never changed after `NewWriter` builds it.
- **Properties of whole conversions** are lemmas on the functions, chiefly:
  - every conversion only appends whole output and returns to the indentation
    it started from (`Extends`);
  - no word is lost or added in the lines of a comment, and in the content of
    a `script` or `style` that is written as it is (under Scalate, or with a
    `src` attribute); text written with the pipe or with character references
    is described line by line instead (`TextLinePiped`, `TextLineUnpiped`);
  - class names split between the tag head and the `class=` attribute;
  - the tag head reads back as its parts.

The walker is built on the corrected forms of the three pieces listed under
"Findings": the `Leave` that undoes `Enter`, the tag head with the id trimmed, and
the `pre` block that ends its last line. Its properties (`ElementExtends`,
`DocumentExtends`, …) are properties of that corrected program. The code as
written is modelled beside it (`ElementAsWrittenF` and its partners, defined
for tabs or `nSpaces >= 0`, where `Leave` does not panic). The two agree with
tabs or with `nSpaces >= 1`, on a tree whose ids have no surrounding white
space and whose `pre` elements hold only blank text (`ElementAsWrittenAgrees`,
`DocumentAsWrittenAgrees`). Outside these conditions the code as written
differs: with `nSpaces` 0 the indentation grows with every element
(`ChildrenAsWrittenDeepens`), and a `pre` block leaves its last line open.

The walker also changes the tree: a conditional comment appends a
`conditional` element to its parent, and the loop that is visiting that parent
reaches the new element later. The model follows this by letting the child
sequence the `Children` loop walks grow by that element (`Visited`).

Behaviours of the code as written that the model records (they are not
treated as bugs):

- **The conditional opener stays in.** `Conditional` removes the text
  `" [if " + condition + "]> "`. The captured condition already begins with
  `if`, so the text it removes holds `if` twice and is normally absent. The
  opener therefore stays in the element's text (`ConditionalKeepsOpener`).
- **`\r\n` in a `pre` text is indented twice.** It is first replaced by a
  newline and the indentation, and then that newline is indented again
  (`PreTextIndentsCrlfTwice`). A lone `\n` is indented once (`PreTextIndentsLf`).
- **A parsed doctype writes no line.** `GetDocType` stores a doctype record
  whose fields are all empty. The converter's doctype tables are never filled.
  So no `doctype` line is ever written for a parsed document
  (`ParsedDoctypeWritesNothing`, `NewConvertorResolvesOnlyHtml`).
- **The walker never wraps text.** None of the text options it passes sets
  `Wrap`, so the wrapping branch of `WriteTextLine` is never taken during a
  conversion (`ChildTextOptions`).

## Model

| member | source | states |
|---|---|---|
| Util.ValidatorsAgree | pkg/html2pug-go/util/util.go:11-22 | The id test and the class-name test accept exactly the same strings, and both reject the empty string. |
| Util.ValidNameIsShorthand | pkg/html2pug-go/util/util.go:15-18 | A valid id, once trimmed, is a single word with no white space, dot, hash or parenthesis, so it can follow `#` or `.` in a head. |
| Util.TrimmedWord | pkg/html2pug-go/util/util.go:16 | Trimming leaves a word without surrounding white space unchanged. |
| Util.FindAttr | pkg/html2pug-go/util/util.go:51-56 | The position of the first attribute with the key, with no earlier match; none exactly when no attribute has the key. |
| Util.HasAttr | pkg/html2pug-go/util/util.go:50-57 | True exactly when some attribute has the key. |
| Util.GetAttr | pkg/html2pug-go/util/util.go:59-66 | The value of the first attribute with the key, and `""` when no attribute has it. |
| Util.NormalizeTextNode | pkg/html2pug-go/util/util.go:24-48 | The loop leaves the parent with its children merged (`Merged`): each text child that follows a kept text child is appended to it and dropped. |
| Util.MergedNoAdjacentText | pkg/html2pug-go/util/util.go:28-47 | After the merge, no two consecutive children are both text nodes. |
| Util.MergedKeepsNonText | pkg/html2pug-go/util/util.go:32-43 | The merge keeps every non-text child, in the same order. |
| Util.MergedKeepsSegments | pkg/html2pug-go/util/util.go:32-43 | The text between any two non-text children is kept: each maximal run of text children becomes one node holding their concatenated data. |
| Util.MergedIdentity | pkg/html2pug-go/util/util.go:24-48 | Children with no two adjacent text nodes are left exactly as they are. |
| Util.MergedIdempotent | pkg/html2pug-go/util/util.go:24-48 | A second merge changes nothing. |
| Util.NormalizeChildless | pkg/html2pug-go/util/util.go:28 | A node without children, such as the text node `Text` merges, is left unchanged. |
| Output.StringOutput.constructor | pkg/html2pug-go/stringoutput.go:14-25 | A new output has no indentation and no fragments. |
| Output.StringOutput.Write | pkg/html2pug-go/stringoutput.go:29-36 | Appends exactly one fragment, `indents + data` or `data`, and keeps the indentation. |
| Output.TextOfWrite | pkg/html2pug-go/stringoutput.go:29-36 | `Write` keeps the indentation and extends the final text by the indentation (when asked) and `data`. |
| Output.StringOutput.WriteLine | pkg/html2pug-go/stringoutput.go:37-48 | Drops a line that is empty after trimming ASCII spaces; otherwise appends one fragment ending in a newline, after the indentation when asked. |
| Output.TextOfWriteLine | pkg/html2pug-go/stringoutput.go:37-48 | A line of spaces only changes nothing; any other line adds exactly that line and a newline to the final text; the indentation is kept. |
| Output.StringOutput.Final | pkg/html2pug-go/stringoutput.go:50-54 | Returns the fragments concatenated in order and empties the buffer, keeping the indentation. |
| Output.StringOutput.GetIndents | pkg/html2pug-go/stringoutput.go:26-28 | Returns the current indentation. |
| Output.FinalTwice | pkg/html2pug-go/stringoutput.go:50-54 | A second `Final` right after the first returns `""`, and the indentation is unchanged. |
| Output.StringOutput.Enter | pkg/html2pug-go/output.go:53-74 | Appends one tab with tabs; `nSpaces` spaces when `nSpaces >= 1`; `2 - nSpaces` spaces otherwise, the counting-down loop ending; the fragments are kept. |
| Output.StringOutput.Leave | pkg/html2pug-go/output.go:77-87 | The corrected `Leave`: removes one step of the width `Enter` adds when the indentation is that long, and otherwise leaves it. |
| Output.EnterThenLeave | pkg/html2pug-go/output.go:53-87 | On an indentation of whole steps, `Enter` then `Leave` restores the state exactly, and `Enter` keeps the indentation made of the step character. |
| Output.LeaveKeepsUniform | pkg/html2pug-go/output.go:77-87 | `Leave` keeps the indentation made of the step character, never lengthens it and keeps the fragments. |
| Output.LeaveAsWrittenAgrees | pkg/html2pug-go/output.go:77-87 | With tabs, or with `nSpaces >= 1`, `Leave` as written is the corrected `Leave`. |
| Output.LeaveAsWrittenUnbalanced | pkg/html2pug-go/output.go:65-85 | With `nSpaces` 0, `Enter` adds two spaces and `Leave` as written removes none. |
| Output.LeaveAsWrittenPanics | pkg/html2pug-go/output.go:83-84 | With a negative `nSpaces`, `Leave` as written slices at a negative index (a panic). |
| Output.LeaveAsWritten | pkg/html2pug-go/output.go:77-87 | `Leave` as written keeps a suffix of the indentation; it panics exactly for a negative `nSpaces` without tabs; with `nSpaces` 0 it keeps the indentation. |
| Output.LeaveStateAsWritten | pkg/html2pug-go/output.go:77-87 | On the whole state, `Leave` as written keeps the fragments, is the corrected `Leave` with tabs or `nSpaces >= 1`, and changes nothing with `nSpaces` 0. |
| Writers.NewWriter | pkg/html2pug-go/writer.go:24-76 | A missing writer record reads as one with every field unset, and every unset flag as `false`. The wrap length is the given one, or 80. Scalate is the Scalate flag. The separator is a single space exactly when Scalate or no-comma is set, `, ` otherwise. The attribute quote is `"` exactly when Double is set, `'` otherwise, and the other quote is the other character. `noEmptyPipe` is the NoEmptyPipe flag. |
| Writers.Writer.BreakLine | pkg/html2pug-go/writer.go:79-117 | The loop returns `BrokenLines(line)`, the greedy wrapping whose properties follow. |
| Writers.Writer.BrokenLinesKeepWords | pkg/html2pug-go/writer.go:81-114 | The empty line gives no lines; a line without a space gives itself; in every case the fields of the lines, and of the lines joined, are the fields of the input in order. |
| Writers.Writer.BrokenLinesFit | pkg/html2pug-go/writer.go:99-108 | Every output line is made of single-space-separated words; a line of two or more words is at most the wrap length plus one long (the joining space is not counted); a longer word sits on a line of its own. |
| Writers.Writer.BrokenLinesShrink | pkg/html2pug-go/writer.go:319-326 | When a line breaks into more than one piece, every piece has fewer words, or no space, so the recursion of `WriteTextLine` ends. |
| Writers.Writer.GreedyLinesOk | pkg/html2pug-go/writer.go:94-114 | Every line the loop finishes is a wrapper line: words separated by single spaces, within the length bound. |
| Writers.Writer.GreedyWords | pkg/html2pug-go/writer.go:94-114 | The lines the loop produces hold the words of the current line and then the remaining words, in order. |
| Writers.Writer.GreedyWordsStep | pkg/html2pug-go/writer.go:95-108 | Placing one word, on a new line or on the current one, keeps every word in order. |
| Writers.Writer.GreedyWordsBreak | pkg/html2pug-go/writer.go:99-101 | A word that does not fit finishes the current line and starts the next, and no word is lost. |
| Writers.Writer.GreedyNoEmptyLine | pkg/html2pug-go/writer.go:99-114 | Once the current line is non-empty, no empty line is produced. |
| Writers.Writer.GreedyHead | pkg/html2pug-go/writer.go:99-101 | A current line already longer than the wrap length is finished as it is. |
| Writers.Writer.ExtendLine | pkg/html2pug-go/writer.go:102-104 | Appending a word that fits to a non-empty line adds exactly that word and keeps a wrapper line. |
| Writers.Writer.GreedyPrefix | pkg/html2pug-go/writer.go:90-116 | The lines finished before the loop continues stay at the front of the result. |
| Writers.Writer.BuildTagAttribute | pkg/html2pug-go/writer.go:120-129 | Always starts with `name=`; uses the primary quote when the value lacks it, else the other quote when the value lacks that, else the primary quote with every inner primary quote escaped by a backslash. |
| Writers.Writer.AttributeReadsBack | pkg/html2pug-go/writer.go:120-129 | For a value without a backslash, reading the text after `name=` as a quoted string gives the value back. |
| Writers.Writer.TagAttribute | pkg/html2pug-go/writer.go:143-185 | `""` for a nil node, a non-element or an element without attributes; a non-empty clause is `(`, the entries joined by the separator, and `)`. |
| Writers.Writer.AttrEntryOf | pkg/html2pug-go/writer.go:154-178 | One attribute contributes the entry `AttrEntry` describes: none for a valid id; one `class` entry when some class names are invalid; one escaped entry otherwise. |
| Writers.Writer.AttrEntriesAppend | pkg/html2pug-go/writer.go:154-179 | The entries of two runs of attributes are the entries of the first, then of the second. |
| Writers.Writer.AttrEntriesOther | pkg/html2pug-go/writer.go:173-178 | Without `id` and `class` attributes, the clause has one entry per attribute, in order, each with its line breaks escaped. |
| Writers.Writer.AttrEntriesSkipValidId | pkg/html2pug-go/writer.go:158-160 | A valid `id` attribute contributes nothing: the clause is that of the other attributes. |
| Writers.Writer.ClassEntryHoldsInvalidNames | pkg/html2pug-go/writer.go:161-172 | A `class` attribute has an entry exactly when some class name fails the test, and the entry's value holds exactly the failing names. |
| Writers.FilterInvalidClassNames | pkg/html2pug-go/writer.go:162-168 | The loop keeps the non-empty class names that fail the test, in order. |
| Writers.FilterValidClassNames | pkg/html2pug-go/writer.go:215-222 | The loop keeps the non-empty class names that pass the test, in order. |
| Writers.ClassPartition | pkg/html2pug-go/writer.go:158-226 | A class name goes to the head exactly when it passes the test, and to the `class=` attribute exactly when it fails it; between them the two sides hold every word of the attribute, as a multiset. |
| Writers.ClassMembers | pkg/html2pug-go/writer.go:158-226 | Membership in the valid and the invalid class names, as an if-and-only-if. |
| Writers.ClassMultiset | pkg/html2pug-go/writer.go:161-222 | The valid and invalid class names together are the class words, as a multiset. |
| Writers.FilteredWords | pkg/html2pug-go/writer.go:161-222 | Both filters keep only names they were given, so words stay words. |
| Writers.EscapeAttrBreaks | pkg/html2pug-go/writer.go:175-176 | The escaped value never starts with a line break. |
| Writers.BreaksEscaped | pkg/html2pug-go/writer.go:175-176 | Every line break left in the escaped value comes right after a backslash. |
| Writers.NoBreaksUnchanged | pkg/html2pug-go/writer.go:175-176 | A value without line breaks is kept as it is. |
| Writers.Writer.TagHead | pkg/html2pug-go/writer.go:188-233 | Returns the corrected head `HeadOf(node)`; it is never empty, and it is `div` for a nil node or a non-element. |
| Writers.ScanHeadAttributes | pkg/html2pug-go/writer.go:199-209 | The one pass over the attributes finds the last `id` value and the last `class` value, or `""`. |
| Writers.HeadFrom | pkg/html2pug-go/writer.go:188-233 | The head is never empty. |
| Writers.HeadOfElement | pkg/html2pug-go/writer.go:193-230 | The head of an element is its tag part, id part and class part, in that order, or `div` when all three are empty. |
| Writers.HeadReadsBack | pkg/html2pug-go/writer.go:188-233 | Read back at `.` and `#`, the head gives the lower-cased tag name (or `div`), the trimmed valid id and the valid class names, whenever the tag name holds no dot or hash. |
| Writers.DivReadsBack | pkg/html2pug-go/writer.go:228-230 | The head `div` reads back as a `div` with no id and no classes. |
| Writers.TagIdReadsBack | pkg/html2pug-go/writer.go:211-213 | The part before `#` is the tag, and the part after it is the trimmed valid id. |
| Writers.PrefixReadsBack | pkg/html2pug-go/writer.go:223-225 | The part before the first dot is the tag and id, and the rest are the class names. |
| Writers.ClassNamesHaveNoDot | pkg/html2pug-go/writer.go:216-224 | No class name the head writes holds a dot. |
| Writers.ValidNamesAreShorthand | pkg/html2pug-go/writer.go:218-221 | No valid class name holds a dot or a hash. |
| Writers.TagHeadKeepsSpacedId | pkg/html2pug-go/writer.go:211-213 | As written, a `div` whose id is `" x "` gets the head `"# x "`, which reads back with the id `" x "`; the corrected head is `"#x"`. |
| Writers.TagHeadAsWritten | pkg/html2pug-go/writer.go:188-233 | The head as written is never empty, is `div` for a nil node or a non-element, and is the corrected head whenever the last `id` value has no surrounding white space. |
| Writers.Writer.TagText | pkg/html2pug-go/writer.go:236-257 | Some text exactly when the node has one child, a text node, at most the wrap length long and without `\r` or `\n`; the text is then that child's data. |
| Writers.ForEachChild | pkg/html2pug-go/writer.go:132-140 | Nothing for a nil parent; otherwise each child in order, with the kinds of its neighbours. |
| Dom.SiblingsAt | pkg/html2pug-go/writer.go:296-303 | A child has a previous sibling exactly when it is not first, and a next one exactly when it is not last; the kinds are those of its neighbours. |
| Writers.Trimmed | pkg/html2pug-go/writer.go:295-304 | Trimming spaces next to a non-element sibling keeps the words, adds no space, and changes nothing when both neighbours are elements or missing. |
| Writers.Writer.TrimLine | pkg/html2pug-go/writer.go:295-304 | The two trims, left then right, give `Trimmed`. |
| Writers.TrimBlankFacts | pkg/html2pug-go/writer.go:297-303 | Cutting ASCII spaces at either end keeps the words and adds no space. |
| Writers.Encoded | pkg/html2pug-go/writer.go:307-314 | The rewritings keep the number of words, add no space, never shorten the line, and change nothing when neither is asked for. |
| Writers.Writer.EncodeLine | pkg/html2pug-go/writer.go:307-314 | Character references, then doubled backslashes, as the options ask, give `Encoded`. |
| GoStrings.EscapedHasNoMarkup | pkg/html2pug-go/writer.go:309 | No `<`, `>`, `"` or `'` is left after `html.EscapeString`. |
| Writers.Writer.WriteTextLine | pkg/html2pug-go/writer.go:283-330 | The method leaves the output as `WriteTextLineF` says; what that writes is stated by the lemmas that follow. |
| Writers.Writer.TextLinePiped | pkg/html2pug-go/writer.go:284-322 | Under the pipe, a line that is kept, is not trimmed to nothing and needs no wrapping is written as exactly one line: the indentation, `| `, the trimmed and encoded line, and a newline. |
| Writers.Writer.TextLineUnpiped | pkg/html2pug-go/writer.go:284-322 | Without the pipe, such a line is written as exactly one line, the indentation, the trimmed and encoded line and a newline, when the encoded line holds a character other than a space. |
| Writers.Writer.TextLineWritesNothing | pkg/html2pug-go/writer.go:284-322 | Nothing is written for a blank line under the pipe with `noEmptyPipe`, for a line the trims make empty, or, without the pipe and without wrapping, for a line that is all spaces once encoded. |
| Writers.Writer.WriteEncoded | pkg/html2pug-go/writer.go:316-328 | The wrap test: one line with the prefix, or each piece of the broken line through the whole pipeline again. |
| Writers.Writer.WritePieces | pkg/html2pug-go/writer.go:324-326 | The pieces go one after the other through `WriteTextLine`. |
| Writers.Writer.TextLineAddsLines | pkg/html2pug-go/writer.go:283-330 | `WriteTextLine` keeps the indentation and the earlier output, and adds only whole lines at the current indentation. |
| Writers.Writer.TextLineWords | pkg/html2pug-go/writer.go:283-330 | With no pipe and no rewriting, `WriteTextLine` writes exactly the words of the line, in order, wrapped or not. |
| Writers.Writer.EncodedAddsLines | pkg/html2pug-go/writer.go:316-328 | The wrap step adds only whole lines at the indentation. |
| Writers.Writer.EncodedWords | pkg/html2pug-go/writer.go:316-328 | With no pipe and no rewriting, the wrap step writes exactly the words of the line. |
| Writers.Writer.LinesAddLines | pkg/html2pug-go/writer.go:324-326 | The pieces add only whole lines at the indentation. |
| Writers.Writer.LinesWords | pkg/html2pug-go/writer.go:324-326 | With no pipe and no rewriting, the pieces write exactly their words, in order. |
| Writers.Writer.LinesKeepIndents | pkg/html2pug-go/writer.go:324-326 | Writing the pieces keeps the indentation. |
| Writers.Writer.PieceMeasure | pkg/html2pug-go/writer.go:319-326 | Every piece of a line that breaks is smaller than the line. |
| Writers.Writer.WriteText | pkg/html2pug-go/writer.go:260-271 | The method leaves the output as `WriteTextF` says: a non-empty text node's lines, split at `\r` and `\n`, each through `WriteTextLine`. |
| Writers.Writer.TextAddsLines | pkg/html2pug-go/writer.go:260-271 | `WriteText` adds only whole lines at the current indentation. |
| Writers.Writer.TextWords | pkg/html2pug-go/writer.go:260-271 | With no pipe and no rewriting, `WriteText` writes the words of a text node and nothing for any other node. |
| Writers.FieldsOfBreakSplit | pkg/html2pug-go/writer.go:264-265 | Splitting at line breaks keeps the words. |
| Writers.Writer.WriteTextContent | pkg/html2pug-go/writer.go:274-280 | The method enters a step, writes each child's text and leaves the step. |
| Writers.Writer.WriteChildTexts | pkg/html2pug-go/writer.go:276-278 | The callback runs over every child with its sibling links, in order. |
| Writers.Writer.ChildTextsStep | pkg/html2pug-go/writer.go:276-278 | One more child through `WriteText` extends the children's text by that child. |
| Writers.Writer.ChildTextsAddLines | pkg/html2pug-go/writer.go:276-278 | The children's text adds only whole lines at the indentation. |
| Writers.Writer.ChildTextsKeepIndents | pkg/html2pug-go/writer.go:276-278 | The children's text keeps the indentation. |
| Writers.Writer.ChildTextsWords | pkg/html2pug-go/writer.go:276-278 | With no pipe and no rewriting, the children's text holds the words of the text children, in order. |
| Writers.Writer.ContentBalanced | pkg/html2pug-go/writer.go:274-280 | `WriteTextContent` returns to the indentation it started from, keeps the earlier output, and adds only whole lines one step further in. |
| Writers.Writer.ContentWords | pkg/html2pug-go/writer.go:274-280 | With no pipe and no rewriting, `WriteTextContent` writes the words of the node's text children, in order, and nothing else. |
| Writers.WriteLineAddsLine | pkg/html2pug-go/stringoutput.go:37-48 | One `WriteLine` at the current indentation adds nothing or one whole line. |
| Writers.WriteLineWords | pkg/html2pug-go/stringoutput.go:37-48 | A `WriteLine` at an indentation of white space adds exactly the words of the data. |
| Writers.FieldsOfLines | pkg/html2pug-go/stringoutput.go:50-54 | The text `Final` returns from whole lines holds the words of the lines, in order. |
| Writers.UniformSpaces | pkg/html2pug-go/output.go:53-74 | An indentation of tabs or spaces is white space. |
| GoStrings.Fields | pkg/html2pug-go/writer.go:92 | `strings.Fields` yields non-empty words without white space. |
| GoStrings.FieldsOfJoin | pkg/html2pug-go/writer.go:170 | Splitting a space-joined list of words into fields gives the list back. |
| GoStrings.JoinOfSplit | pkg/html2pug-go/convertor.go:47 | Joining the pieces of `strings.Split` with the separator gives the string back. |
| GoStrings.ReplaceAllChar | pkg/html2pug-go/writer.go:126 | Replacing a one-character string is a per-character rewriting. |
| GoStrings.TrimFuncEmpty | pkg/html2pug-go/stringoutput.go:39 | Trimming leaves nothing exactly when every character is cut. |
| GoStrings.ToLower | pkg/html2pug-go/convertor.go:225 | Same length; each ASCII capital is lowered and every other character kept. |
| Documents.Document.constructor | pkg/entities/document.go:5-9 | A document holds the doctype record, the document element and the root it is built with. |
| Documents.DocTypeAfter | pkg/entities/document.go:11-18 | An empty doctype record when some node of the chain is a doctype node; the record held before when none is. |
| Documents.Document.GetDocType | pkg/entities/document.go:11-18 | The loop over the root's sibling chain stores `DocTypeAfter` and returns it. |
| Documents.Document.GetElementsByTagName | pkg/entities/document.go:19-34 | Nothing for a nil root; otherwise the element nodes whose name is the tag exactly, in pre-order, and only such nodes. |
| Documents.ElementsNamedInPreOrder | pkg/entities/document.go:19-29 | The recursive traversal is the pre-order filter. |
| Documents.Filter | pkg/entities/document.go:22-24 | A node is kept exactly when it is an element with that name. |
| Documents.FilterAppend | pkg/entities/document.go:25-27 | Filtering two runs of nodes is filtering each one. |
| Convertors.FirstCondition | pkg/html2pug-go/convertor.go:34-35 | The leftmost position at or after the start where the conditional pattern matches, with no match before it; none when no position matches. |
| Convertors.FindConditionLeftmost | pkg/html2pug-go/convertor.go:34-35 | No match exactly when the pattern matches nowhere; otherwise the capture of the leftmost match. |
| Convertors.ConditionAtMatches | pkg/html2pug-go/convertor.go:34 | The capture at a position is `c` exactly when `\s*\[(if\s+[^\]]+)\]` matches there, capturing `c`. |
| Convertors.ConditionAtSound | pkg/html2pug-go/convertor.go:34 | A capture found at a position is a match of the pattern. |
| Convertors.MatchesAtFound | pkg/html2pug-go/convertor.go:34 | A match of the pattern is found at its position. |
| Convertors.ConditionalElement | pkg/html2pug-go/convertor.go:65-95 | A `conditional` element with the single attribute `condition`. When the inner text starts with `<!`, the condition is `" [" + c + "] <!"` and there is no child; otherwise there is one text child exactly when the inner text is non-empty. |
| Convertors.InnerHtml | pkg/html2pug-go/convertor.go:67-69 | The inner text is never longer than the trimmed comment, and is the trimmed comment itself when that holds no space and no `<`. |
| Convertors.Convertor.Conditional | pkg/html2pug-go/convertor.go:65-95 | The parent's children gain exactly one element at the end, the conditional element. |
| Convertors.Visited | pkg/html2pug-go/convertor.go:93-94 | Visiting a child keeps the children before it and adds at most one at the end. |
| Convertors.VisitedShrinks | pkg/html2pug-go/convertor.go:194-213 | The children still to visit weigh less after every visit, so the loop ends even though the tree grows. |
| Convertors.ConditionalKeepsOpener | pkg/html2pug-go/convertor.go:67-68 | For the comment `[if\tI]>x` the condition is `if\tI`, and the element's text child is the whole comment: the opener is not removed. |
| Convertors.SampleInner | pkg/html2pug-go/convertor.go:67-69 | The inner text of that comment is the comment itself. |
| Convertors.ChildTextOptions | pkg/html2pug-go/convertor.go:198-209 | A text child always gets character references and never wrapping or doubled backslashes; it gets the pipe exactly when the parent is `code`. |
| Convertors.Convertor.ResolveDoctype | pkg/html2pug-go/convertor.go:154-169 | A public identifier consults only the public table; otherwise a system identifier consults only the system table; otherwise the name `html`, in any case, gives `html` and anything else gives nothing. |
| Convertors.Convertor.ParsedDoctypeWritesNothing | pkg/html2pug-go/convertor.go:151-173 | The record `GetDocType` stores never resolves, so no doctype line is written. |
| Convertors.NewConvertor | pkg/html2pug-go/convertor.go:20-29 | The converter keeps its options and writer, and its doctype tables are empty. |
| Convertors.NewConvertorResolvesOnlyHtml | pkg/html2pug-go/convertor.go:20-29 | Such a converter resolves a record exactly when it has no identifiers and is named `html`. |
| Convertors.GetElementsByTagName | pkg/html2pug-go/convertor.go:292-298 | At most one element: the document element alone, exactly when its lower-cased tag name is the tag. |
| Convertors.Convertor.Element | pkg/html2pug-go/convertor.go:220-290 | The method leaves the output as `ElementF` says: nothing for a nil node or a non-element; otherwise the branches for `script`/`style`, `conditional`, `pre`, `bodyless`, `keepHead`, inline text and children. `ElementF` uses the corrected `Leave`, the trimmed-id head and the corrected end of a `pre` block. |
| Convertors.Convertor.ElementExtends | pkg/html2pug-go/convertor.go:220-290 | The corrected walker, converting an element, keeps the indentation and the earlier output, only appends, and ends at a line start if it started at one. |
| Convertors.Convertor.Children | pkg/html2pug-go/convertor.go:188-218 | The loop converts the children in order, including any appended conditional element, one step further in when asked, leaving the step by the corrected `Leave`. |
| Convertors.Convertor.ChildrenExtends | pkg/html2pug-go/convertor.go:188-218 | With the corrected `Leave`, converting the children returns to the indentation it started from and only appends. |
| Convertors.Convertor.ChildLoopExtends | pkg/html2pug-go/convertor.go:194-213 | The loop from any child on only appends and keeps the indentation. |
| Convertors.Convertor.VisitChild | pkg/html2pug-go/convertor.go:195-212 | One turn of the loop: the dispatch on the child's kind; the children afterwards are `Visited`. |
| Convertors.Convertor.VisitExtends | pkg/html2pug-go/convertor.go:195-212 | One turn of the loop only appends and keeps the indentation. |
| Convertors.Convertor.LineThenChildrenExtends | pkg/html2pug-go/convertor.go:284-285 | A head line followed by the children one step in continues the output. |
| Convertors.Convertor.LineThenContentExtends | pkg/html2pug-go/convertor.go:232-237 | A head line followed by the text content continues the output. |
| Convertors.Convertor.Comment | pkg/html2pug-go/convertor.go:32-62 | The method writes what `CommentF` says and returns the children with the conditional element appended for a conditional comment. |
| Convertors.Convertor.CommentOneLine | pkg/html2pug-go/convertor.go:37-42 | A comment with no condition and no line break adds exactly the line `// ` and its trimmed text. |
| Convertors.Convertor.CommentWords | pkg/html2pug-go/convertor.go:43-56 | A comment over several lines writes `//` and then its pieces one step in; no word is lost or added. |
| Convertors.FieldsOfCrlfSplit | pkg/html2pug-go/convertor.go:47 | Splitting at `\r\n` keeps the words. |
| Convertors.Convertor.CommentExtends | pkg/html2pug-go/convertor.go:32-62 | Converting a comment only appends and keeps the indentation. |
| Convertors.Convertor.Text | pkg/html2pug-go/convertor.go:143-147 | The text node, merged, through `WriteText`. |
| Convertors.Convertor.TextExtends | pkg/html2pug-go/convertor.go:143-147 | Converting text adds only whole lines. |
| Convertors.Convertor.Script | pkg/html2pug-go/convertor.go:98-121 | `:javascript` and plain content with Scalate; otherwise the head line with `.` and the content with doubled backslashes. |
| Convertors.Convertor.ScriptExtends | pkg/html2pug-go/convertor.go:98-121 | Converting a script only appends and keeps the indentation. |
| Convertors.Convertor.Style | pkg/html2pug-go/convertor.go:124-141 | `:css` and plain content with Scalate; otherwise the head line with `.` and the content. |
| Convertors.Convertor.StyleExtends | pkg/html2pug-go/convertor.go:124-141 | Converting a style only appends and keeps the indentation. |
| Convertors.Convertor.PreBlock | pkg/html2pug-go/convertor.go:247-269 | The method leaves the output as the corrected `PreBlockF` says: head line, one step in, the texts through the loop, the last line ended, one step out. |
| Convertors.PreChild | pkg/html2pug-go/convertor.go:251-266 | One child through the loop: only a text that is not blank is written, and the first one clears `firstLine`. |
| Convertors.PreStep | pkg/html2pug-go/convertor.go:252-265 | A text child that is not blank adds one fragment, the indentation then `PreText`, and clears `firstLine`; any other child changes nothing; the indentation is kept. |
| Convertors.Convertor.PreBlockEndsLine | pkg/html2pug-go/convertor.go:247-269 | The corrected block only appends and keeps the indentation; once it wrote text after its head line, it ends at a line start. |
| Convertors.PreLoopExtends | pkg/html2pug-go/convertor.go:251-267 | The loop keeps the indentation and only appends; while no text was written, nothing changed. |
| Convertors.PreStepPlain | pkg/html2pug-go/convertor.go:252-264 | A first text without tab, `\r` or `\n` is written after the indentation as a literal `\n` and the text. |
| Convertors.PreTextOfPlain | pkg/html2pug-go/convertor.go:255-263 | A first text without tab, `\r` or `\n` becomes a literal `\n` and the text. |
| Convertors.PreTextPlain | pkg/html2pug-go/convertor.go:255-263 | A text without tab, `\r` or `\n` passes the replacements unchanged. |
| Convertors.PreText | pkg/html2pug-go/convertor.go:252-263 | The text written holds no `\r`, and no tab unless the indentation holds one. |
| Convertors.PreTextIndentsLf | pkg/html2pug-go/convertor.go:263 | A `\n` in the text gets the indentation once. |
| Convertors.PreTextIndentsCrlfTwice | pkg/html2pug-go/convertor.go:261-263 | A `\r\n` in the text gets the indentation twice. |
| Convertors.PreSampleLoop | pkg/html2pug-go/convertor.go:251-266 | For `pre` holding `x`, with two-space steps, the loop writes the fragment of two spaces, a literal `\n` and `x`. |
| Convertors.WriteLineEmpty | pkg/html2pug-go/convertor.go:268 | `WriteLine("", true)` writes nothing. |
| Convertors.CloseAndLeave | pkg/html2pug-go/convertor.go:268-269 | Ending the line and then leaving the step is at a line start, one step out. |
| Convertors.Convertor.PreBlockAsWrittenLeavesLineOpen | pkg/html2pug-go/convertor.go:247-269 | As written, `pre` holding `x` from an empty output leaves the output in the middle of a line. |
| Convertors.Convertor.PreBlockAsWrittenF | pkg/html2pug-go/convertor.go:247-269 | The block as written writes the fragments of the corrected block, or those without the final newline; with tabs or `nSpaces >= 1` and only blank texts it is the corrected block. |
| Convertors.Convertor.PreBlockSampleEndsLine | pkg/html2pug-go/convertor.go:247-269 | The corrected block ends the same text with a newline, at a line start. |
| Convertors.Convertor.Document | pkg/html2pug-go/convertor.go:149-185 | The document's doctype record becomes `DocTypeAfter` its chain; then the doctype line, and the root's children when there is a document element, else the first `html` element of the tree, through the corrected walker. |
| Convertors.Convertor.DocumentExtends | pkg/html2pug-go/convertor.go:149-185 | The corrected walker's document conversion only appends; from an empty output the indentation is back to none and the text `Final` returns is empty or ends with a newline. |
| Convertors.Convertor.ElementAsWrittenAgrees | pkg/html2pug-go/convertor.go:220-290 | With tabs or `nSpaces >= 1`, on a tree whose last `id` values need no trimming and whose `pre` elements hold only blank text, the element conversion as written is the corrected one. |
| Convertors.Convertor.ChildrenAsWrittenAgrees | pkg/html2pug-go/convertor.go:188-218 | Under the same conditions on the children, the children conversion as written is the corrected one. |
| Convertors.Convertor.ChildLoopAsWrittenAgrees | pkg/html2pug-go/convertor.go:194-213 | The loop as written agrees with the corrected loop from any child on, the appended conditional element included. |
| Convertors.Convertor.VisitAsWrittenAgrees | pkg/html2pug-go/convertor.go:195-212 | One turn of the loop as written agrees with the corrected turn. |
| Convertors.Convertor.DocumentAsWrittenAgrees | pkg/html2pug-go/convertor.go:149-185 | Under the same conditions on the root's tree, the document conversion as written is the corrected one. |
| Convertors.Convertor.ChildrenAsWrittenDeepens | pkg/html2pug-go/convertor.go:188-218 | As written, with `nSpaces` 0, converting the children of an element without children leaves the indentation two spaces longer; the corrected walker restores it. |
| Convertors.TextEndsLine | pkg/html2pug-go/stringoutput.go:50-54 | At a line start, the text `Final` returns is empty or ends with a newline. |

## Left out

- HTML parsing (`pkg/parser.go`, `golang.org/x/net/html`): the model takes a parsed tree as input. The `html` package's `AppendChild` and `RemoveChild` are seen only through their effect on child sequences.
- The entry points and the plumbing (`pkg/api.go`, `pkg/html2pug-go/api.go`, `examples/main.go`): callbacks, reading input and printing.
- `pkg/streamoutput.go`, and `Output.Write`, `WriteLine`, `Final` and `GetIndents` in `output.go`: they are stubs that do nothing or panic.
- Lengths count characters, not UTF-8 bytes as Go's `len` does; the two agree on ASCII text.
- `strings.ToLower` lowers only the ASCII capitals.
- `html.EscapeString` is modelled as its five replacements of `& ' < > "`.
- The regular expressions are modelled as string functions and not by a regexp engine: `^[\w\-]+$`, `\r|\n`, `(\r|\n)\s*` and the conditional pattern.
- The doctype tables are parameters of `Convertor`; `NewConvertor` leaves them empty, as the code does.
- Convertors.Convertor.Document: requires a root whenever a document element is present; without one, Go dereferences a nil root and panics. The parser never sets the document element.
- Convertors.Convertor.Conditional: the element it appends lives in the child sequence the `Children` loop walks, not in a node shared through parent links. The appended element is not kept in the document after the walk.
- Convertors.Convertor.Comment: works on the child sequence of the loop that visits the comment, where the Go code reaches the parent through `node.Parent`; a comment without a parent, which the walker never visits, is not modelled.
- The `Trim` field of the text options is carried but never read, as in the code.
- Convertors.Convertor.Element: the method, like `Children`, `Comment`, `PreBlock` and `Document`, follows the corrected walker. The walker as written is modelled as functions only (`ElementAsWrittenF` and its partners), and only for tabs or `nSpaces >= 0`; the panic of a negative `nSpaces` is shown on `Leave` alone (`LeaveAsWrittenPanics`).
- Convertors.Convertor.ElementExtends: like `ChildrenExtends` and `DocumentExtends`, it holds of the corrected walker. For the code as written it holds where `ElementAsWrittenAgrees` applies; with `nSpaces` 0 the indentation is not restored (`ChildrenAsWrittenDeepens`), and a `pre` block with text leaves its line open.
- Writers.Writer.TextLineWords: the words lemmas (`TextWords`, `ChildTextsWords`, `ContentWords` too) hold without the pipe and character references. Text children of elements always get character references, so their words are not covered. What they write is given line by line (`TextLinePiped`, `TextLineUnpiped`), and `Encoded` keeps the number of words.
- The output object is modelled for the string output only; the `IStringWriter` interface indirection is left out.

## Findings

| source | as written | input that shows it | evidently intended | confidence | as-written member | corrected member |
|---|---|---|---|---|---|---|
| pkg/html2pug-go/output.go:77-87 | `Leave` removes `nSpaces` characters, but for `nSpaces <= 0` `Enter` added `2 - nSpaces` spaces; 0 removes nothing, and a negative count slices at a negative index | `nSpaces` 0 (the zero value of the option): `Enter` makes `"  "`, `Leave` keeps `"  "` | `Leave` removes what `Enter` added | not executed | Output.LeaveAsWrittenUnbalanced | Output.EnterThenLeave |
| pkg/html2pug-go/writer.go:211-213 | the id is validated after trimming but written untrimmed after `#` | a `div` with the id `" x "` gets the head `"# x "` | the head `#x` | not executed | Writers.TagHeadKeepsSpacedId | Writers.HeadReadsBack |
| pkg/html2pug-go/convertor.go:268 | the `pre` block ends with `WriteLine("", true)`, which writes nothing because `WriteLine` drops blank lines | `<pre>x</pre>`, from an empty output with two-space steps: the output ends with `  \nx` and no newline, so the next line is glued to it | the block's last line ends with a newline | not executed | Convertors.Convertor.PreBlockAsWrittenLeavesLineOpen | Convertors.Convertor.PreBlockEndsLine |
