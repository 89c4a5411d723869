/**
 * The pieces of Go's `strings`, `unicode`, `html` and `regexp` packages that the
 * converter calls, written as functions on `seq<char>`.
 *
 * Lengths are counted in characters: Go's `len` counts UTF-8 bytes, and the two
 * agree on ASCII text.
 */
module GoStrings {
  import opened Wrappers

  // ---------------------------------------------------------------------------
  // Character classes
  // ---------------------------------------------------------------------------

  /** `unicode.IsSpace`: the Latin-1 spaces and the Unicode White_Space characters. */
  predicate IsSpace(c: char) {
    || c == ' ' || c == '\t' || c == '\n' || c == '\U{000B}' || c == '\U{000C}' || c == '\r'
    || c == '\U{0085}' || c == '\U{00A0}' || c == '\U{1680}'
    || ('\U{2000}' <= c <= '\U{200A}')
    || c == '\U{2028}' || c == '\U{2029}' || c == '\U{202F}' || c == '\U{205F}' || c == '\U{3000}'
  }

  /** The RE2 class `\s`: tab, newline, form feed, carriage return and space. */
  predicate IsRegexSpace(c: char) {
    c == '\t' || c == '\n' || c == '\U{000C}' || c == '\r' || c == ' '
  }

  /** The characters matched by the pattern `\r|\n` and by the cutset "\r\n". */
  predicate IsBreak(c: char) {
    c == '\r' || c == '\n'
  }

  /** The one-character cutset " " (an ASCII space and nothing else). */
  predicate IsBlank(c: char) {
    c == ' '
  }

  /** `strings.HasPrefix` */
  predicate HasPrefix(s: string, prefix: string) {
    |prefix| <= |s| && s[..|prefix|] == prefix
  }

  function Repeat(c: char, n: nat): (r: string)
    ensures |r| == n
    ensures forall i :: 0 <= i < n ==> r[i] == c
  {
    if n == 0 then [] else Repeat(c, n - 1) + [c]
  }

  lemma InSuffix(s: string, k: nat, c: char)
    requires k <= |s| && c in s[k..]
    ensures c in s
  {
    var i :| 0 <= i < |s[k..]| && s[k..][i] == c;
    assert s[k + i] == c;
  }

  lemma InPrefix(s: string, k: nat, c: char)
    requires k <= |s| && c in s[..k]
    ensures c in s
  {
    var i :| 0 <= i < |s[..k]| && s[..k][i] == c;
    assert s[i] == c;
  }

  // ---------------------------------------------------------------------------
  // Trimming: strings.TrimLeftFunc, TrimRightFunc, TrimFunc, TrimSpace
  // ---------------------------------------------------------------------------

  /** How many leading characters `cut` accepts. */
  function LeadingCount(s: string, cut: char -> bool): (k: nat)
    ensures k <= |s|
    ensures forall i :: 0 <= i < k ==> cut(s[i])
    ensures k < |s| ==> !cut(s[k])
  {
    if s == [] || !cut(s[0]) then 0 else 1 + LeadingCount(s[1..], cut)
  }

  /** How many trailing characters `cut` accepts. */
  function TrailingCount(s: string, cut: char -> bool): (k: nat)
    ensures k <= |s|
    ensures forall i :: |s| - k <= i < |s| ==> cut(s[i])
    ensures k < |s| ==> !cut(s[|s| - 1 - k])
  {
    if s == [] || !cut(s[|s| - 1]) then 0 else 1 + TrailingCount(s[..|s| - 1], cut)
  }

  function TrimLeftFunc(s: string, cut: char -> bool): string {
    s[LeadingCount(s, cut)..]
  }

  function TrimRightFunc(s: string, cut: char -> bool): string {
    s[..|s| - TrailingCount(s, cut)]
  }

  function TrimFunc(s: string, cut: char -> bool): string {
    TrimRightFunc(TrimLeftFunc(s, cut), cut)
  }

  /** `strings.TrimSpace` */
  function TrimSpace(s: string): string {
    TrimFunc(s, IsSpace)
  }

  /** Trimming leaves nothing exactly when every character is one that is cut. */
  lemma TrimFuncEmpty(s: string, cut: char -> bool)
    ensures TrimFunc(s, cut) == [] <==> forall i :: 0 <= i < |s| ==> cut(s[i])
  {
    var k := LeadingCount(s, cut);
    var t := s[k..];
    if k < |s| {
      assert t[0] == s[k];
      assert TrailingCount(t, cut) < |t|;
    }
  }

  // ---------------------------------------------------------------------------
  // strings.Fields and strings.Join
  // ---------------------------------------------------------------------------

  /** A non-empty run of non-space characters. */
  predicate IsWord(w: string) {
    w != [] && forall i :: 0 <= i < |w| ==> !IsSpace(w[i])
  }

  predicate AllWords(ws: seq<string>) {
    forall k :: 0 <= k < |ws| ==> IsWord(ws[k])
  }

  /** The end of the word that starts at `i`: the first space at or after `i`, or the end. */
  function WordEnd(s: string, i: nat): (k: nat)
    requires i <= |s|
    ensures i <= k <= |s|
    ensures forall j :: i <= j < k ==> !IsSpace(s[j])
    ensures k < |s| ==> IsSpace(s[k])
    decreases |s| - i
  {
    if i == |s| || IsSpace(s[i]) then i else WordEnd(s, i + 1)
  }

  /** `strings.Fields`: the maximal runs of non-space characters, in order. */
  function Fields(s: string): (ws: seq<string>)
    ensures AllWords(ws)
    decreases |s|
  {
    if s == [] then []
    else if IsSpace(s[0]) then Fields(s[1..])
    else
      var k := WordEnd(s, 0);
      [s[..k]] + Fields(s[k..])
  }

  /** `strings.Join` */
  function Join(parts: seq<string>, sep: string): string
    decreases |parts|
  {
    if |parts| == 0 then ""
    else if |parts| == 1 then parts[0]
    else parts[0] + sep + Join(parts[1..], sep)
  }

  lemma JoinSnoc(parts: seq<string>, x: string, sep: string)
    requires |parts| > 0
    ensures Join(parts + [x], sep) == Join(parts, sep) + sep + x
    decreases |parts|
  {
    if |parts| > 1 {
      assert (parts + [x])[1..] == parts[1..] + [x];
      JoinSnoc(parts[1..], x, sep);
    }
  }

  lemma FieldsOfWord(w: string)
    requires IsWord(w)
    ensures Fields(w) == [w]
  {
    assert WordEnd(w, 0) == |w|;
    assert w[..|w|] == w && w[|w|..] == [];
  }

  /** A space between two strings separates their fields and adds none. */
  lemma {:induction false} FieldsSeparated(a: string, c: char, b: string)
    requires IsSpace(c)
    ensures Fields(a + [c] + b) == Fields(a) + Fields(b)
    decreases |a|
  {
    var s := a + [c] + b;
    if a == [] {
      assert s[1..] == b;
    } else if IsSpace(a[0]) {
      assert s[1..] == a[1..] + [c] + b;
      FieldsSeparated(a[1..], c, b);
    } else {
      var k := WordEnd(a, 0);
      WordEndUnique(s, 0, k);
      assert s[..k] == a[..k];
      assert s[k..] == a[k..] + [c] + b;
      FieldsSeparated(a[k..], c, b);
    }
  }

  /** The word end is the only index that has the properties WordEnd promises. */
  lemma WordEndUnique(s: string, i: nat, m: nat)
    requires i <= m <= |s|
    requires forall j :: i <= j < m ==> !IsSpace(s[j])
    requires m < |s| ==> IsSpace(s[m])
    ensures WordEnd(s, i) == m
  {
  }

  /** Fields and Join with one space are inverse on lists of words. */
  lemma {:induction false} FieldsOfJoin(ws: seq<string>)
    requires AllWords(ws)
    ensures Fields(Join(ws, " ")) == ws
    decreases |ws|
  {
    if |ws| == 1 {
      FieldsOfWord(ws[0]);
    } else if |ws| > 1 {
      FieldsOfJoin(ws[1..]);
      FieldsSeparated(ws[0], ' ', Join(ws[1..], " "));
      FieldsOfWord(ws[0]);
    }
  }

  /** A line joined from at most one word holds no space. */
  lemma JoinOfOneWordHasNoBlank(ws: seq<string>)
    requires AllWords(ws) && |ws| <= 1
    ensures ' ' !in Join(ws, " ")
  {
    if |ws| == 1 {
      assert IsWord(ws[0]);
    }
  }

  lemma {:induction false} FieldsTrimLeftBlank(s: string)
    ensures Fields(TrimLeftFunc(s, IsBlank)) == Fields(s)
    decreases |s|
  {
    if s != [] && IsBlank(s[0]) {
      FieldsTrimLeftBlank(s[1..]);
      assert TrimLeftFunc(s, IsBlank) == TrimLeftFunc(s[1..], IsBlank);
    } else {
      assert s[0..] == s;
    }
  }

  lemma {:induction false} FieldsTrimRightBlank(s: string)
    ensures Fields(TrimRightFunc(s, IsBlank)) == Fields(s)
    decreases |s|
  {
    if s != [] && IsBlank(s[|s| - 1]) {
      var t := s[..|s| - 1];
      FieldsTrimRightBlank(t);
      assert TrailingCount(s, IsBlank) == 1 + TrailingCount(t, IsBlank);
      assert TrimRightFunc(s, IsBlank) == TrimRightFunc(t, IsBlank);
      assert s == t + [' '] + [];
      FieldsSeparated(t, ' ', []);
      assert Fields([]) == [];
      assert Fields(s) == Fields(t);
    } else {
      assert s[..|s|] == s;
    }
  }

  // ---------------------------------------------------------------------------
  // Counting words without building them
  // ---------------------------------------------------------------------------

  /** The number of positions that start a word: `afterSpace` says whether the
      character before `s` was a space (or there was none). */
  function WordStarts(s: string, afterSpace: bool): nat
    decreases |s|
  {
    if s == [] then 0
    else (if afterSpace && !IsSpace(s[0]) then 1 else 0) + WordStarts(s[1..], IsSpace(s[0]))
  }

  lemma {:induction false} WordStartsInWord(t: string, k: nat)
    requires k <= |t|
    requires forall j :: 0 <= j < k ==> !IsSpace(t[j])
    requires k < |t| ==> IsSpace(t[k])
    ensures WordStarts(t, false) == WordStarts(t[k..], true)
    decreases k
  {
    if k > 0 {
      WordStartsInWord(t[1..], k - 1);
      assert t[1..][k - 1..] == t[k..];
    }
  }

  lemma {:induction false} FieldsCount(s: string)
    ensures |Fields(s)| == WordStarts(s, true)
    decreases |s|
  {
    if s != [] {
      if IsSpace(s[0]) {
        FieldsCount(s[1..]);
      } else {
        var k := WordEnd(s, 0);
        FieldsCount(s[k..]);
        WordStartsInWord(s[1..], k - 1);
        assert s[1..][k - 1..] == s[k..];
      }
    }
  }

  lemma {:induction false} WordStartsAppend(a: string, b: string, p: bool)
    ensures WordStarts(a + b, p) == WordStarts(a, p) + WordStarts(b, if a == [] then p else IsSpace(a[|a| - 1]))
    decreases |a|
  {
    if a != [] {
      assert (a + b)[0] == a[0];
      assert (a + b)[1..] == a[1..] + b;
      WordStartsAppend(a[1..], b, IsSpace(a[0]));
      if |a| > 1 {
        assert a[1..][|a| - 2] == a[|a| - 1];
      }
    } else {
      assert a + b == b;
    }
  }

  lemma {:induction false} WordStartsOfWord(w: string, p: bool)
    requires IsWord(w)
    ensures WordStarts(w, p) == if p then 1 else 0
    decreases |w|
  {
    if |w| > 1 {
      WordStartsOfWord(w[1..], false);
    }
  }

  // ---------------------------------------------------------------------------
  // Per-character rewriting
  // ---------------------------------------------------------------------------

  /** Replaces every character by a string. */
  function FlatMap(s: string, f: char -> string): string
    decreases |s|
  {
    if s == [] then [] else f(s[0]) + FlatMap(s[1..], f)
  }

  /** A rewriting that keeps every space as it is and turns every other character
      into a non-empty run of non-spaces. */
  ghost predicate SpacePreserving(f: char -> string) {
    forall c :: (IsSpace(c) ==> f(c) == [c]) && (!IsSpace(c) ==> IsWord(f(c)))
  }

  lemma {:induction false} WordStartsFlatMap(s: string, f: char -> string, p: bool)
    requires SpacePreserving(f)
    ensures WordStarts(FlatMap(s, f), p) == WordStarts(s, p)
    decreases |s|
  {
    if s != [] {
      var c := s[0];
      WordStartsAppend(f(c), FlatMap(s[1..], f), p);
      WordStartsFlatMap(s[1..], f, IsSpace(c));
      if !IsSpace(c) {
        WordStartsOfWord(f(c), p);
      }
    }
  }

  /** A space-preserving rewriting keeps the number of fields. */
  lemma FieldsCountFlatMap(s: string, f: char -> string)
    requires SpacePreserving(f)
    ensures |Fields(FlatMap(s, f))| == |Fields(s)|
  {
    FieldsCount(s);
    FieldsCount(FlatMap(s, f));
    WordStartsFlatMap(s, f, true);
  }

  /** A space-preserving rewriting introduces no ASCII space. */
  lemma {:induction false} BlankFromFlatMap(s: string, f: char -> string)
    requires SpacePreserving(f)
    ensures ' ' in FlatMap(s, f) ==> ' ' in s
    decreases |s|
  {
    if s != [] {
      BlankFromFlatMap(s[1..], f);
      var c := s[0];
      if !IsSpace(c) {
        assert IsWord(f(c));
      }
    }
  }

  /** A rewriting that keeps spaces and makes words of the rest never shortens. */
  lemma {:induction false} FlatMapLength(s: string, f: char -> string)
    requires SpacePreserving(f)
    ensures |FlatMap(s, f)| >= |s|
    decreases |s|
  {
    if s != [] {
      FlatMapLength(s[1..], f);
      assert |f(s[0])| >= 1 by {
        if !IsSpace(s[0]) {
          assert IsWord(f(s[0]));
        }
      }
    }
  }

  /** Text that ends in white space (or is empty) keeps its fields apart from what follows. */
  lemma FieldsAppend(a: string, b: string)
    requires a == [] || IsSpace(a[|a| - 1])
    ensures Fields(a + b) == Fields(a) + Fields(b)
  {
    if a != [] {
      var init := a[..|a| - 1];
      var c := a[|a| - 1];
      FieldsDropSpace(a);
      assert a + b == init + [c] + b;
      FieldsSeparated(init, c, b);
    } else {
      assert a + b == b;
    }
  }

  /** A trailing white-space character adds no field. */
  lemma FieldsDropSpace(a: string)
    requires a != [] && IsSpace(a[|a| - 1])
    ensures Fields(a) == Fields(a[..|a| - 1])
  {
    var empty: string := [];
    assert a == a[..|a| - 1] + [a[|a| - 1]] + empty;
    FieldsSeparated(a[..|a| - 1], a[|a| - 1], empty);
    assert Fields(empty) == [];
  }

  /** Leading white space adds no field. */
  lemma {:induction false} FieldsAfterSpaces(ind: string, d: string)
    requires forall i :: 0 <= i < |ind| ==> IsSpace(ind[i])
    ensures Fields(ind + d) == Fields(d)
    decreases |ind|
  {
    if ind != [] {
      var rest := ind[1..];
      FieldsAfterSpaces(rest, d);
      var empty: string := [];
      assert ind + d == empty + [ind[0]] + (rest + d);
      FieldsSeparated(empty, ind[0], rest + d);
      assert Fields(empty) == [];
    } else {
      assert ind + d == d;
    }
  }

  /** The rewriting that replaces one character `c` by `to`. */
  function Swap(c: char, to: string): char -> string {
    x => if x == c then to else [x]
  }

  // ---------------------------------------------------------------------------
  // strings.ReplaceAll, strings.Index, strings.Split
  // ---------------------------------------------------------------------------

  /** `strings.ReplaceAll` for a non-empty `from`: leftmost, non-overlapping. */
  function ReplaceAll(s: string, from: string, to: string): string
    requires |from| > 0
    decreases |s|
  {
    if |s| < |from| then s
    else if s[..|from|] == from then to + ReplaceAll(s[|from|..], from, to)
    else [s[0]] + ReplaceAll(s[1..], from, to)
  }

  /** Removing every occurrence never lengthens a string. */
  lemma {:induction false} ReplaceAllEmptyShrinks(s: string, from: string)
    requires |from| > 0
    ensures |ReplaceAll(s, from, "")| <= |s|
    decreases |s|
  {
    if |s| >= |from| {
      if s[..|from|] == from {
        ReplaceAllEmptyShrinks(s[|from|..], from);
      } else {
        ReplaceAllEmptyShrinks(s[1..], from);
      }
    }
  }

  /** Replacing a one-character string is a per-character rewriting. */
  lemma {:induction false} ReplaceAllChar(s: string, c: char, to: string)
    ensures ReplaceAll(s, [c], to) == FlatMap(s, Swap(c, to))
    decreases |s|
  {
    if s != [] {
      ReplaceAllChar(s[1..], c, to);
    }
  }

  /** A string that does not hold the first character of `from` is left alone. */
  lemma {:induction false} ReplaceAllAbsent(s: string, from: string, to: string)
    requires |from| > 0 && from[0] !in s
    ensures ReplaceAll(s, from, to) == s
    decreases |s|
  {
    if |s| >= |from| {
      assert s[..|from|][0] == s[0];
      ReplaceAllAbsent(s[1..], from, to);
    }
  }

  /** A replacement adds no character that neither the string nor `to` holds. */
  lemma {:induction false} ReplaceAllKeepsAbsent(s: string, from: string, to: string, x: char)
    requires |from| > 0 && x !in s && x !in to
    ensures x !in ReplaceAll(s, from, to)
    decreases |s|
  {
    if |s| >= |from| {
      if s[..|from|] == from {
        InSuffixAbsent(s, |from|, x);
        ReplaceAllKeepsAbsent(s[|from|..], from, to, x);
      } else {
        InSuffixAbsent(s, 1, x);
        ReplaceAllKeepsAbsent(s[1..], from, to, x);
      }
    }
  }

  lemma InSuffixAbsent(s: string, k: nat, x: char)
    requires k <= |s| && x !in s
    ensures x !in s[k..]
  {
    if x in s[k..] {
      InSuffix(s, k, x);
    }
  }

  /** Replacing a character by a string that does not hold it removes it. */
  lemma {:induction false} ReplaceAllRemoves(s: string, c: char, to: string)
    requires c !in to
    ensures c !in ReplaceAll(s, [c], to)
    decreases |s|
  {
    if s != [] {
      ReplaceAllRemoves(s[1..], c, to);
      assert s[..1] == [s[0]];
    }
  }

  /** A prefix without the first character of `from` passes through unchanged. */
  lemma {:induction false} ReplaceAllSkips(a: string, b: string, from: string, to: string)
    requires |from| > 0 && from[0] !in a
    ensures ReplaceAll(a + b, from, to) == a + ReplaceAll(b, from, to)
    decreases |a|
  {
    if a != [] {
      var s := a + b;
      if |s| >= |from| {
        assert s[..|from|][0] == a[0];
        assert s[1..] == a[1..] + b;
        InSuffixAbsent(a, 1, from[0]);
        ReplaceAllSkips(a[1..], b, from, to);
        assert ReplaceAll(s, from, to) == [a[0]] + (a[1..] + ReplaceAll(b, from, to));
        assert a == [a[0]] + a[1..];
      }
    } else {
      assert a + b == b;
    }
  }

  /** `strings.Index` for a non-empty `sub`, as an option. */
  function IndexOf(s: string, sub: string): (r: Option<nat>)
    requires |sub| > 0
    ensures r.Some? ==> r.value + |sub| <= |s| && s[r.value..r.value + |sub|] == sub
    decreases |s|
  {
    if |s| < |sub| then None
    else if s[..|sub|] == sub then Some(0)
    else match IndexOf(s[1..], sub)
      case None => None
      case Some(k) => Some(k + 1)
  }

  /** `strings.Split` for a non-empty separator. */
  function Split(s: string, sep: string): (parts: seq<string>)
    requires |sep| > 0
    ensures |parts| >= 1
    decreases |s|
  {
    match IndexOf(s, sep)
    case None => [s]
    case Some(k) => [s[..k]] + Split(s[k + |sep|..], sep)
  }

  /** Joining the pieces of a split with the same separator gives the string back. */
  lemma {:induction false} JoinOfSplit(s: string, sep: string)
    requires |sep| > 0
    ensures Join(Split(s, sep), sep) == s
    decreases |s|
  {
    match IndexOf(s, sep)
    case None =>
    case Some(k) =>
      var rest := s[k + |sep|..];
      JoinOfSplit(rest, sep);
      JoinOfSplitStep(s, sep, k);
  }

  lemma JoinOfSplitStep(s: string, sep: string, k: nat)
    requires |sep| > 0 && IndexOf(s, sep) == Some(k)
    requires Join(Split(s[k + |sep|..], sep), sep) == s[k + |sep|..]
    ensures Join(Split(s, sep), sep) == s
  {
    var rest := s[k + |sep|..];
    var parts := Split(rest, sep);
    assert Split(s, sep) == [s[..k]] + parts;
    JoinCons(s[..k], parts, sep);
    SplitAround(s, k, |sep|);
  }

  lemma JoinCons(x: string, parts: seq<string>, sep: string)
    requires |parts| >= 1
    ensures Join([x] + parts, sep) == x + sep + Join(parts, sep)
  {
    assert ([x] + parts)[1..] == parts;
  }

  lemma SplitAround(s: string, k: nat, n: nat)
    requires k + n <= |s|
    ensures s == s[..k] + s[k..k + n] + s[k + n..]
  {
  }

  /** The first occurrence of a one-character separator is the first position
      holding that character. */
  lemma {:induction false} IndexOfFirst(a: string, c: char, b: string)
    requires c !in a
    ensures IndexOf(a + [c] + b, [c]) == Some(|a|)
    decreases |a|
  {
    var s := a + [c] + b;
    if a == [] {
      assert s[..1] == [c];
    } else {
      assert s[..1] != [c] by {
        assert s[..1][0] == a[0];
      }
      assert s[1..] == a[1..] + [c] + b;
      IndexOfFirst(a[1..], c, b);
    }
  }

  lemma {:induction false} IndexOfAbsent(a: string, c: char)
    requires c !in a
    ensures IndexOf(a, [c]) == None
    decreases |a|
  {
    if a != [] {
      assert a[..1] != [c] by {
        assert a[..1][0] == a[0];
      }
      IndexOfAbsent(a[1..], c);
    }
  }

  /** Splitting on a one-character separator undoes joining with it, when no
      part holds the separator. */
  lemma {:induction false} SplitOfJoin(parts: seq<string>, c: char)
    requires |parts| >= 1
    requires forall k :: 0 <= k < |parts| ==> c !in parts[k]
    ensures Split(Join(parts, [c]), [c]) == parts
    decreases |parts|
  {
    if |parts| == 1 {
      IndexOfAbsent(parts[0], c);
    } else {
      var rest := Join(parts[1..], [c]);
      SplitOfJoin(parts[1..], c);
      SplitAt(parts[0], c, rest);
      assert parts == [parts[0]] + parts[1..];
    }
  }

  lemma SplitAt(a: string, c: char, b: string)
    requires c !in a
    ensures Split(a + [c] + b, [c]) == [a] + Split(b, [c])
  {
    var s := a + [c] + b;
    IndexOfFirst(a, c, b);
    assert s[..|a|] == a;
    assert s[|a| + 1..] == b;
  }

  /** The first index whose character `sep` accepts. */
  function IndexFunc(s: string, sep: char -> bool): (r: Option<nat>)
    ensures r.Some? ==> r.value < |s| && sep(s[r.value])
    ensures r.Some? ==> forall i :: 0 <= i < r.value ==> !sep(s[i])
    ensures r.None? ==> forall i :: 0 <= i < |s| ==> !sep(s[i])
    decreases |s|
  {
    if s == [] then None
    else if sep(s[0]) then Some(0)
    else match IndexFunc(s[1..], sep)
      case None => None
      case Some(k) => Some(k + 1)
  }

  /** `Regexp.Split(s, -1)` for a pattern that matches exactly one character out
      of a class, such as `\r|\n`: the pieces between the separators. */
  function SplitFunc(s: string, sep: char -> bool): (parts: seq<string>)
    ensures |parts| >= 1
    ensures forall k, i :: 0 <= k < |parts| && 0 <= i < |parts[k]| ==> !sep(parts[k][i])
    decreases |s|
  {
    match IndexFunc(s, sep)
    case None => [s]
    case Some(k) => [s[..k]] + SplitFunc(s[k + 1..], sep)
  }

  /** The number of characters of `s` that `sep` accepts. */
  function CountFunc(s: string, sep: char -> bool): nat
    decreases |s|
  {
    if s == [] then 0 else (if sep(s[0]) then 1 else 0) + CountFunc(s[1..], sep)
  }

  lemma {:induction false} CountFuncAppend(a: string, b: string, sep: char -> bool)
    ensures CountFunc(a + b, sep) == CountFunc(a, sep) + CountFunc(b, sep)
    decreases |a|
  {
    if a != [] {
      assert (a + b)[0] == a[0];
      assert (a + b)[1..] == a[1..] + b;
      CountFuncAppend(a[1..], b, sep);
    } else {
      assert a + b == b;
    }
  }

  lemma {:induction false} CountFuncNone(s: string, sep: char -> bool)
    requires forall i :: 0 <= i < |s| ==> !sep(s[i])
    ensures CountFunc(s, sep) == 0
    decreases |s|
  {
    if s != [] {
      CountFuncNone(s[1..], sep);
    }
  }

  /** A split yields one piece more than there are separators. */
  lemma {:induction false} SplitFuncCount(s: string, sep: char -> bool)
    ensures |SplitFunc(s, sep)| == CountFunc(s, sep) + 1
    decreases |s|
  {
    match IndexFunc(s, sep)
    case None =>
      CountFuncNone(s, sep);
    case Some(k) =>
      SplitFuncCount(s[k + 1..], sep);
      assert s == s[..k] + [s[k]] + s[k + 1..];
      CountFuncAppend(s[..k] + [s[k]], s[k + 1..], sep);
      CountFuncAppend(s[..k], [s[k]], sep);
      CountFuncNone(s[..k], sep);
  }

  // ---------------------------------------------------------------------------
  // strings.ToLower (ASCII letters) and html.EscapeString
  // ---------------------------------------------------------------------------

  function LowerChar(c: char): char {
    if 'A' <= c <= 'Z' then (c as int + 32) as char else c
  }

  /** `strings.ToLower`, for the ASCII letters. */
  function ToLower(s: string): (r: string)
    ensures |r| == |s|
    ensures forall i :: 0 <= i < |s| ==> r[i] == LowerChar(s[i])
  {
    seq(|s|, i requires 0 <= i < |s| => LowerChar(s[i]))
  }

  /** What `html.EscapeString` replaces each character by. */
  function HtmlEscapeChar(c: char): string {
    match c
    case '&' => "&amp;"
    case '\'' => "&#39;"
    case '<' => "&lt;"
    case '>' => "&gt;"
    case '"' => "&#34;"
    case _ => [c]
  }

  /** `html.EscapeString`: the five characters & ' < > " become character references. */
  function EscapeString(s: string): string {
    FlatMap(s, HtmlEscapeChar)
  }

  lemma EscapeIsSpacePreserving()
    ensures SpacePreserving(HtmlEscapeChar)
  {
  }

  lemma SwapIsSpacePreserving(c: char, to: string)
    requires !IsSpace(c) && IsWord(to)
    ensures SpacePreserving(Swap(c, to))
  {
  }

  /** No character `html.EscapeString` replaces survives it. */
  lemma {:induction false} EscapedHasNoMarkup(s: string)
    ensures forall i :: 0 <= i < |EscapeString(s)| ==> EscapeString(s)[i] !in "<>\"'"
    decreases |s|
  {
    if s != [] {
      EscapedHasNoMarkup(s[1..]);
      var head := HtmlEscapeChar(s[0]);
      var tail := EscapeString(s[1..]);
      assert EscapeString(s) == head + tail;
      forall i | 0 <= i < |head + tail|
        ensures (head + tail)[i] !in "<>\"'"
      {
        if i >= |head| {
          assert (head + tail)[i] == tail[i - |head|];
        }
      }
    }
  }
}
