/**
 * The output the converter writes through: an indentation string that grows and
 * shrinks with `Enter` and `Leave` (`output.go`) and a buffer of fragments that
 * `Write`, `WriteLine` and `Final` append to and drain (`stringoutput.go`).
 *
 * Each method of `StringOutput` is specified by a function on `OutState`, the
 * value of its two fields, so that the converter can be specified by functions too.
 */
module Output {
  import opened Wrappers
  import opened GoStrings

  /** The two options that decide what one indentation step is. */
  datatype IndentConfig = IndentConfig(useTabs: bool, nSpaces: int) {

    /** The character an indentation step is made of. */
    function Unit(): char {
      if useTabs then '\t' else ' '
    }

    /** The number of characters `Enter` appends. The counting loop runs from 1
        up to `nSpaces` when `nSpaces >= 1`, and from 1 down to `nSpaces`
        otherwise, so zero or a negative count still yields `2 - nSpaces` spaces. */
    function Width(): nat {
      if useTabs then 1 else if nSpaces >= 1 then nSpaces as nat else (2 - nSpaces) as nat
    }
  }

  /** An indentation made of the configured step character only. */
  predicate Uniform(cfg: IndentConfig, ind: string) {
    forall i :: 0 <= i < |ind| ==> ind[i] == cfg.Unit()
  }

  datatype OutState = OutState(indents: string, fragments: seq<string>) {

    function Write(data: string, indent: bool): OutState {
      OutState(indents, fragments + [(if indent then indents else "") + data])
    }

    /** A line that is empty once ASCII spaces are trimmed is dropped. */
    function WriteLine(data: string, indent: bool): OutState {
      if TrimFunc(data, IsBlank) == "" then this
      else OutState(indents, fragments + [(if indent then indents else "") + data + "\n"])
    }

    function Enter(cfg: IndentConfig): OutState {
      OutState(indents + Repeat(cfg.Unit(), cfg.Width()), fragments)
    }

    /** `Leave`, removing what `Enter` added: the text as written differs when
        `nSpaces <= 0` (see `LeaveAsWritten`). */
    function Leave(cfg: IndentConfig): OutState {
      if |indents| >= cfg.Width() then OutState(indents[cfg.Width()..], fragments) else this
    }

    /** What `Final` returns: the fragments concatenated in order. */
    function Text(): string {
      Join(fragments, "")
    }
  }

  /** `Leave` as written. `None` stands for the run-time panic of slicing at a
      negative index, which happens for every negative `nSpaces`. */
  function LeaveAsWritten(cfg: IndentConfig, ind: string): (r: Option<string>)
    ensures r.None? <==> !cfg.useTabs && cfg.nSpaces < 0
    ensures r.Some? ==> |r.value| <= |ind| && r.value == ind[|ind| - |r.value|..]
    ensures !cfg.useTabs && cfg.nSpaces == 0 ==> r == Some(ind)
  {
    if cfg.useTabs then Some(if |ind| > 0 then ind[1..] else ind)
    else if |ind| >= cfg.nSpaces then
      (if cfg.nSpaces < 0 then None else Some(ind[cfg.nSpaces..]))
    else Some(ind)
  }

  /** `Leave` as written on the whole state, for the settings under which it
      does not panic. With zero spaces per step it removes nothing. */
  function LeaveStateAsWritten(cfg: IndentConfig, st: OutState): (r: OutState)
    requires cfg.useTabs || cfg.nSpaces >= 0
    ensures r.fragments == st.fragments
    ensures cfg.useTabs || cfg.nSpaces >= 1 ==> r == st.Leave(cfg)
    ensures !cfg.useTabs && cfg.nSpaces == 0 ==> r == st
  {
    OutState(LeaveAsWritten(cfg, st.indents).value, st.fragments)
  }

  // ---------------------------------------------------------------------------
  // Properties of the state functions
  // ---------------------------------------------------------------------------

  lemma JoinEmptySnoc(parts: seq<string>, x: string)
    ensures Join(parts + [x], "") == Join(parts, "") + x
  {
    if |parts| == 0 {
      assert parts + [x] == [x];
    } else {
      JoinSnoc(parts, x, "");
    }
  }

  /** `Write` adds `data`, after the indentation when asked, to the final text. */
  lemma TextOfWrite(st: OutState, data: string, indent: bool)
    ensures st.Write(data, indent).indents == st.indents
    ensures st.Write(data, indent).Text() == st.Text() + (if indent then st.indents else "") + data
  {
    JoinEmptySnoc(st.fragments, (if indent then st.indents else "") + data);
  }

  /** `WriteLine` either adds nothing (a line of spaces only) or one full line. */
  lemma TextOfWriteLine(st: OutState, data: string, indent: bool)
    ensures st.WriteLine(data, indent).indents == st.indents
    ensures (forall i :: 0 <= i < |data| ==> data[i] == ' ') ==> st.WriteLine(data, indent) == st
    ensures (exists i :: 0 <= i < |data| && data[i] != ' ') ==>
      st.WriteLine(data, indent).Text() == st.Text() + (if indent then st.indents else "") + data + "\n"
  {
    TrimFuncEmpty(data, IsBlank);
    JoinEmptySnoc(st.fragments, (if indent then st.indents else "") + data + "\n");
  }

  /** `Leave` undoes `Enter` on an indentation made of whole steps, and both keep
      the indentation uniform. */
  lemma EnterThenLeave(cfg: IndentConfig, st: OutState)
    requires Uniform(cfg, st.indents)
    ensures Uniform(cfg, st.Enter(cfg).indents)
    ensures st.Enter(cfg).Leave(cfg) == st
  {
    var ind := st.indents;
    var w := cfg.Width();
    var grown := ind + Repeat(cfg.Unit(), w);
    assert |grown| >= w;
    assert grown[w..] == ind by {
      forall i | 0 <= i < |ind|
        ensures grown[w..][i] == ind[i]
      {
        if w + i < |ind| {
          assert grown[w + i] == ind[w + i];
        } else {
          assert grown[w + i] == Repeat(cfg.Unit(), w)[w + i - |ind|];
        }
      }
    }
  }

  lemma LeaveKeepsUniform(cfg: IndentConfig, st: OutState)
    requires Uniform(cfg, st.indents)
    ensures Uniform(cfg, st.Leave(cfg).indents)
    ensures |st.Leave(cfg).indents| <= |st.indents|
    ensures st.Leave(cfg).fragments == st.fragments
  {
    if |st.indents| >= cfg.Width() {
      var ind := st.indents;
      var w := cfg.Width();
      forall i | 0 <= i < |ind[w..]|
        ensures ind[w..][i] == cfg.Unit()
      {
        assert ind[w..][i] == ind[w + i];
      }
    }
  }

  /** With tabs, or with at least one space per step, `Leave` as written is the
      corrected `Leave`. */
  lemma LeaveAsWrittenAgrees(cfg: IndentConfig, st: OutState)
    requires cfg.useTabs || cfg.nSpaces >= 1
    ensures LeaveAsWritten(cfg, st.indents) == Some(st.Leave(cfg).indents)
  {
  }

  /** With the zero default of `nSpaces`, `Enter` adds two spaces and `Leave` as
      written removes none, so the indentation only ever grows. */
  lemma LeaveAsWrittenUnbalanced()
    ensures LeaveAsWritten(IndentConfig(false, 0), OutState("", []).Enter(IndentConfig(false, 0)).indents) == Some("  ")
  {
    assert Repeat(' ', 2) == "  ";
  }

  /** A negative `nSpaces` makes `Leave` as written panic. */
  lemma LeaveAsWrittenPanics(n: int, ind: string)
    requires n < 0
    ensures LeaveAsWritten(IndentConfig(false, n), ind) == None
  {
  }

  // ---------------------------------------------------------------------------
  // The object
  // ---------------------------------------------------------------------------

  class StringOutput {
    const options: IndentConfig
    var indents: string
    var fragments: seq<string>

    function State(): OutState
      reads this
    {
      OutState(indents, fragments)
    }

    constructor(options: IndentConfig)
      ensures this.options == options
      ensures State() == OutState("", [])
    {
      this.options := options;
      indents := "";
      fragments := [];
    }

    function GetIndents(): (r: string)
      reads this
      ensures r == State().indents
    {
      indents
    }

    method Write(data: string, indent: bool)
      modifies this
      ensures State() == old(State()).Write(data, indent)
    {
      if indent {
        fragments := fragments + [indents + data];
      } else {
        assert "" + data == data;
        fragments := fragments + [data];
      }
    }

    method WriteLine(data: string, indent: bool)
      modifies this
      ensures State() == old(State()).WriteLine(data, indent)
    {
      if TrimFunc(data, IsBlank) == "" {
        return;
      }
      if indent {
        fragments := fragments + [indents + data + "\n"];
      } else {
        assert "" + data + "\n" == data + "\n";
        fragments := fragments + [data + "\n"];
      }
    }

    method Final() returns (output: string)
      modifies this
      ensures output == old(State()).Text()
      ensures State() == OutState(old(indents), [])
    {
      output := Join(fragments, "");
      fragments := [];
    }

    method Enter()
      modifies this
      ensures State() == old(State()).Enter(options)
    {
      if options.useTabs {
        indents := indents + "\t";
      } else {
        var i := 1;
        while true
          invariant options.nSpaces >= 1 ==> 1 <= i <= options.nSpaces + 1 && indents == old(indents) + Repeat(' ', i - 1)
          invariant options.nSpaces < 1 ==> options.nSpaces - 1 <= i <= 1 && indents == old(indents) + Repeat(' ', 1 - i)
          invariant fragments == old(fragments)
          decreases if options.nSpaces >= 1 then options.nSpaces + 1 - i else i - options.nSpaces + 1
        {
          if options.nSpaces >= 1 {
            if i > options.nSpaces {
              assert indents == old(indents) + Repeat(options.Unit(), options.Width());
              break;
            }
            indents := indents + " ";
            i := i + 1;
          } else {
            if i < options.nSpaces {
              assert indents == old(indents) + Repeat(options.Unit(), options.Width());
              break;
            }
            indents := indents + " ";
            i := i - 1;
          }
        }
      }
    }

    /** The corrected `Leave`: it removes one step of `Width()` characters. */
    method Leave()
      modifies this
      ensures State() == old(State()).Leave(options)
    {
      if options.useTabs {
        if |indents| > 0 {
          indents := indents[1..];
        }
      } else {
        var w := options.Width();
        if |indents| >= w {
          indents := indents[w..];
        }
      }
    }
  }

  /** Draining the buffer twice in a row yields nothing the second time. */
  method FinalTwice(out: StringOutput) returns (first: string, second: string)
    modifies out
    ensures first == old(out.State()).Text()
    ensures second == ""
    ensures out.indents == old(out.indents)
  {
    first := out.Final();
    second := out.Final();
  }
}
