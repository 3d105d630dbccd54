/** `BlockString.print`: a string written out as a block string, between two fences of
    three quotes, each line of the string indented and long lines broken. */
module Printer {
  import opened Text
  import opened LineBreak

  /** The page width lines are broken to, indentation included. */
  const Width: int := 120

  /** `120 - indent.length`: the length `break_line` is given for a line, the page width
      less the indentation. */
  function BreakLength(indent: string): int {
    Width - |indent|
  }

  /** The three quotes that open and close a block string. */
  const Quotes: string := "\"\"\""

  /** `"#{indent}\"\"\"\n"`: the opening and the closing line. */
  function Fence(indent: string): string {
    indent + Quotes + [NL]
  }

  /** Every line can be given to `break_line` at the width left after the indentation. */
  predicate AllBreakable(ls: seq<string>, length: int) {
    forall i :: 0 <= i < |ls| ==> Breakable(ls[i], length)
  }

  /** The strings `print` can be given with this indentation: where the indentation is
      wider than 65 characters, every line must be short enough to be kept whole. */
  predicate Printable(str: string, indent: string) {
    AllBreakable(SplitLines(str), BreakLength(indent))
  }

  /** `indent` in front of every subline. */
  function Indented(sublines: seq<string>, indent: string): seq<string>
    decreases |sublines|
  {
    if sublines == [] then []
    else Indented(sublines[..|sublines| - 1], indent) + [indent + sublines[|sublines| - 1]]
  }

  /** The output lines one line of the string becomes: a bare empty line for an empty
      line (no indentation), else every subline `break_line` makes of it, indented. */
  function LineOut(line: string, indent: string): seq<string>
    requires Breakable(line, BreakLength(indent))
  {
    if line == "" then [""] else Indented(BrokenLine(line, BreakLength(indent)), indent)
  }

  /** The output lines of all the lines, in order. */
  function OutLines(ls: seq<string>, indent: string): seq<string>
    requires AllBreakable(ls, BreakLength(indent))
    decreases |ls|
  {
    if ls == [] then []
    else OutLines(ls[..|ls| - 1], indent) + LineOut(ls[|ls| - 1], indent)
  }

  /** Each line followed by a newline. */
  function Terminated(xs: seq<string>): string
    decreases |xs|
  {
    if xs == [] then "" else Terminated(xs[..|xs| - 1]) + xs[|xs| - 1] + [NL]
  }

  /** What `print(str, indent:)` returns. */
  function Printed(str: string, indent: string): string
    requires Printable(str, indent)
  {
    Fence(indent) + Terminated(OutLines(SplitLines(str), indent)) + Fence(indent)
  }

  /** `print(str, indent:)`, step by step: the opening fence goes into the buffer, then the
      output of each line in turn, then the closing fence. The body of each of the two
      nested loops is a method of its own below. */
  method Print(str: string, indent: string) returns (blockStr: string)
    requires Printable(str, indent)
    ensures blockStr == Printed(str, indent)
  {
    var lines := SplitLines(str);
    blockStr := Fence(indent);
    var i := 0;
    while i < |lines|
      invariant 0 <= i <= |lines|
      invariant blockStr == Fence(indent) + Terminated(OutLines(lines[..i], indent))
    {
      ghost var emitted := blockStr;
      blockStr := PrintLine(blockStr, lines[i], indent);
      OutLinesStep(lines, i, indent);
      WrittenStep(Fence(indent), OutLines(lines[..i], indent), LineOut(lines[i], indent), emitted, blockStr);
      i := i + 1;
    }
    assert lines[..|lines|] == lines;
    blockStr := blockStr + Fence(indent);
  }

  /** The body of `lines.each`: an empty line writes a bare newline, any other line the
      sublines `break_line` cuts it into. */
  method PrintLine(buffer: string, line: string, indent: string) returns (blockStr: string)
    requires Breakable(line, BreakLength(indent))
    ensures blockStr == buffer + Terminated(LineOut(line, indent))
  {
    if line == "" {
      LineOutEmpty(indent);
      blockStr := buffer + "\n";
    } else {
      blockStr := PrintBroken(buffer, line, indent);
    }
  }

  /** A non-empty line: `break_line` cuts it into sublines, and each is written. */
  method PrintBroken(buffer: string, line: string, indent: string) returns (blockStr: string)
    requires line != "" && Breakable(line, BreakLength(indent))
    ensures blockStr == buffer + Terminated(LineOut(line, indent))
  {
    var sublines := BreakLine(line, BreakLength(indent));
    blockStr := WriteSublines(buffer, sublines, indent);
    LineOutBroken(line, indent, sublines);
  }

  /** `sublines.each { |subline| block_str << "#{indent}#{subline}\n" }`: each subline,
      indented and ended by a newline, goes into the buffer. */
  method WriteSublines(buffer: string, sublines: seq<string>, indent: string) returns (blockStr: string)
    ensures blockStr == buffer + Terminated(Indented(sublines, indent))
  {
    blockStr := buffer;
    var j := 0;
    while j < |sublines|
      invariant 0 <= j <= |sublines|
      invariant blockStr == buffer + Terminated(Indented(sublines[..j], indent))
    {
      IndentedStep(sublines, j, indent);
      blockStr := blockStr + indent + sublines[j] + "\n";
      j := j + 1;
    }
    assert sublines[..|sublines|] == sublines;
  }

  /** The buffer after one more line of the string: the lines written so far, then the
      output lines of one more. */
  lemma {:induction false} WrittenStep(fence: string, out: seq<string>, more: seq<string>, emitted: string, blockStr: string)
    requires emitted == fence + Terminated(out)
    requires blockStr == emitted + Terminated(more)
    ensures blockStr == fence + Terminated(out + more)
  {
    TerminatedAppend(out, more);
  }

  /** An empty line comes out as a bare newline. */
  lemma {:induction false} LineOutEmpty(indent: string)
    requires Breakable("", BreakLength(indent))
    ensures Terminated(LineOut("", indent)) == "\n"
  {
    assert [""][..0] == [];
  }

  /** A line that is not empty comes out as its sublines, indented. */
  lemma {:induction false} LineOutBroken(line: string, indent: string, sublines: seq<string>)
    requires line != "" && Breakable(line, BreakLength(indent))
    requires sublines == BrokenLine(line, BreakLength(indent))
    ensures LineOut(line, indent) == Indented(sublines, indent)
  {
  }

  /** Writing one more subline. */
  lemma {:induction false} IndentedStep(sublines: seq<string>, j: nat, indent: string)
    requires j < |sublines|
    ensures Terminated(Indented(sublines[..j + 1], indent))
      == Terminated(Indented(sublines[..j], indent)) + indent + sublines[j] + [NL]
  {
    assert sublines[..j + 1][..j] == sublines[..j];
    TerminatedSnoc(Indented(sublines[..j], indent), indent + sublines[j]);
  }

  /** The output lines of one more line of the string. */
  lemma {:induction false} OutLinesStep(ls: seq<string>, i: nat, indent: string)
    requires i < |ls| && AllBreakable(ls, BreakLength(indent))
    ensures AllBreakable(ls[..i], BreakLength(indent))
    ensures OutLines(ls[..i + 1], indent) == OutLines(ls[..i], indent) + LineOut(ls[i], indent)
  {
    assert ls[..i + 1][..i] == ls[..i];
  }

  /** One more line, one more newline at the end. */
  lemma {:induction false} TerminatedSnoc(xs: seq<string>, y: string)
    ensures Terminated(xs + [y]) == Terminated(xs) + y + [NL]
  {
    assert (xs + [y])[..|xs|] == xs;
  }

  /** Each list followed by newlines, one after the other. */
  lemma {:induction false} TerminatedAppend(xs: seq<string>, ys: seq<string>)
    ensures Terminated(xs + ys) == Terminated(xs) + Terminated(ys)
    decreases |ys|
  {
    if ys == [] {
      assert xs + ys == xs;
    } else {
      var init := ys[..|ys| - 1];
      assert (xs + ys)[..|xs + ys| - 1] == xs + init;
      TerminatedAppend(xs, init);
    }
  }

  /** `print` ignores newlines at the end of the string: `split("\n")` drops the empty
      fields they make. */
  lemma {:induction false} PrintedIgnoresTrailingNewline(str: string, indent: string)
    requires Printable(str, indent)
    ensures Printable(str + [NL], indent)
    ensures Printed(str + [NL], indent) == Printed(str, indent)
  {
    SplitLinesIgnoresTrailingNewline(str);
  }

  /** A string of newlines only, the empty string among them, prints as the two fences
      and nothing between. */
  lemma {:induction false} PrintedBlank(str: string, indent: string)
    requires forall i :: 0 <= i < |str| ==> str[i] == NL
    ensures Printable(str, indent)
    ensures Printed(str, indent) == Fence(indent) + Fence(indent)
    decreases |str|
  {
    if str == [] {
      assert SplitLines(str) == [];
    } else {
      var init := str[..|str| - 1];
      PrintedBlank(init, indent);
      assert init + [NL] == str;
      PrintedIgnoresTrailingNewline(init, indent);
    }
  }

  /** No output line holds a newline when the indentation holds none: the lines of the
      split hold none, and neither do the sublines `break_line` cuts them into. */
  lemma {:induction false} OutLinesNoNewline(ls: seq<string>, indent: string)
    requires AllBreakable(ls, BreakLength(indent))
    requires NL !in indent && NoNewlines(ls)
    ensures NoNewlines(OutLines(ls, indent))
    decreases |ls|
  {
    if ls != [] {
      var init, line := ls[..|ls| - 1], ls[|ls| - 1];
      OutLinesNoNewline(init, indent);
      LineOutNoNewline(line, indent);
      NoNewlineAppend(OutLines(init, indent), LineOut(line, indent));
    }
  }

  /** The output lines of one line without newlines hold none. */
  lemma {:induction false} LineOutNoNewline(line: string, indent: string)
    requires Breakable(line, BreakLength(indent))
    requires NL !in indent && NL !in line
    ensures NoNewlines(LineOut(line, indent))
  {
    if line != "" {
      var length := BreakLength(indent);
      var subs := BrokenLine(line, length);
      LineOutBroken(line, indent, subs);
      BrokenLineNoNewline(line, length);
      IndentedNoNewline(subs, indent);
    }
  }

  /** Two lists of lines without newlines, one after the other. */
  lemma {:induction false} NoNewlineAppend(xs: seq<string>, ys: seq<string>)
    requires NoNewlines(xs) && NoNewlines(ys)
    ensures NoNewlines(xs + ys)
  {
    forall k | 0 <= k < |xs + ys| ensures NL !in (xs + ys)[k] {
      if k >= |xs| { assert (xs + ys)[k] == ys[k - |xs|]; }
    }
  }

  /** Indenting lines without newlines by an indentation without newlines. */
  lemma {:induction false} IndentedNoNewline(sublines: seq<string>, indent: string)
    requires NL !in indent && NoNewlines(sublines)
    ensures NoNewlines(Indented(sublines, indent))
    decreases |sublines|
  {
    if sublines != [] {
      IndentedNoNewline(sublines[..|sublines| - 1], indent);
    }
  }

  /** Cut at its newlines, the output of `print` is the opening fence, the output lines of
      each line of the string in order, the closing fence, and the empty text after the
      final newline. */
  lemma {:induction false} PrintedLines(str: string, indent: string)
    requires Printable(str, indent) && NL !in indent
    ensures Lines(Printed(str, indent))
      == [indent + Quotes] + OutLines(SplitLines(str), indent) + [indent + Quotes, ""]
  {
    var fence := indent + Quotes;
    assert NL !in Quotes;
    assert NL !in fence;
    OutLinesNoNewline(SplitLines(str), indent);
    assert Terminated([fence]) == Fence(indent) by { assert [fence][..0] == []; }
    LinesOfFenced(fence, OutLines(SplitLines(str), indent));
  }

  /** Lines between two fence lines, each followed by a newline, cut at the newlines. */
  lemma {:induction false} LinesOfFenced(fence: string, out: seq<string>)
    requires NL !in fence && NoNewlines(out)
    ensures Lines(Terminated([fence]) + Terminated(out) + Terminated([fence])) == [fence] + out + [fence, ""]
  {
    var all := [fence] + out + [fence];
    FencedText(fence, out);
    FencedNoNewline(fence, out);
    LinesOfTerminated(all, "");
    assert Terminated(all) + "" == Terminated(all);
  }

  /** The fences and the lines between them, written one after the other. */
  lemma {:induction false} FencedText(fence: string, out: seq<string>)
    ensures Terminated([fence]) + Terminated(out) + Terminated([fence]) == Terminated([fence] + out + [fence])
  {
    TerminatedAppend([fence], out);
    TerminatedAppend([fence] + out, [fence]);
  }

  /** Two fence lines around output lines, none of which holds a newline. */
  lemma {:induction false} FencedNoNewline(fence: string, out: seq<string>)
    requires NL !in fence && NoNewlines(out)
    ensures NoNewlines([fence] + out + [fence])
  {
    var all := [fence] + out + [fence];
    forall k | 0 <= k < |all| ensures NL !in all[k] {
      if 0 < k < |all| - 1 { assert all[k] == out[k - 1]; }
    }
  }

  /** Lines each followed by a newline, then a last line without one, cut at the newlines. */
  lemma {:induction false} LinesOfTerminated(xs: seq<string>, y: string)
    requires NL !in y && NoNewlines(xs)
    ensures Lines(Terminated(xs) + y) == xs + [y]
    decreases |xs|
  {
    if xs == [] {
      LinesOfLine(y);
      assert Terminated(xs) + y == y;
    } else {
      var init, x := xs[..|xs| - 1], xs[|xs| - 1];
      LinesOfTerminated(init, x);
      assert Terminated(xs) + y == (Terminated(init) + x) + [NL] + y;
      LinesAppendNewline(Terminated(init) + x, y);
      LinesOfLine(y);
      assert init + [x] == xs;
    }
  }

  /** Lines short enough to stay whole come out one for one: an empty line as an empty
      output line, any other indented. */
  lemma {:induction false} OutLinesShort(ls: seq<string>, indent: string)
    requires forall i :: 0 <= i < |ls| ==> |ls[i]| < BreakLength(indent) + Slack
    ensures AllBreakable(ls, BreakLength(indent))
    ensures |OutLines(ls, indent)| == |ls|
    ensures forall i :: 0 <= i < |ls| ==>
      OutLines(ls, indent)[i] == if ls[i] == "" then "" else indent + ls[i]
    decreases |ls|
  {
    if ls != [] {
      var init, line := ls[..|ls| - 1], ls[|ls| - 1];
      OutLinesShort(init, indent);
      if line != "" {
        assert Indented([line], indent) == [indent + line] by { assert [line][..0] == []; }
      }
      forall i | 0 <= i < |ls| ensures OutLines(ls, indent)[i] == if ls[i] == "" then "" else indent + ls[i] {
        if i < |ls| - 1 { assert ls[i] == init[i]; }
      }
    }
  }

  /** Without indentation and with every line shorter than 125 characters, the output of
      `print` is the lines of the string (trailing empty ones dropped) between the fences. */
  lemma {:induction false} PrintedShort(str: string)
    requires forall i :: 0 <= i < |SplitLines(str)| ==> |SplitLines(str)[i]| < Width + Slack
    ensures Printable(str, "")
    ensures Lines(Printed(str, "")) == [Quotes] + SplitLines(str) + [Quotes, ""]
  {
    var ls := SplitLines(str);
    OutLinesShort(ls, "");
    assert OutLines(ls, "") == ls by {
      forall i | 0 <= i < |ls| ensures OutLines(ls, "")[i] == ls[i] {
        assert "" + ls[i] == ls[i];
      }
    }
    PrintedLines(str, "");
    assert "" + Quotes == Quotes;
  }
}
