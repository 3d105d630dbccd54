/** The first two steps of `trim_whitespace`: the scan that finds the common indentation
    of a block string, and the `gsub!` that strips it from the start of every line. */
module Indent {
  import opened Text

  /** The widths 1..10 have a precompiled exact-width regexp; wider ones do not. */
  const Precompiled: nat := 10

  /** The scan's update at the end of a counted line: the line lowers the minimum when it
      has text (the scan sees its indentation end before its length does) and is indented
      less than every earlier line with text. */
  function Lower(least: Option<nat>, line: string): Option<nat> {
    var k := Lead(line);
    if !Blank(line) && (least.None? || k < least.value) then Some(k) else least
  }

  /** The smallest indentation among the lines of `ls` that have text, folded from the
      first line to the last; `None` when every line is blank. */
  function MinIndent(ls: seq<string>): Option<nat>
    decreases |ls|
  {
    if ls == [] then None else Lower(MinIndent(ls[..|ls| - 1]), ls[|ls| - 1])
  }

  /** The lines the scan counts, given every line seen so far: those that a newline ends,
      except the first. The last line is still open, so it is not among them. */
  function Counted(ls: seq<string>): seq<string> {
    if |ls| < 2 then [] else ls[1..|ls| - 1]
  }

  /** The `common_indent` of a block string. */
  function CommonIndent(s: string): Option<nat> {
    MinIndent(Counted(Lines(s)))
  }

  /** `MinIndent` is the least indentation of a line with text, and it is `None` exactly
      when every line is blank. */
  lemma {:induction false} MinIndentIsLeast(ls: seq<string>)
    ensures MinIndent(ls).None? <==> forall i :: 0 <= i < |ls| ==> Blank(ls[i])
    ensures MinIndent(ls).Some? ==>
      (exists i :: 0 <= i < |ls| && !Blank(ls[i]) && Lead(ls[i]) == MinIndent(ls).value)
    ensures MinIndent(ls).Some? ==>
      forall i :: 0 <= i < |ls| && !Blank(ls[i]) ==> MinIndent(ls).value <= Lead(ls[i])
    decreases |ls|
  {
    if ls != [] {
      var init, last := ls[..|ls| - 1], ls[|ls| - 1];
      MinIndentIsLeast(init);
      assert forall i :: 0 <= i < |init| ==> init[i] == ls[i];
      if MinIndent(ls) == MinIndent(init) && MinIndent(init).Some? {
        var i :| 0 <= i < |init| && !Blank(init[i]) && Lead(init[i]) == MinIndent(init).value;
        assert ls[i] == init[i];
      }
    }
  }

  /** The common indentation of a block string is the least indentation among its lines
      that have text, that a newline ends and that are not the first; `None` when there is
      no such line. */
  lemma {:induction false} CommonIndentIsLeast(s: string)
    ensures var c, ls := CommonIndent(s), Lines(s);
      && (c.None? <==> forall i :: 0 < i < |ls| - 1 ==> Blank(ls[i]))
      && (c.Some? ==> exists i :: 0 < i < |ls| - 1 && !Blank(ls[i]) && Lead(ls[i]) == c.value)
      && (c.Some? ==> forall i :: 0 < i < |ls| - 1 && !Blank(ls[i]) ==> c.value <= Lead(ls[i]))
  {
    var ls := Lines(s);
    var cs := Counted(ls);
    MinIndentIsLeast(cs);
    assert forall i :: 0 < i < |ls| - 1 ==> ls[i] == cs[i - 1];
    if CommonIndent(s).Some? {
      var j :| 0 <= j < |cs| && !Blank(cs[j]) && Lead(cs[j]) == CommonIndent(s).value;
      assert ls[j + 1] == cs[j];
    }
    if !(forall i :: 0 < i < |ls| - 1 ==> Blank(ls[i])) {
      var i :| 0 < i < |ls| - 1 && !Blank(ls[i]);
      assert cs[i - 1] == ls[i];
      assert !Blank(cs[i - 1]);
      assert 0 < i < |Lines(s)| - 1 && !Blank(Lines(s)[i]);
      assert !(forall k :: 0 < k < |Lines(s)| - 1 ==> Blank(Lines(s)[k]));
    }
  }

  /** One more character at the end of the text scanned so far: the counted lines change
      only when it is a newline, which closes the open line. */
  lemma {:induction false} CountedStep(ls: seq<string>, c: char)
    requires |ls| >= 1
    ensures Counted(Extend(ls, c)) ==
      if c != NL then Counted(ls)
      else if |ls| == 1 then []
      else Counted(ls) + [ls[|ls| - 1]]
  {
    var ls' := Extend(ls, c);
    if c != NL {
      if |ls| >= 2 { assert ls'[1..|ls'| - 1] == ls[1..|ls| - 1]; }
    } else if |ls| >= 2 {
      assert ls'[1..|ls'| - 1] == ls[1..|ls| - 1] + [ls[|ls| - 1]];
    }
  }

  /** What the scan's variables mean after a prefix of the string whose lines are `ls`:
      whether only the first line is open, the length and indentation of the open line,
      whether that line is still all spaces, and the minimum over the counted lines. */
  ghost predicate ScanState(ls: seq<string>, firstLine: bool, currentIndent: nat,
                            currentLength: nat, beginLine: bool, commonIndent: Option<nat>)
  {
    && |ls| >= 1
    && (firstLine <==> |ls| == 1)
    && currentLength == |ls[|ls| - 1]|
    && currentIndent == Lead(ls[|ls| - 1])
    && (beginLine <==> currentIndent == currentLength)
    && commonIndent == MinIndent(Counted(ls))
  }

  /** A newline: the open line is counted (unless it is the first), lowering the minimum
      when it has text and less indentation, and an empty line opens. */
  lemma {:induction false} NewlineStep(ls: seq<string>, firstLine: bool, currentIndent: nat,
                    currentLength: nat, beginLine: bool, commonIndent: Option<nat>)
    requires ScanState(ls, firstLine, currentIndent, currentLength, beginLine, commonIndent)
    ensures ScanState(Extend(ls, NL), false, 0, 0, true,
      if firstLine then commonIndent
      else if currentIndent < currentLength && (commonIndent.None? || currentIndent < commonIndent.value)
      then Some(currentIndent)
      else commonIndent)
  {
    var open := ls[|ls| - 1];
    CountedStep(ls, NL);
    if !firstLine {
      assert (Counted(ls) + [open])[..|Counted(ls)|] == Counted(ls);
    }
  }

  /** Any other character lengthens the open line; a space also deepens its indentation
      while the line is all spaces. */
  lemma {:induction false} CharStep(ls: seq<string>, c: char, firstLine: bool, currentIndent: nat,
                 currentLength: nat, beginLine: bool, commonIndent: Option<nat>)
    requires c != NL
    requires ScanState(ls, firstLine, currentIndent, currentLength, beginLine, commonIndent)
    ensures ScanState(Extend(ls, c), firstLine,
      if c == SP && beginLine then currentIndent + 1 else currentIndent,
      currentLength + 1, c == SP && beginLine, commonIndent)
  {
    var open := ls[|ls| - 1];
    CountedStep(ls, c);
    LeadAfter(open, c);
    assert Extend(ls, c)[|ls| - 1] == open + [c];
  }

  /** One codepoint of the scan: when the variables after it are updated as the loop body
      updates them, they describe the lines of the string up to and including it. */
  lemma {:induction false} ScanStep(str: string, i: nat,
      firstLine: bool, currentIndent: nat, currentLength: nat, beginLine: bool, commonIndent: Option<nat>,
      firstLine': bool, currentIndent': nat, currentLength': nat, beginLine': bool, commonIndent': Option<nat>)
    requires i < |str|
    requires ScanState(Lines(str[..i]), firstLine, currentIndent, currentLength, beginLine, commonIndent)
    requires str[i] == NL ==>
      && !firstLine' && currentIndent' == 0 && currentLength' == 0 && beginLine'
      && commonIndent' ==
           if firstLine then commonIndent
           else if currentIndent < currentLength && (commonIndent.None? || currentIndent < commonIndent.value)
           then Some(currentIndent)
           else commonIndent
    requires str[i] != NL ==>
      && firstLine' == firstLine
      && currentIndent' == (if str[i] == SP && beginLine then currentIndent + 1 else currentIndent)
      && currentLength' == currentLength + 1
      && beginLine' == (str[i] == SP && beginLine)
      && commonIndent' == commonIndent
    ensures ScanState(Lines(str[..i + 1]), firstLine', currentIndent', currentLength', beginLine', commonIndent')
  {
    var ls, c := Lines(str[..i]), str[i];
    assert str[..i + 1] == str[..i] + [c];
    LinesSnoc(str[..i], c);
    if c == NL {
      NewlineStep(ls, firstLine, currentIndent, currentLength, beginLine, commonIndent);
    } else {
      CharStep(ls, c, firstLine, currentIndent, currentLength, beginLine, commonIndent);
    }
  }

  /** The codepoint loop of `trim_whitespace`: one pass over the string that tracks the
      indentation and length of the open line and lowers the common indentation each time
      a newline ends a counted line. */
  method ScanCommonIndent(str: string) returns (commonIndent: Option<nat>)
    ensures commonIndent == CommonIndent(str)
  {
    commonIndent := None;
    var currentIndent: nat, currentLength: nat := 0, 0;
    var beginLine, firstLine := true, true;
    var i := 0;
    while i < |str|
      invariant 0 <= i <= |str|
      invariant ScanState(Lines(str[..i]), firstLine, currentIndent, currentLength, beginLine, commonIndent)
    {
      var c := str[i];
      ghost var state := (firstLine, currentIndent, currentLength, beginLine, commonIndent);
      if c == NL {
        if firstLine {
          firstLine := false;
        } else if currentIndent < currentLength
          && (commonIndent.None? || currentIndent < commonIndent.value) {
          commonIndent := Some(currentIndent);
        }
        beginLine := true;
        currentIndent := 0;
        currentLength := 0;
      } else if c == SP {
        if beginLine {
          currentIndent := currentIndent + 1;
        }
        currentLength := currentLength + 1;
      } else {
        beginLine := false;
        currentLength := currentLength + 1;
      }
      ScanStep(str, i, state.0, state.1, state.2, state.3, state.4,
               firstLine, currentIndent, currentLength, beginLine, commonIndent);
      i := i + 1;
    }
    assert str[..|str|] == str;
  }

  /** The regexp `gsub!` strips common indentation with, or none. */
  datatype Replacement =
    | NoReplacement           // common_indent is nil or 0
    | ExactSpaces(n: nat)     // `^ {n}`, precompiled for 1 <= n <= 10
    | UpToSpaces(n: nat)      // `^ {0,n}`, built on demand for n > 10

  /** `replace_regexp` for a common indentation. */
  function ReplacementFor(commonIndent: Option<nat>): (r: Replacement)
    ensures r.ExactSpaces? ==> 1 <= r.n <= Precompiled
    ensures r.UpToSpaces? ==> r.n > Precompiled
  {
    if commonIndent.Some? && commonIndent.value > 0 then
      if commonIndent.value <= Precompiled then ExactSpaces(commonIndent.value)
      else UpToSpaces(commonIndent.value)
    else NoReplacement
  }

  /** What the replacement takes off one line: `^` matches at the start of every line
      (the first included) and the match is removed. Only leading spaces go. */
  function StripLine(line: string, rep: Replacement): (r: string)
    ensures |r| <= |line| && line == Spaces(|line| - |r|) + r
  {
    var k := match rep
      case NoReplacement => 0
      case ExactSpaces(n) => if Lead(line) >= n then n else 0
      case UpToSpaces(n) => if n < Lead(line) then n else Lead(line);
    assert line == line[..k] + line[k..];
    assert line[..k] == Spaces(k);
    line[k..]
  }

  /** `str.gsub!(replace_regexp, "")`, line by line. */
  function RemoveIndent(s: string, rep: Replacement): string {
    var ls := Lines(s);
    Join(seq(|ls|, i requires 0 <= i < |ls| => StripLine(ls[i], rep)), NL)
  }

  /** The lines after the `gsub!` are the stripped lines of the string before it. */
  lemma {:induction false} RemoveIndentLines(s: string, rep: Replacement)
    ensures var ls := Lines(s);
      Lines(RemoveIndent(s, rep)) == seq(|ls|, i requires 0 <= i < |ls| => StripLine(ls[i], rep))
  {
    var ls := Lines(s);
    var stripped := seq(|ls|, i requires 0 <= i < |ls| => StripLine(ls[i], rep));
    forall i | 0 <= i < |ls| ensures NL !in stripped[i] {
      assert ls[i] == Spaces(|ls[i]| - |stripped[i]|) + stripped[i];
    }
    LinesOfJoin(stripped);
  }

  /** Without a replacement the string stays as it is. */
  lemma {:induction false} RemoveNothing(s: string)
    ensures RemoveIndent(s, NoReplacement) == s
  {
    var ls := Lines(s);
    var stripped := seq(|ls|, i requires 0 <= i < |ls| => StripLine(ls[i], NoReplacement));
    assert stripped == ls;
    JoinLines(s);
  }

  /** `^ {n}` takes exactly n spaces off each line that has at least n, and leaves the
      other lines alone. */
  lemma {:induction false} RemoveExact(s: string, n: nat)
    ensures var r, ls := RemoveIndent(s, ExactSpaces(n)), Lines(s);
      && |Lines(r)| == |ls|
      && forall i :: 0 <= i < |ls| ==>
           ls[i] == (if Lead(ls[i]) >= n then Spaces(n) else "") + Lines(r)[i]
  {
    var ls := Lines(s);
    RemoveIndentLines(s, ExactSpaces(n));
    forall i | 0 <= i < |ls| ensures ls[i] ==
      (if Lead(ls[i]) >= n then Spaces(n) else "") + StripLine(ls[i], ExactSpaces(n))
    {
      StripExact(ls[i], n);
    }
  }

  /** `^ {n}` on one line: n spaces go when the line has them, nothing otherwise. */
  lemma StripExact(line: string, n: nat)
    ensures line == (if Lead(line) >= n then Spaces(n) else "") + StripLine(line, ExactSpaces(n))
  {
    if Lead(line) < n { assert Spaces(0) == ""; }
  }

  /** `^ {0,n}` takes up to n spaces off every line. */
  lemma {:induction false} RemoveUpTo(s: string, n: nat)
    ensures var r, ls := RemoveIndent(s, UpToSpaces(n)), Lines(s);
      && |Lines(r)| == |ls|
      && forall i :: 0 <= i < |ls| ==>
           ls[i] == Spaces(if Lead(ls[i]) < n then Lead(ls[i]) else n) + Lines(r)[i]
  {
    RemoveIndentLines(s, UpToSpaces(n));
  }

  /** What the `gsub!` does to each line, for each kind of common indentation: nothing
      when it is nil or 0; exactly n spaces off each line that has at least n when it is
      1..10; up to n spaces off every line when it is wider. The lines stay the lines. */
  lemma {:induction false} RemoveIndentByLine(s: string, commonIndent: Option<nat>)
    ensures var r, ls := RemoveIndent(s, ReplacementFor(commonIndent)), Lines(s);
      && |Lines(r)| == |ls|
      && (commonIndent.None? || commonIndent == Some(0) ==> r == s)
      && (commonIndent.Some? && 1 <= commonIndent.value <= Precompiled ==>
            forall i :: 0 <= i < |ls| ==>
              ls[i] == (if Lead(ls[i]) >= commonIndent.value then Spaces(commonIndent.value) else "")
                       + Lines(r)[i])
      && (commonIndent.Some? && commonIndent.value > Precompiled ==>
            forall i :: 0 <= i < |ls| ==>
              ls[i] == Spaces(if Lead(ls[i]) < commonIndent.value then Lead(ls[i]) else commonIndent.value)
                       + Lines(r)[i])
  {
    match ReplacementFor(commonIndent)
    case NoReplacement => RemoveNothing(s);
    case ExactSpaces(n) => RemoveExact(s, n);
    case UpToSpaces(n) => RemoveUpTo(s, n);
  }
}
