/** `BlockString.trim_whitespace`: the common indentation comes off every line, then
    each of two `while slice!` loops cuts blank lines from one edge of the string. */
module Trim {
  import opened Text
  import opened Indent
  import opened BlankLines

  /** What `trim_whitespace` returns. The empty string and a string with neither a
      newline nor a leading space come back at once; any other string goes through the
      scan, the `gsub!` and the two `slice!` loops, each of which cuts at most once. */
  function Trimmed(str: string): string {
    if str == "" then ""
    else if NL !in str && str[0] != SP then str
    else
      var commonIndent := CommonIndent(str);
      var stripped := RemoveIndent(str, ReplacementFor(commonIndent));
      var once := SliceOnce(stripped, LeadingPattern(commonIndent));
      SliceOnce(once, TrailingPattern(commonIndent))
  }

  /** `while (res = str.slice!(pat)); end`: cut the leftmost match until there is none.
      The loop stops after at most one cut, and on exit the pattern does not match. */
  method SliceWhileMatching(str: string, pat: Pattern) returns (s: string)
    ensures s == SliceOnce(str, pat)
    ensures Find(pat, s).None?
  {
    s := str;
    while true
      invariant s == str || s == SliceOnce(str, pat)
      invariant s != str ==> Find(pat, s).None?
      decreases |s|
    {
      var res := Find(pat, s);
      if res.None? {
        break;
      }
      NoMatchAfterSlice(pat, s);
      s := s[..res.value.start] + s[res.value.end..];
    }
  }

  /** `trim_whitespace(str)`, step by step. */
  method TrimWhitespace(str: string) returns (r: string)
    ensures r == Trimmed(str)
  {
    if str == "" {
      return "";
    } else if NL !in str && str[0] != SP {
      return str;
    }
    var commonIndent := ScanCommonIndent(str);
    var replace := ReplacementFor(commonIndent);
    r := str;
    if !replace.NoReplacement? {
      r := RemoveIndent(r, replace);
    } else {
      RemoveNothing(str);
    }
    r := SliceWhileMatching(r, LeadingPattern(commonIndent));
    r := SliceWhileMatching(r, TrailingPattern(commonIndent));
  }

  /** A string without a newline comes back unchanged: either a fast path returns it, or
      it starts with a space, has no counted line, so no common indentation, and no
      pattern can match since every match needs a newline. */
  lemma {:induction false} TrimKeepsNewlineFree(str: string)
    requires NL !in str
    ensures Trimmed(str) == str
  {
    if str != "" && str[0] == SP {
      LinesOfLine(str);
      assert CommonIndent(str).None?;
      RemoveNothing(str);
      assert Find(HeadRun(None), str).None?;
      NoBlankRunWithoutNewline(str, None);
      assert Find(TailRun(None), str).None?;
    }
  }

  /** A string without a newline holds no run of blank lines. */
  lemma {:induction false} NoBlankRunWithoutNewline(s: string, bound: Option<nat>)
    requires NL !in s
    ensures forall q :: 0 <= q < |s| ==> !IsBlankRun(s[q..], bound)
  {
    forall q | 0 <= q < |s| ensures !IsBlankRun(s[q..], bound) {
      assert s[q..][0] == s[q];
    }
  }

  /** What `trim_whitespace` returns never ends with a newline: where the second loop
      cuts at the end, the end-anchored pattern no longer matches; where it cuts at the
      start (1..10), the first loop already cut at the end and the second keeps a suffix. */
  lemma {:induction false} TrimmedNoFinalNewline(str: string)
    ensures var r := Trimmed(str); r == [] || r[|r| - 1] != NL
  {
    if str != "" && !(NL !in str && str[0] != SP) {
      var commonIndent := CommonIndent(str);
      SlicesNoFinalNewline(RemoveIndent(str, ReplacementFor(commonIndent)), commonIndent);
    } else if str != "" {
      assert str[|str| - 1] in str;
    }
  }

  /** The two loops, whatever string and common indentation they are given, leave no
      newline at the end. */
  lemma {:induction false} SlicesNoFinalNewline(stripped: string, commonIndent: Option<nat>)
    ensures var r := SliceOnce(SliceOnce(stripped, LeadingPattern(commonIndent)), TrailingPattern(commonIndent));
      r == [] || r[|r| - 1] != NL
  {
    var once := SliceOnce(stripped, LeadingPattern(commonIndent));
    if InTables(commonIndent) {
      NoMatchAfterSlice(TailRun(None), stripped);
      NoTailRunNoFinalNewline(once, None);
      HeadCutKeepsEnd(once);
    } else {
      NoMatchAfterSlice(TailRun(commonIndent), once);
      NoTailRunNoFinalNewline(SliceOnce(once, TailRun(commonIndent)), commonIndent);
    }
  }

  /** Cutting the mixed pattern's match at the start keeps the end of the string. */
  lemma {:induction false} HeadCutKeepsEnd(s: string)
    requires s == [] || s[|s| - 1] != NL
    ensures var r := SliceOnce(s, HeadMixed); r == [] || r[|r| - 1] != NL
  {
    if Find(HeadMixed, s).Some? {
      var m := Find(HeadMixed, s).value;
      var r := s[m.end..];
      if r != [] {
        assert r[|r| - 1] == s[|s| - 1];
      }
    }
  }

  /** A line with text and no indentation: not empty, no newline, no leading space. */
  predicate TextLine(u: string) {
    u != [] && NL !in u && u[0] != SP
  }

  /** Two lines with text, each indented by two spaces, each ended by a newline, after an
      empty first line. The common indentation is 2, one of the widths with a table entry,
      so the first loop uses the end-anchored pattern and cuts the final newline, and the
      second loop's start-anchored pattern finds nothing: the leading newline stays. */
  lemma {:induction false} TrimIndentedPair(u: string, v: string)
    requires TextLine(u) && TextLine(v)
    ensures Trimmed([NL] + Spaces(2) + u + [NL] + Spaces(2) + v + [NL]) == [NL] + u + [NL] + v
  {
    var str := [NL] + Spaces(2) + u + [NL] + Spaces(2) + v + [NL];
    var t := [NL] + u + [NL] + v;
    PairIndent(u, v);
    PairStrip(u, v);
    assert ReplacementFor(Some(2)) == ExactSpaces(2);
    PairSlices(t, u, v);
    TrimmedStages(str, Some(2), t + [NL], t, t);
  }

  /** The two loops on the indented pair without its indentation: the first, with the
      end-anchored pattern, cuts the final newline; the second, with the mixed pattern,
      finds nothing, since the leading newline is followed by text. */
  lemma {:induction false} PairSlices(t: string, u: string, v: string)
    requires TextLine(u) && TextLine(v)
    requires t == [NL] + u + [NL] + v
    ensures SliceOnce(t + [NL], LeadingPattern(Some(2))) == t
    ensures SliceOnce(t, TrailingPattern(Some(2))) == t
  {
    assert LeadingPattern(Some(2)) == TailRun(None);
    assert TrailingPattern(Some(2)) == HeadMixed;
    CutFinalNewline(t, u, v);
    assert t[1] == u[0];
    MixedNeedsSpace(t);
  }

  /** `trim_whitespace` on a string with a newline or a leading space, stage by stage: the
      common indentation, the string without it, the string after the first loop and after
      the second. */
  lemma {:induction false} TrimmedStages(str: string, commonIndent: Option<nat>, stripped: string, once: string, r: string)
    requires str != "" && str[0] == NL
    requires CommonIndent(str) == commonIndent
    requires RemoveIndent(str, ReplacementFor(commonIndent)) == stripped
    requires SliceOnce(stripped, LeadingPattern(commonIndent)) == once
    requires SliceOnce(once, TrailingPattern(commonIndent)) == r
    ensures Trimmed(str) == r
  {
  }

  /** A newline followed by anything but a space does not start the mixed pattern. */
  lemma {:induction false} MixedNeedsSpace(t: string)
    requires |t| >= 2 && t[0] == NL && t[1] != SP
    ensures Find(HeadMixed, t).None?
  {
    assert Lead(t) == 0;
  }

  /** The lines of the indented pair. */
  lemma PairLines(u: string, v: string)
    requires NL !in u && NL !in v
    ensures Lines([NL] + Spaces(2) + u + [NL] + Spaces(2) + v + [NL])
      == ["", Spaces(2) + u, Spaces(2) + v, ""]
  {
    var a, b := Spaces(2) + u, Spaces(2) + v;
    assert Spaces(2) == [SP, SP];
    assert [NL] + Spaces(2) + u + [NL] + Spaces(2) + v + [NL] == [NL] + a + [NL] + b + [NL];
    TwoLines(a, b);
  }

  /** Two lines between three newlines. */
  lemma TwoLines(a: string, b: string)
    requires NL !in a && NL !in b
    ensures Lines([NL] + a + [NL] + b + [NL]) == ["", a, b, ""]
  {
    var x := b + [NL] + "";
    var y := a + [NL] + x;
    assert [NL] + a + [NL] + b + [NL] == "" + [NL] + y;
    LinesOfLine("");
    LineThenNewline(b, "", [""]);
    LineThenNewline(a, x, [b] + [""]);
    LineThenNewline("", y, [a] + ([b] + [""]));
    assert [""] + ([a] + ([b] + [""])) == ["", a, b, ""];
  }

  /** A line and a newline in front of a string add that line in front of its lines. */
  lemma LineThenNewline(a: string, x: string, ls: seq<string>)
    requires NL !in a && Lines(x) == ls
    ensures Lines(a + [NL] + x) == [a] + ls
  {
    LinesOfLine(a);
    LinesAppendNewline(a, x);
  }

  /** The indented pair has a common indentation of 2. */
  lemma {:induction false} PairIndent(u: string, v: string)
    requires TextLine(u) && TextLine(v)
    ensures CommonIndent([NL] + Spaces(2) + u + [NL] + Spaces(2) + v + [NL]) == Some(2)
  {
    var a, b := Spaces(2) + u, Spaces(2) + v;
    PairLines(u, v);
    assert Lead(a) == 2 by { LeadIs(a, 2); }
    assert Lead(b) == 2 by { LeadIs(b, 2); }
    assert Counted(["", a, b, ""]) == [a, b];
    assert [a, b][..1] == [a] && [a][..0] == [];
    assert !Blank(a) && !Blank(b);
    assert MinIndent([a]) == Some(2);
    assert MinIndent([a, b]) == Some(2);
    assert CommonIndent([NL] + Spaces(2) + u + [NL] + Spaces(2) + v + [NL]) == MinIndent([a, b]);
  }

  /** Taking exactly two spaces off each line of the indented pair that has them. */
  lemma {:induction false} PairStrip(u: string, v: string)
    requires TextLine(u) && TextLine(v)
    ensures RemoveIndent([NL] + Spaces(2) + u + [NL] + Spaces(2) + v + [NL], ExactSpaces(2))
      == [NL] + u + [NL] + v + [NL]
  {
    var str := [NL] + Spaces(2) + u + [NL] + Spaces(2) + v + [NL];
    var ls := Lines(str);
    PairLines(u, v);
    StripTwo(u);
    StripTwo(v);
    var stripped := seq(|ls|, i requires 0 <= i < |ls| => StripLine(ls[i], ExactSpaces(2)));
    assert stripped == ["", u, v, ""];
    JoinFour(u, v);
  }

  /** A line of text indented by two spaces loses exactly those two. */
  lemma {:induction false} StripTwo(u: string)
    requires u != [] && u[0] != SP
    ensures StripLine(Spaces(2) + u, ExactSpaces(2)) == u
  {
    LeadIs(Spaces(2) + u, 2);
  }

  /** The four lines of the pair, without their indentation, joined again. */
  lemma {:induction false} JoinFour(u: string, v: string)
    ensures Join(["", u, v, ""], NL) == [NL] + u + [NL] + v + [NL]
  {
    var x1, x2, x3, x4 := [""], ["", u], ["", u, v], ["", u, v, ""];
    assert x4[..3] == x3 && x3[..2] == x2 && x2[..1] == x1;
    assert Join(x1, NL) == "";
    assert Join(x2, NL) == [NL] + u;
    assert Join(x3, NL) == [NL] + u + [NL] + v;
  }

  /** Where `[NL] + u + [NL] + v` ends with one more newline, the leftmost run of blank
      lines that reaches the end is that newline alone. */
  lemma {:induction false} CutFinalNewline(t: string, u: string, v: string)
    requires TextLine(u) && TextLine(v)
    requires t == [NL] + u + [NL] + v
    ensures SliceOnce(t + [NL], TailRun(None)) == t
  {
    var s := t + [NL];
    var w := |u| + 1;
    assert s[w + 1] == v[0];
    forall q | 0 <= q < |t| ensures !IsBlankRun(s[q..], None) {
      if q <= w + 1 {
        if IsBlankRun(s[q..], None) {
          BlankRunIsWhitespace(s[q..], None);
          assert false;
        }
      } else {
        assert s[q] == v[q - w - 1];
        assert s[q..][0] == s[q];
      }
    }
    assert Lead(s[|t|..][1..]) == 0;
    assert IsBlankRun(s[|t|..], None);
    assert TailStart(s, None, 0) == Some(|t|);
    assert s[..|t|] == t;
  }

  /** Blank lines around one line of text indented by two spaces, `"\n\n  t\n\n"`. The
      common indentation is 2, so the tables apply: the first loop cuts the two final
      newlines, and the second finds nothing at the start, since no space follows either
      leading newline. The two leading newlines stay, and so do any spaces that end `t`. */
  lemma {:induction false} TrimBlankAround(t: string)
    requires TextLine(t)
    ensures Trimmed([NL, NL] + Spaces(2) + t + [NL, NL]) == [NL, NL] + t
  {
    var str := [NL, NL] + Spaces(2) + t + [NL, NL];
    var u := [NL, NL] + t;
    AroundIndent(t);
    AroundStrip(t);
    assert ReplacementFor(Some(2)) == ExactSpaces(2);
    AroundSlices(u, t);
    TrimmedStages(str, Some(2), u + [NL, NL], u, u);
  }

  /** The lines of `"\n\n  t\n\n"`. */
  lemma AroundLines(t: string)
    requires NL !in t
    ensures Lines([NL, NL] + Spaces(2) + t + [NL, NL]) == ["", "", Spaces(2) + t, "", ""]
  {
    var a := Spaces(2) + t;
    assert Spaces(2) == [SP, SP];
    assert [NL, NL] + Spaces(2) + t + [NL, NL] == [NL, NL] + a + [NL, NL];
    LinesAround(a);
  }

  /** One line between two newlines before it and two after it. */
  lemma LinesAround(a: string)
    requires NL !in a
    ensures Lines([NL, NL] + a + [NL, NL]) == ["", "", a, "", ""]
  {
    var x := "" + [NL] + "";
    var y := a + [NL] + x;
    var z := "" + [NL] + y;
    assert [NL, NL] + a + [NL, NL] == "" + [NL] + z;
    LinesOfLine("");
    LineThenNewline("", "", [""]);
    LineThenNewline(a, x, [""] + [""]);
    LineThenNewline("", y, [a] + ([""] + [""]));
    LineThenNewline("", z, [""] + ([a] + ([""] + [""])));
    assert [""] + ([""] + ([a] + ([""] + [""]))) == ["", "", a, "", ""];
  }

  /** Only the indented line is counted among those a newline ends after the first (the
      two empty ones are blank), so the common indentation is 2. */
  lemma {:induction false} AroundIndent(t: string)
    requires TextLine(t)
    ensures CommonIndent([NL, NL] + Spaces(2) + t + [NL, NL]) == Some(2)
  {
    var a := Spaces(2) + t;
    AroundLines(t);
    assert Lead(a) == 2 by { LeadIs(a, 2); }
    assert Counted(["", "", a, "", ""]) == ["", a, ""];
    assert !Blank(a) && Blank("");
    assert ["", a, ""][..2] == ["", a] && ["", a][..1] == [""] && [""][..0] == [];
    assert MinIndent([""]) == None;
    assert MinIndent(["", a]) == Some(2);
    assert MinIndent(["", a, ""]) == Some(2);
  }

  /** Taking exactly two spaces off each line of `"\n\n  t\n\n"` that has them. */
  lemma {:induction false} AroundStrip(t: string)
    requires TextLine(t)
    ensures RemoveIndent([NL, NL] + Spaces(2) + t + [NL, NL], ExactSpaces(2))
      == [NL, NL] + t + [NL, NL]
  {
    var ls := Lines([NL, NL] + Spaces(2) + t + [NL, NL]);
    AroundLines(t);
    StripTwo(t);
    assert StripLine("", ExactSpaces(2)) == "" by { assert Lead("") == 0; }
    StripFive(ls, ExactSpaces(2), Spaces(2) + t, t);
    JoinAround(t);
  }

  /** Five lines, all empty but the middle one, each stripped. */
  lemma {:induction false} StripFive(ls: seq<string>, rep: Replacement, a: string, t: string)
    requires ls == ["", "", a, "", ""] && StripLine(a, rep) == t && StripLine("", rep) == ""
    ensures seq(|ls|, i requires 0 <= i < |ls| => StripLine(ls[i], rep)) == ["", "", t, "", ""]
  {
    var want := ["", "", t, "", ""];
    assert ls[0] == "" && ls[1] == "" && ls[2] == a && ls[3] == "" && ls[4] == "";
    assert want[0] == "" && want[1] == "" && want[2] == t && want[3] == "" && want[4] == "";
    forall i | 0 <= i < |ls| ensures StripLine(ls[i], rep) == want[i] {
      assert i == 0 || i == 1 || i == 2 || i == 3 || i == 4;
    }
    StripEach(ls, rep, want);
  }

  /** The stripped lines are `out` when each line strips to its counterpart in `out`. */
  lemma {:induction false} StripEach(ls: seq<string>, rep: Replacement, out: seq<string>)
    requires |out| == |ls|
    requires forall i :: 0 <= i < |ls| ==> StripLine(ls[i], rep) == out[i]
    ensures seq(|ls|, i requires 0 <= i < |ls| => StripLine(ls[i], rep)) == out
  {
  }

  /** The five lines of `"\n\nt\n\n"` joined again. */
  lemma {:induction false} JoinAround(t: string)
    ensures Join(["", "", t, "", ""], NL) == [NL, NL] + t + [NL, NL]
  {
    var x1, x2, x3, x4, x5 := [""], ["", ""], ["", "", t], ["", "", t, ""], ["", "", t, "", ""];
    assert x5[..4] == x4 && x4[..3] == x3 && x3[..2] == x2 && x2[..1] == x1;
    assert Join(x1, NL) == "";
    assert Join(x2, NL) == [NL];
    assert Join(x3, NL) == [NL, NL] + t;
    assert Join(x4, NL) == [NL, NL] + t + [NL];
  }

  /** The two loops on `"\n\nt\n\n"`: the end-anchored pattern takes the two final
      newlines, and the mixed pattern finds nothing after them. */
  lemma {:induction false} AroundSlices(u: string, t: string)
    requires TextLine(t)
    requires u == [NL, NL] + t
    ensures SliceOnce(u + [NL, NL], LeadingPattern(Some(2))) == u
    ensures SliceOnce(u, TrailingPattern(Some(2))) == u
  {
    assert LeadingPattern(Some(2)) == TailRun(None);
    assert TrailingPattern(Some(2)) == HeadMixed;
    var s := u + [NL, NL];
    forall q | 0 <= q < |u| ensures !IsBlankRun(s[q..], None) {
      if q <= 2 {
        TextBlocksRun(s, q, 2, None);
      } else {
        assert s[q] == t[q - 2];
        assert s[q..][0] == s[q];
      }
    }
    assert s[|u|..] == [NL, NL];
    assert IsBlankRun(s[|u|..], None);
    assert TailStart(s, None, 0) == Some(|u|);
    assert s[..|u|] == u;
    MixedNeedsSpace(u);
  }

  /** A run of blank lines cannot reach over a character that is neither a space nor a
      newline. */
  lemma {:induction false} TextBlocksRun(s: string, q: nat, i: nat, bound: Option<nat>)
    requires q <= i < |s| && s[i] != SP && s[i] != NL
    ensures !IsBlankRun(s[q..], bound)
  {
    assert !Whitespace(s[q..]) by { assert s[q..][i - q] == s[i]; }
    if IsBlankRun(s[q..], bound) {
      BlankRunIsWhitespace(s[q..], bound);
      assert false;
    }
  }

  /** What the indented pair trims to is trimmed again: its counted line has text and no
      indentation, so the common indentation is 0, and `\A\n+` cuts the leading newline. */
  lemma {:induction false} TrimLeadingNewline(u: string, v: string)
    requires TextLine(u) && TextLine(v)
    ensures Trimmed([NL] + u + [NL] + v) == u + [NL] + v
  {
    var t := [NL] + u + [NL] + v;
    assert CommonIndent(t) == Some(0) by { FlushIndent(u, v); }
    assert RemoveIndent(t, ReplacementFor(Some(0))) == t by { RemoveIndentByLine(t, Some(0)); }
    var once := u + [NL] + v;
    assert SliceOnce(t, HeadRun(Some(0))) == once by { CutLeadingNewline(u, v); }
    assert once[|u| + 1] == v[0];
    NoRunBeforeText(once, |u| + 1, Some(0));
  }

  /** `\A\n+` takes the single newline in front of a line with text. */
  lemma {:induction false} CutLeadingNewline(u: string, v: string)
    requires u != [] && u[0] != NL
    ensures SliceOnce([NL] + u + [NL] + v, HeadRun(Some(0))) == u + [NL] + v
  {
    var t, once := [NL] + u + [NL] + v, u + [NL] + v;
    assert t[1..] == once;
    assert HeadRunLen(once, Some(0)) == 0;
    assert HeadRunLen(t, Some(0)) == 1;
  }

  /** An empty first line, then a line with text at the margin: common indentation 0. */
  lemma {:induction false} FlushIndent(u: string, v: string)
    requires TextLine(u)
    requires NL !in v
    ensures CommonIndent([NL] + u + [NL] + v) == Some(0)
  {
    var t := [NL] + u + [NL] + v;
    FlushLines(u, v);
    assert Counted(["", u, v]) == [u];
    assert Lead(u) == 0 && !Blank(u);
    assert [u][..0] == [];
    assert MinIndent([u]) == Some(0);
  }

  /** The lines of an empty first line followed by two more. */
  lemma {:induction false} FlushLines(u: string, v: string)
    requires NL !in u && NL !in v
    ensures Lines([NL] + u + [NL] + v) == ["", u, v]
  {
    assert [NL] + u + [NL] + v == "" + [NL] + (u + [NL] + v);
    LinesOfLine(u);
    LinesOfLine(v);
    LinesOfLine("");
    LinesAppendNewline(u, v);
    LinesAppendNewline("", u + [NL] + v);
  }

  /** No run of blank lines reaches the end of a string whose last line has text. */
  lemma {:induction false} NoRunBeforeText(s: string, i: nat, bound: Option<nat>)
    requires i < |s| && s[i] != SP && s[i] != NL
    requires forall j :: i < j < |s| ==> s[j] != NL
    ensures Find(TailRun(bound), s).None?
  {
    forall q | 0 <= q < |s| ensures !IsBlankRun(s[q..], bound) {
      if q <= i {
        if IsBlankRun(s[q..], bound) {
          BlankRunIsWhitespace(s[q..], bound);
          assert false;
        }
      } else {
        assert s[q..][0] == s[q];
      }
    }
  }

  /** Trimming is not idempotent: trimming the result of trimming the indented pair cuts
      the newline the first trim left at its start. */
  lemma {:induction false} TrimNotIdempotent(u: string, v: string)
    requires TextLine(u) && TextLine(v)
    ensures var once := Trimmed([NL] + Spaces(2) + u + [NL] + Spaces(2) + v + [NL]);
      Trimmed(once) != once
  {
    TrimIndentedPair(u, v);
    TrimLeadingNewline(u, v);
    assert |u + [NL] + v| != |[NL] + u + [NL] + v|;
  }
}
