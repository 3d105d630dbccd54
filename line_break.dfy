/** `BlockString.break_line`: a long line is cut at spaces into sublines by a `split` on
    the capturing pattern `((?: |^).{15,M}(?= |$))`, M being the width less 40, and the
    parts are regrouped so that each subline after the first starts at a captured run. */
module LineBreak {
  import opened Text

  /** The least number of characters `.{15,M}` takes. */
  const MinRun: nat := 15
  /** A line shorter than the width plus this is returned whole. */
  const Slack: nat := 5
  /** M is the width less this. */
  const Margin: nat := 40

  /** `^` holds at position p of s: at the start, or right after a newline. */
  predicate LineBegin(s: string, p: nat)
    requires p <= |s|
  {
    p == 0 || s[p - 1] == NL
  }

  /** `.{k}(?= |$)` matches at position q: k characters other than a newline, then a
      space, a newline or the end of the string. */
  predicate Fits(s: string, q: nat, k: nat) {
    && q + k <= |s|
    && NewlineFree(s, q, q + k)
    && (q + k == |s| || s[q + k] == SP || s[q + k] == NL)
  }

  /** No newline among the characters at positions q up to e (`.` matches any of them). */
  predicate NewlineFree(s: string, q: nat, e: nat)
    requires e <= |s|
    decreases e - q
  {
    q >= e || (s[q] != NL && NewlineFree(s, q + 1, e))
  }

  /** The greedy `.{15,k}(?= |$)` at position q: the longest length from k down to 15 for
      which the lookahead holds, or `None` when there is none. */
  function Longest(s: string, q: nat, k: nat): (r: Option<nat>)
    ensures r.Some? ==> MinRun <= r.value <= k && Fits(s, q, r.value)
    decreases k
  {
    if k < MinRun then None
    else if Fits(s, q, k) then Some(k)
    else Longest(s, q, k - 1)
  }

  /** The run `Longest` picks is the longest one that fits, and none fits when it finds none. */
  lemma {:induction false} LongestIsGreedy(s: string, q: nat, k: nat)
    ensures Longest(s, q, k).Some? ==> forall j :: Longest(s, q, k).value < j <= k ==> !Fits(s, q, j)
    ensures Longest(s, q, k).None? ==> forall j :: MinRun <= j <= k ==> !Fits(s, q, j)
    decreases k
  {
    if k >= MinRun && !Fits(s, q, k) {
      LongestIsGreedy(s, q, k - 1);
    }
  }

  /** Where the match of the pattern that starts at position p ends, if it matches there.
      The space alternative is tried first; `^` only when it fails. */
  function MatchAt(s: string, p: nat, max: nat): (r: Option<nat>)
    requires p < |s|
    ensures r.Some? ==> p + MinRun <= r.value <= |s|
    ensures r.Some? && !LineBegin(s, p) ==> s[p] == SP && p + MinRun < r.value
  {
    var spaced := if s[p] == SP then Longest(s, p + 1, max) else None;
    if spaced.Some? then Some(p + 1 + spaced.value)
    else if LineBegin(s, p) then
      var bare := Longest(s, p, max);
      if bare.Some? then Some(p + bare.value) else None
    else None
  }

  /** Some run of 15 to `max` characters fits at position q. */
  predicate SomeFit(s: string, q: nat, max: nat) {
    exists k :: MinRun <= k <= max && Fits(s, q, k)
  }

  /** k is the longest run of 15 to `max` characters that fits at position q. */
  predicate LongestFit(s: string, q: nat, max: nat, k: int) {
    && MinRun <= k <= max
    && Fits(s, q, k)
    && forall j :: k < j <= max ==> !Fits(s, q, j)
  }

  /** What the pattern does at position p: when a space is there and a run fits after it,
      the match is the space and the longest such run; otherwise, where a line begins and
      a run fits, it is the longest such run; and there is no match in any other case. */
  lemma {:induction false} MatchAtMeaning(s: string, p: nat, max: nat)
    requires p < |s|
    ensures var r, spaced := MatchAt(s, p, max), s[p] == SP && SomeFit(s, p + 1, max);
      && (spaced ==> r.Some? && LongestFit(s, p + 1, max, r.value - p - 1))
      && (!spaced && LineBegin(s, p) && SomeFit(s, p, max) ==>
            r.Some? && LongestFit(s, p, max, r.value - p))
      && (r.None? <==> !spaced && !(LineBegin(s, p) && SomeFit(s, p, max)))
  {
    LongestIsGreedy(s, p + 1, max);
    LongestIsGreedy(s, p, max);
    var spaced, bare := Longest(s, p + 1, max), Longest(s, p, max);
    if spaced.Some? {
      assert Fits(s, p + 1, spaced.value);
    }
    if bare.Some? {
      assert Fits(s, p, bare.value);
    }
  }

  /** The leftmost match at or after `from`. */
  function NextMatch(s: string, from: nat, max: nat): (m: Option<Span>)
    requires from <= |s|
    ensures m.Some? ==> from <= m.value.start && m.value.start + MinRun <= m.value.end <= |s|
    ensures m.Some? ==> MatchAt(s, m.value.start, max) == Some(m.value.end)
    decreases |s| - from
  {
    if from == |s| then None
    else
      var e := MatchAt(s, from, max);
      if e.Some? then Some(Span(from, e.value)) else NextMatch(s, from + 1, max)
  }

  /** The match `NextMatch` finds is the leftmost one, and none exists when it finds none. */
  lemma {:induction false} NextMatchIsLeftmost(s: string, from: nat, max: nat)
    requires from <= |s|
    ensures NextMatch(s, from, max).Some? ==>
      forall p :: from <= p < NextMatch(s, from, max).value.start ==> MatchAt(s, p, max).None?
    ensures NextMatch(s, from, max).None? ==>
      forall p :: from <= p < |s| ==> MatchAt(s, p, max).None?
    decreases |s| - from
  {
    if from < |s| && MatchAt(s, from, max).None? {
      NextMatchIsLeftmost(s, from + 1, max);
    }
  }

  /** The `split` finds a match from `from` on exactly when the pattern matches at some
      position there. */
  lemma {:induction false} MatchCountPositive(s: string, from: nat, max: nat)
    requires from <= |s|
    ensures MatchCount(s, from, max) > 0 <==> exists p :: from <= p < |s| && MatchAt(s, p, max).Some?
  {
    NextMatchIsLeftmost(s, from, max);
    var m := NextMatch(s, from, max);
    if m.Some? {
      assert MatchAt(s, m.value.start, max).Some?;
    }
  }

  /** `s[from..].split(pattern)` before trailing empty fields are dropped: the text before
      each match, then what the group captured, and finally the text after the last match. */
  function SplitFrom(s: string, from: nat, max: nat): seq<string>
    requires from <= |s|
    decreases |s| - from
  {
    match NextMatch(s, from, max)
    case None => [if from == 0 then s else s[from..]]
    case Some(m) => [if from == 0 then s[..m.start] else s[from..m.start], s[m.start..m.end]] + SplitFrom(s, m.end, max)
  }

  /** How many matches the `split` finds from `from` on. */
  function MatchCount(s: string, from: nat, max: nat): nat
    requires from <= |s|
    decreases |s| - from
  {
    match NextMatch(s, from, max)
    case None => 0
    case Some(m) => 1 + MatchCount(s, m.end, max)
  }

  /** Where the last match from `from` on ends, or `from` when there is none: the text
      after it is the `split`'s final field. */
  function LastEnd(s: string, from: nat, max: nat): (e: nat)
    requires from <= |s|
    ensures from <= e <= |s|
    decreases |s| - from
  {
    match NextMatch(s, from, max)
    case None => from
    case Some(m) => LastEnd(s, m.end, max)
  }

  /** Ruby's `line.split(pattern)`: trailing empty fields are dropped. */
  function SplitParts(line: string, max: nat): seq<string> {
    DropTrailingEmpty(SplitFrom(line, 0, max))
  }

  /** `part[1..-1]`, interpolated: the part without its first character ("" for ""). */
  function Tail(part: string): (r: string)
    ensures |r| == if part == [] then 0 else |part| - 1
  {
    if part == [] then "" else part[1..]
  }

  /** The first character of a non-empty part, followed by its tail, is the part. */
  lemma {:induction false} TailRejoins(part: string)
    requires part != []
    ensures [part[0]] + Tail(part) == part
  {
    assert ([part[0]] + Tail(part))[1..] == part[1..];
  }

  /** The sublines after the first: for each captured run, the run without its leading
      space followed by the text up to the next run ("" after the last one). */
  function Pairs(rest: seq<string>): (r: seq<string>)
    ensures 2 * |r| == |rest| || 2 * |r| == |rest| + 1
    decreases |rest|
  {
    if |rest| == 0 then []
    else if |rest| == 1 then [Tail(rest[0])]
    else [Tail(rest[0]) + rest[1]] + Pairs(rest[2..])
  }

  /** The widths `break_line` can be given: the line is short enough to come back whole,
      or the width leaves M at 15 or more so that the pattern is well formed. */
  predicate Breakable(line: string, length: int) {
    |line| < length + Slack || length >= MinRun + Margin
  }

  /** What `break_line(line, length)` returns. */
  function BrokenLine(line: string, length: int): (r: seq<string>)
    requires Breakable(line, length)
    ensures |r| >= 1
  {
    if |line| < length + Slack then [line]
    else Regrouped(line, SplitParts(line, length - Margin))
  }

  /** What `break_line` makes of the parts of a long line: the line itself when there are
      fewer than four, otherwise the first three glued followed by the pairs of the rest. */
  function Regrouped(line: string, parts: seq<string>): (r: seq<string>)
    ensures |r| >= 1
  {
    if |parts| < 4 then [line]
    else [parts[0] + parts[1] + parts[2]] + Pairs(parts[3..])
  }

  /** `break_line(line, length)`, step by step: the two early returns, then the first
      three parts make the first subline and the loop over the rest (a method of its own
      below) adds the others. */
  method BreakLine(line: string, length: int) returns (sublines: seq<string>)
    requires Breakable(line, length)
    ensures sublines == BrokenLine(line, length)
  {
    if |line| < length + Slack {
      return [line];
    }
    var parts := SplitParts(line, length - Margin);
    if |parts| < 4 {
      return [line];
    }
    var first := parts[0] + parts[1] + parts[2];
    parts := parts[3..];
    sublines := Regroup(first, parts);
  }

  /** `parts.each_with_index` after `parts.slice!(0, 3)`: every even-numbered part, without
      its first character, followed by the next part, is pushed onto `sublines`. */
  method Regroup(first: string, parts: seq<string>) returns (sublines: seq<string>)
    ensures sublines == [first] + Pairs(parts)
  {
    sublines := [first];
    var i := 0;
    while i < |parts|
      invariant 0 <= i <= |parts|
      invariant sublines == [first] + Pairs(parts[..Covered(i, |parts|)])
    {
      RegroupStep(parts, i);
      if i % 2 == 0 {
        var next := if i + 1 < |parts| then parts[i + 1] else "";
        sublines := sublines + [Tail(parts[i]) + next];
      }
      i := i + 1;
    }
    assert parts[..|parts|] == parts;
  }

  /** How many of n parts the loop has grouped once it reaches position i: an even
      position opens a new subline, which takes the part after it too. */
  function Covered(i: nat, n: nat): (c: nat)
    requires i <= n
    ensures c <= n
  {
    if i % 2 == 0 || i == n then i else i + 1
  }

  /** One step of the loop: at an even position one more subline is grouped, of the part
      there and the next one (if any); at an odd position nothing changes. */
  lemma {:induction false} RegroupStep(parts: seq<string>, i: nat)
    requires i < |parts|
    ensures i % 2 == 0 ==>
      Pairs(parts[..Covered(i + 1, |parts|)]) ==
        Pairs(parts[..Covered(i, |parts|)])
          + [Tail(parts[i]) + if i + 1 < |parts| then parts[i + 1] else ""]
    ensures i % 2 == 1 ==> Covered(i + 1, |parts|) == Covered(i, |parts|)
  {
    var n := |parts|;
    if i % 2 == 1 {
      assert Covered(i, n) == i + 1 && Covered(i + 1, n) == i + 1;
    } else if i + 1 < n {
      assert Covered(i, n) == i && Covered(i + 1, n) == i + 2;
      PairsStep(parts, i);
    } else {
      assert Covered(i, n) == i && Covered(i + 1, n) == i + 1;
      PairsStep(parts, i);
    }
  }

  /** The sublines of the parts up to an even position grow by one pair for the next two
      parts, or by one tail for the last part. */
  lemma {:induction false} PairsStep(parts: seq<string>, i: nat)
    requires i % 2 == 0 && i < |parts|
    ensures i + 1 < |parts| ==>
      Pairs(parts[..i + 2]) == Pairs(parts[..i]) + [Tail(parts[i]) + parts[i + 1]]
    ensures i + 1 == |parts| ==>
      Pairs(parts[..i + 1]) == Pairs(parts[..i]) + [Tail(parts[i]) + ""]
  {
    if i + 1 < |parts| {
      assert parts[..i + 2] == parts[..i] + [parts[i], parts[i + 1]];
      PairsAppend(parts[..i], [parts[i], parts[i + 1]]);
      assert [parts[i], parts[i + 1]][2..] == [];
    } else {
      assert parts[..i + 1] == parts[..i] + [parts[i]];
      PairsAppend(parts[..i], [parts[i]]);
      assert Tail(parts[i]) + "" == Tail(parts[i]);
    }
  }

  /** Pairing an even number of parts, then more, is pairing each list. */
  lemma {:induction false} PairsAppend(xs: seq<string>, ys: seq<string>)
    requires |xs| % 2 == 0
    ensures Pairs(xs + ys) == Pairs(xs) + Pairs(ys)
    decreases |xs|
  {
    if xs == [] {
      assert xs + ys == ys;
    } else {
      var zs := xs + ys;
      assert zs[0] == xs[0] && zs[1] == xs[1];
      assert zs[2..] == xs[2..] + ys;
      PairsAppend(xs[2..], ys);
    }
  }

  /** The `split` before trailing fields are dropped: a segment, then a captured run and a
      segment for each match. */
  lemma {:induction false} SplitFromCount(s: string, from: nat, max: nat)
    requires from <= |s|
    ensures |SplitFrom(s, from, max)| == 2 * MatchCount(s, from, max) + 1
    decreases |s| - from
  {
    var m := NextMatch(s, from, max);
    if m.Some? {
      SplitFromCount(s, m.value.end, max);
    }
  }

  /** The parts of the `split` glue back into the text. */
  lemma {:induction false} SplitFromConcat(s: string, from: nat, max: nat)
    requires from <= |s|
    ensures Concat(SplitFrom(s, from, max)) == s[from..]
    decreases |s| - from
  {
    var parts := SplitFrom(s, from, max);
    var m := NextMatch(s, from, max);
    if m.None? {
      assert Concat(parts) == s[from..] + Concat([]);
    } else {
      var e := m.value.end;
      var rest := SplitFrom(s, e, max);
      SplitFromConcat(s, e, max);
      var seg, cap := s[from..m.value.start], s[m.value.start..e];
      assert parts == [seg, cap] + rest;
      ConcatAppend([seg, cap], rest);
      assert Concat([seg, cap]) == seg + (cap + Concat([]));
      assert s[from..] == seg + cap + s[e..];
    }
  }

  /** Every captured run (the part at position 2k + 1 for each k) holds at least 15
      characters. */
  predicate LongRuns(parts: seq<string>) {
    forall k :: 0 <= k < |parts| && 2 * k + 1 < |parts| ==> |parts[2 * k + 1]| >= MinRun
  }

  /** Every captured run at position k or later starts with a space and holds more than 15
      characters. Indexes the parts of the split itself; `RunsSpaced` says the weaker
      "starts with a space" of the parts left once the first three are joined. */
  predicate SpacedRunsFrom(parts: seq<string>, k: nat) {
    forall i :: k <= i < |parts| && i % 2 == 1 ==> |parts[i]| > MinRun && parts[i][0] == SP
  }

  /** Every captured run holds at least 15 characters. */
  lemma {:induction false} SplitFromRuns(s: string, from: nat, max: nat)
    requires from <= |s|
    ensures LongRuns(SplitFrom(s, from, max))
    decreases |s| - from
  {
    var m := NextMatch(s, from, max);
    if m.Some? {
      var b, e := m.value.start, m.value.end;
      SplitFromRuns(s, e, max);
      assert SplitFrom(s, from, max) == [s[from..b], s[b..e]] + SplitFrom(s, e, max);
      LongRunsCons(s[from..b], s[b..e], SplitFrom(s, e, max));
    }
  }

  /** A segment and a long run in front of parts whose runs are long. */
  lemma {:induction false} LongRunsCons(seg: string, run: string, rest: seq<string>)
    requires |run| >= MinRun && LongRuns(rest)
    ensures LongRuns([seg, run] + rest)
  {
    var parts := [seg, run] + rest;
    forall k | 0 <= k < |parts| && 2 * k + 1 < |parts| ensures |parts[2 * k + 1]| >= MinRun {
      if k > 0 {
        assert parts[2 * k + 1] == rest[2 * (k - 1) + 1];
      }
    }
  }


  /** In a line without newlines, every captured run that does not start at position 0
      starts with the space the pattern matched there, and holds 16 or more characters.
      From position 0 of the line, that covers the first run too exactly when the text
      before it is not empty. */
  lemma {:induction false} SplitFromSpaced(s: string, from: nat, max: nat)
    requires from <= |s| && NL !in s
    ensures var parts := SplitFrom(s, from, max);
      SpacedRunsFrom(parts, if from > 0 || (|parts| > 0 && parts[0] != "") then 0 else 2)
    decreases |s| - from
  {
    var m := NextMatch(s, from, max);
    if m.Some? {
      var b, e := m.value.start, m.value.end;
      SplitFromSpaced(s, e, max);
      if b > 0 {
        CapturedSpaced(s, b, e, max);
      }
      var parts := [s[from..b], s[b..e]] + SplitFrom(s, e, max);
      assert SplitFrom(s, from, max) == parts;
      assert parts[0] != "" <==> b > from;
      SpacedRunsCons(s[from..b], s[b..e], SplitFrom(s, e, max), if b > 0 then 0 else 2);
    }
  }

  /** A run the pattern matches away from the start of a newline-free line starts with the
      space before it and holds more than 15 characters. */
  lemma {:induction false} CapturedSpaced(s: string, b: nat, e: nat, max: nat)
    requires NL !in s && 0 < b < |s| && MatchAt(s, b, max) == Some(e)
    ensures |s[b..e]| > MinRun && s[b..e][0] == SP
  {
    assert s[b - 1] in s;
    assert !LineBegin(s, b);
  }

  /** A segment and a run in front of parts whose runs all start with a space: from
      position 2 on, or from 0 when the run starts with a space too. */
  lemma {:induction false} SpacedRunsCons(seg: string, run: string, rest: seq<string>, k: nat)
    requires k == 0 || k == 2
    requires SpacedRunsFrom(rest, 0)
    requires k == 0 ==> |run| > MinRun && run[0] == SP
    ensures SpacedRunsFrom([seg, run] + rest, k)
  {
    var parts := [seg, run] + rest;
    forall i | k <= i < |parts| && i % 2 == 1 ensures |parts[i]| > MinRun && parts[i][0] == SP {
      if i > 1 {
        assert parts[i] == rest[i - 2] && (i - 2) % 2 == 1;
      }
    }
  }

  /** Dropping trailing empty fields can only drop the final segment, since a captured run
      is never empty: the split yields 2c + 1 parts for c matches, or 2c when the text
      after the last match is empty (the line ends at a match, or is empty). */
  lemma {:induction false} SplitPartsCount(line: string, max: nat)
    ensures var c := MatchCount(line, 0, max);
      |SplitParts(line, max)| == if LastEnd(line, 0, max) == |line| then 2 * c else 2 * c + 1
  {
    var full := SplitFrom(line, 0, max);
    SplitFromCount(line, 0, max);
    SplitFromRuns(line, 0, max);
    SplitFromLast(line, 0, max);
    if |full| >= 2 {
      var c := MatchCount(line, 0, max);
      assert |full[2 * (c - 1) + 1]| >= MinRun;
    }
    DropLastEmpty(full);
  }

  /** When the field before the last is not empty, dropping trailing empty fields drops
      at most the last one. */
  lemma {:induction false} DropLastEmpty(xs: seq<string>)
    requires |xs| >= 1 && (|xs| >= 2 ==> xs[|xs| - 2] != "")
    ensures |DropTrailingEmpty(xs)| == if xs[|xs| - 1] == "" then |xs| - 1 else |xs|
  {
    if xs[|xs| - 1] == "" && |xs| >= 2 {
      var init := xs[..|xs| - 1];
      assert init[|init| - 1] == xs[|xs| - 2];
    }
  }

  /** The final field of the `split` is the text after the last match. */
  lemma {:induction false} SplitFromLast(s: string, from: nat, max: nat)
    requires from <= |s|
    ensures var full := SplitFrom(s, from, max);
      |full| > 0 && full[|full| - 1] == s[LastEnd(s, from, max)..]
    decreases |s| - from
  {
    match NextMatch(s, from, max)
    case None =>
      assert s[0..] == s;
    case Some(m) =>
      SplitFromLast(s, m.end, max);
  }

  /** In a line without newlines, every run after the first starts with a space and holds
      more than 15 characters. */
  lemma {:induction false} SplitPartsSpaced(line: string, max: nat)
    requires NL !in line
    ensures SpacedRunsFrom(SplitParts(line, max), 3)
  {
    var parts, full := SplitParts(line, max), SplitFrom(line, 0, max);
    SplitFromSpaced(line, 0, max);
    forall i | 3 <= i < |parts| && i % 2 == 1 ensures |parts[i]| > MinRun && parts[i][0] == SP {
      assert parts[i] == full[i];
    }
  }

  /** The parts `split` returns glue back into the line. */
  lemma {:induction false} SplitPartsConcat(line: string, max: nat)
    ensures Concat(SplitParts(line, max)) == line
  {
    var parts, full := SplitParts(line, max), SplitFrom(line, 0, max);
    SplitFromConcat(line, 0, max);
    var dropped := full[|parts|..];
    assert full == parts + dropped;
    ConcatAppend(parts, dropped);
    EmptyConcat(dropped);
    assert line[0..] == line;
  }

  /** Gluing empty strings gives the empty string. */
  lemma {:induction false} EmptyConcat(xs: seq<string>)
    requires forall i :: 0 <= i < |xs| ==> xs[i] == ""
    ensures Concat(xs) == ""
    decreases |xs|
  {
    if xs != [] {
      EmptyConcat(xs[1..]);
    }
  }
  /** Every subline after the first holds at least 15 characters. */
  predicate LongTails(r: seq<string>) {
    forall i :: 1 <= i < |r| ==> |r[i]| >= MinRun
  }

  /** `break_line` returns the line whole when it is shorter than the width plus 5 or the
      pattern matches fewer than twice; otherwise it returns one subline per match, so two
      or more, and the line is not returned whole. */
  lemma {:induction false} BrokenLineWhole(line: string, length: int)
    requires Breakable(line, length)
    ensures |line| < length + Slack ==>
      |BrokenLine(line, length)| == 1 && BrokenLine(line, length)[0] == line
    ensures |line| >= length + Slack ==>
      var c := MatchCount(line, 0, length - Margin);
      && (c < 2 ==> |BrokenLine(line, length)| == 1 && BrokenLine(line, length)[0] == line)
      && (c >= 2 ==> |BrokenLine(line, length)| == c)
  {
    if |line| >= length + Slack {
      var max: nat := length - Margin;
      var parts := SplitParts(line, max);
      SplitPartsCount(line, max);
      RegroupedCount(line, parts, MatchCount(line, 0, max));
      BrokenLineLong(line, length, parts);
    }
  }

  /** At the narrowest width (M = 15), a line of 60 or more characters without newlines
      whose first character is not a space and that has spaces at positions 15 and 31 is
      cut: the pattern matches its first 15 characters and the space and 15 characters
      after them, so `break_line` returns two or more sublines. */
  lemma {:induction false} CutAtSpaces(line: string)
    requires |line| >= 60 && NL !in line
    requires line[0] != SP && line[15] == SP && line[31] == SP
    ensures MatchCount(line, 0, 15) >= 2 && |BrokenLine(line, 55)| >= 2
  {
    NoNewlineBetween(line, 0, 15);
    assert Fits(line, 0, 15);
    assert MatchAt(line, 0, 15) == Some(15);
    assert NextMatch(line, 0, 15) == Some(Span(0, 15));
    NoNewlineBetween(line, 16, 31);
    assert Fits(line, 16, 15);
    assert MatchAt(line, 15, 15) == Some(31);
    MatchCountPositive(line, 15, 15);
    BrokenLineWhole(line, 55);
  }

  /** In a string without newlines, no stretch of it holds one. */
  lemma {:induction false} NoNewlineBetween(s: string, q: nat, e: nat)
    requires e <= |s| && NL !in s
    ensures NewlineFree(s, q, e)
    decreases e - q
  {
    if q < e {
      assert s[q] in s;
      NoNewlineBetween(s, q + 1, e);
    }
  }

  /** With c matches the regrouping keeps the line whole when c is below 2, and otherwise
      makes one subline per match. */
  lemma {:induction false} RegroupedCount(line: string, parts: seq<string>, c: nat)
    requires |parts| == 2 * c + 1 || |parts| == 2 * c
    ensures c < 2 ==> |Regrouped(line, parts)| == 1 && Regrouped(line, parts)[0] == line
    ensures c >= 2 ==> |Regrouped(line, parts)| == c
  {
    if c >= 2 {
      assert |parts[3..]| == |parts| - 3;
    }
  }

  /** When `break_line` cuts a line that has no newline, the sublines joined with single
      spaces give the line back (each run after the first starts with the space that
      `part[1..-1]` drops), and every subline after the first holds at least 15
      characters. */
  lemma {:induction false} BrokenLineRejoins(line: string, length: int)
    requires Breakable(line, length) && NL !in line
    ensures Join(BrokenLine(line, length), SP) == line && LongTails(BrokenLine(line, length))
  {
    if |line| >= length + Slack {
      var max: nat := length - Margin;
      var parts := SplitParts(line, max);
      SplitPartsSpaced(line, max);
      SplitPartsConcat(line, max);
      RegroupedRejoins(line, parts);
      BrokenLineLong(line, length, parts);
    }
  }

  /** A line too long to keep whole is regrouped from the parts of its split. */
  lemma {:induction false} BrokenLineLong(line: string, length: int, parts: seq<string>)
    requires Breakable(line, length) && |line| >= length + Slack
    requires parts == SplitParts(line, length - Margin)
    ensures BrokenLine(line, length) == Regrouped(line, parts)
  {
  }

  /** The regrouped parts of a line, joined with spaces, give the line back when the runs
      after the first start with spaces; the sublines after the first are 15 characters or
      longer. */
  lemma {:induction false} RegroupedRejoins(line: string, parts: seq<string>)
    requires Concat(parts) == line && SpacedRunsFrom(parts, 3)
    ensures Join(Regrouped(line, parts), SP) == line && LongTails(Regrouped(line, parts))
  {
    if |parts| >= 4 {
      RegroupRejoins(parts);
      RegroupLong(parts);
    }
  }

  /** No subline of a line without newlines holds one. */
  lemma {:induction false} BrokenLineNoNewline(line: string, length: int)
    requires Breakable(line, length) && NL !in line
    ensures NoNewlines(BrokenLine(line, length))
  {
    BrokenLineRejoins(line, length);
    JoinParts(BrokenLine(line, length), SP, NL);
  }

  /** The regrouping undone: when every run after the first starts with a space, the
      sublines joined with spaces glue all the parts together. */
  lemma {:induction false} RegroupRejoins(parts: seq<string>)
    requires |parts| >= 4 && SpacedRunsFrom(parts, 3)
    ensures Join([parts[0] + parts[1] + parts[2]] + Pairs(parts[3..]), SP) == Concat(parts)
  {
    var rest := parts[3..];
    forall j | 0 <= j < |rest| && j % 2 == 0 ensures |rest[j]| > 0 && rest[j][0] == SP {
      assert rest[j] == parts[j + 3] && (j + 3) % 2 == 1;
    }
    assert RunsSpaced(rest);
    JoinPairs(parts[0] + parts[1] + parts[2], rest);
    ConcatFront(parts);
  }

  /** Gluing the parts is gluing the first three, then the others. */
  lemma {:induction false} ConcatFront(parts: seq<string>)
    requires |parts| >= 3
    ensures Concat(parts) == parts[0] + parts[1] + parts[2] + Concat(parts[3..])
  {
    var p1 := parts[1..];
    var p2 := p1[1..];
    assert p2[1..] == parts[3..];
    assert Concat(parts) == parts[0] + Concat(p1);
    assert Concat(p1) == parts[1] + Concat(p2);
    assert Concat(p2) == parts[2] + Concat(parts[3..]);
  }

  /** Every subline after the first holds at least 15 characters when every run after the
      first holds more. */
  lemma {:induction false} RegroupLong(parts: seq<string>)
    requires |parts| >= 4 && SpacedRunsFrom(parts, 3)
    ensures LongTails([parts[0] + parts[1] + parts[2]] + Pairs(parts[3..]))
  {
    var rest := parts[3..];
    var r := [parts[0] + parts[1] + parts[2]] + Pairs(rest);
    PairsLong(rest);
    forall i | 1 <= i < |r| ensures |r[i]| >= MinRun {
      assert r[i] == Pairs(rest)[i - 1];
      assert rest[2 * (i - 1)] == parts[2 * i + 1] && (2 * i + 1) % 2 == 1;
    }
  }

  /** Every even-numbered part (a captured run, once the first three parts are gone)
      starts with a space: `SpacedRunsFrom(parts, 3)` re-indexed for `parts[3..]`, where
      the runs sit at even positions. */
  predicate RunsSpaced(rest: seq<string>) {
    forall j :: 0 <= j < |rest| && j % 2 == 0 ==> |rest[j]| > 0 && rest[j][0] == SP
  }

  /** Joining the first subline and the pairs with spaces glues the runs back on: each run
      starts with a space, which its pair drops and the join puts back. */
  lemma {:induction false} JoinPairs(x: string, rest: seq<string>)
    requires RunsSpaced(rest)
    ensures Join([x] + Pairs(rest), SP) == x + Concat(rest)
    decreases |rest|
  {
    if |rest| == 0 {
      assert [x] + Pairs(rest) == [x];
    } else if |rest| == 1 {
      JoinPairsOne(x, rest);
    } else {
      var y := Tail(rest[0]) + rest[1];
      RunsSpacedDrop(rest);
      JoinPairs(x + [SP] + y, rest[2..]);
      JoinPairsStep(x, rest);
    }
  }

  /** The last run alone: its tail joined on with a space is the run itself. */
  lemma {:induction false} JoinPairsOne(x: string, rest: seq<string>)
    requires |rest| == 1 && |rest[0]| > 0 && rest[0][0] == SP
    ensures Join([x] + Pairs(rest), SP) == x + Concat(rest)
  {
    assert [x] + Pairs(rest) == [x, Tail(rest[0])];
    assert [x, Tail(rest[0])][..1] == [x];
    assert Concat(rest) == rest[0] + Concat([]);
  }

  /** Dropping a run and the segment after it keeps the runs spaced. */
  lemma {:induction false} RunsSpacedDrop(rest: seq<string>)
    requires |rest| >= 2 && RunsSpaced(rest)
    ensures RunsSpaced(rest[2..]) && |rest[0]| > 0 && rest[0][0] == SP
  {
    var more := rest[2..];
    forall j | 0 <= j < |more| && j % 2 == 0 ensures |more[j]| > 0 && more[j][0] == SP {
      assert more[j] == rest[j + 2];
    }
  }

  /** One step of the join: the first pair merged into the first subline. */
  lemma {:induction false} JoinPairsStep(x: string, rest: seq<string>)
    requires |rest| >= 2 && |rest[0]| > 0 && rest[0][0] == SP
    requires var y := Tail(rest[0]) + rest[1];
      Join([x + [SP] + y] + Pairs(rest[2..]), SP) == x + [SP] + y + Concat(rest[2..])
    ensures Join([x] + Pairs(rest), SP) == x + Concat(rest)
  {
    var run, seg, more := rest[0], rest[1], rest[2..];
    var y, p := Tail(run) + seg, Pairs(more);
    assert Pairs(rest) == [y] + p;
    JoinMerge(x, y, p, SP);
    SpacedTail(x, run, seg);
    ConcatTwo(rest);
    Regroup4(x, run, seg, Concat(more));
  }

  /** Gluing four strings does not depend on how they are grouped. */
  lemma {:induction false} Regroup4(a: string, b: string, c: string, d: string)
    ensures a + b + c + d == a + (b + (c + d))
  {
  }

  /** A run that starts with a space is that space and its tail. */
  lemma {:induction false} SpacedTail(x: string, run: string, seg: string)
    requires |run| > 0 && run[0] == SP
    ensures x + [SP] + (Tail(run) + seg) == x + run + seg
  {
    TailRejoins(run);
    Regroup4(x, [SP], Tail(run), seg);
    assert [SP] + (Tail(run) + seg) == run + seg;
  }

  /** Gluing two or more parts is gluing the first two in front of the others. */
  lemma {:induction false} ConcatTwo(rest: seq<string>)
    requires |rest| >= 2
    ensures Concat(rest) == rest[0] + (rest[1] + Concat(rest[2..]))
  {
    assert rest[1..][1..] == rest[2..];
  }

  /** Joining a list that starts with a and b is joining a list that starts with their
      join. */
  lemma {:induction false} JoinMerge(a: string, b: string, xs: seq<string>, sep: char)
    ensures Join([a] + ([b] + xs), sep) == Join([a + [sep] + b] + xs, sep)
  {
    if xs == [] {
      assert [b] + xs == [b];
      assert [a + [sep] + b] + xs == [a + [sep] + b];
      JoinCons(a, [b], sep);
    } else {
      JoinCons(a, [b] + xs, sep);
      JoinCons(b, xs, sep);
      JoinCons(a + [sep] + b, xs, sep);
    }
  }

  /** Each pair is at least as long as its run without the run's first character. */
  lemma {:induction false} PairsLong(rest: seq<string>)
    ensures forall k :: 0 <= k < |Pairs(rest)| ==> |Pairs(rest)[k]| + 1 >= |rest[2 * k]|
    decreases |rest|
  {
    if |rest| >= 2 {
      PairsLong(rest[2..]);
      forall k | 1 <= k < |Pairs(rest)| ensures |Pairs(rest)[k]| + 1 >= |rest[2 * k]| {
        assert Pairs(rest)[k] == Pairs(rest[2..])[k - 1];
        assert rest[2 * k] == rest[2..][2 * (k - 1)];
      }
    }
  }
}
