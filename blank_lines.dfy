/** The patterns the two `slice!` loops of `trim_whitespace` cut blank lines with, as
    hand-written matchers with the leftmost-match semantics of Ruby's regexps. */
module BlankLines {
  import opened Text
  import Indent

  /** A group `\n {0,N}` may hold k spaces; `bound` is N, or `None` for `\n *` (which is
      also what `{0,}` means when `common_indent` is nil). */
  predicate Within(k: nat, bound: Option<nat>) {
    bound.None? || k <= bound.value
  }

  /** k, or N when N is smaller: how many spaces the greedy ` {0,N}` takes of a run of k. */
  function Cap(k: nat, bound: Option<nat>): (c: nat)
    ensures c <= k && Within(c, bound)
    ensures c < k ==> bound == Some(c)
  {
    if bound.Some? && bound.value < k then bound.value else k
  }

  /** `t` is matched whole by `(?:\n {0,N})+`. Every group begins with a newline, so the
      spaces after a newline all belong to that newline's group: there is one way to cut
      `t` into groups, and this follows it. */
  predicate IsBlankRun(t: string, bound: Option<nat>)
    decreases |t|
  {
    && |t| > 0
    && t[0] == NL
    && var k := Lead(t[1..]);
       Within(k, bound) && (1 + k == |t| || IsBlankRun(t[1 + k..], bound))
  }

  /** A run of blank lines holds nothing but newlines and spaces, and starts with a
      newline. */
  lemma {:induction false} BlankRunIsWhitespace(t: string, bound: Option<nat>)
    requires IsBlankRun(t, bound)
    ensures t[0] == NL && Whitespace(t)
    decreases |t|
  {
    var k := Lead(t[1..]);
    assert forall i :: 1 <= i <= k ==> t[i] == t[1..][i - 1];
    if 1 + k < |t| {
      var rest := t[1 + k..];
      BlankRunIsWhitespace(rest, bound);
      assert forall i :: 1 + k <= i < |t| ==> t[i] == rest[i - 1 - k];
    }
  }

  /** Without a bound on the spaces, a run of blank lines is exactly a string of newlines
      and spaces that starts with a newline. */
  lemma {:induction false} UnboundedBlankRun(t: string)
    requires |t| > 0 && t[0] == NL && Whitespace(t)
    ensures IsBlankRun(t, None)
    decreases |t|
  {
    var k := Lead(t[1..]);
    if 1 + k < |t| {
      var rest := t[1 + k..];
      assert rest[0] == t[1..][k];
      assert forall i :: 0 <= i < |rest| ==> rest[i] == t[1 + k + i];
      UnboundedBlankRun(rest);
    }
  }

  /** Two runs of blank lines one after the other are one run. */
  lemma {:induction false} BlankRunAppend(a: string, b: string, bound: Option<nat>)
    requires IsBlankRun(a, bound) && IsBlankRun(b, bound)
    ensures IsBlankRun(a + b, bound)
    decreases |a|
  {
    var t := a + b;
    var k := Lead(a[1..]);
    LeadAfterNewline(a, k);
    DropAppend(a, b, 1 + k);
    if 1 + k < |a| {
      BlankRunAppend(a[1 + k..], b, bound);
    }
    assert t[1 + k] == t[1 + k..][0];
    BlankRunIntro(t, k, bound);
  }

  /** `a + b` from position j within `a` is `a` from j, then `b`; before j it agrees
      with `a`. */
  lemma {:induction false} DropAppend(a: string, b: string, j: nat)
    requires j <= |a|
    ensures (a + b)[j..] == a[j..] + b
    ensures forall i :: 0 <= i < j ==> (a + b)[i] == a[i]
  {
  }

  /** `(?:\n {0,N})+\Z`: where the leftmost match begins at or after `from`. The match
      always runs to the end of the string: `\Z` may also stop before a final newline, but
      the greedy loop can always take that newline as one more group. */
  function TailStart(s: string, bound: Option<nat>, from: nat): (p: Option<nat>)
    requires from <= |s|
    ensures p.Some? ==> from <= p.value < |s| && IsBlankRun(s[p.value..], bound)
    ensures p.Some? ==> forall q :: from <= q < p.value ==> !IsBlankRun(s[q..], bound)
    ensures p.None? ==> forall q :: from <= q < |s| ==> !IsBlankRun(s[q..], bound)
    decreases |s| - from
  {
    if from == |s| then None
    else if IsBlankRun(s[from..], bound) then Some(from)
    else TailStart(s, bound, from + 1)
  }

  /** `\A(?:\n {0,N})+`: the length of the match at the start of `s`, 0 when there is
      none. Each group greedily takes up to N spaces, and the loop goes on while a
      newline follows. */
  function HeadRunLen(s: string, bound: Option<nat>): (n: nat)
    ensures n <= |s|
    ensures n > 0 <==> |s| > 0 && s[0] == NL
    ensures n < |s| ==> s[n] != NL
    decreases |s|
  {
    if |s| > 0 && s[0] == NL then
      var k := Cap(Lead(s[1..]), bound);
      1 + k + HeadRunLen(s[1 + k..], bound)
    else 0
  }

  /** The definition of a run of blank lines, read as a way to build one: a newline, k
      spaces that end there, then nothing or another run. */
  lemma {:induction false} BlankRunIntro(t: string, k: nat, bound: Option<nat>)
    requires 1 + k <= |t| && t[0] == NL && Within(k, bound)
    requires forall i :: 1 <= i <= k ==> t[i] == SP
    requires 1 + k < |t| ==> t[1 + k] != SP && IsBlankRun(t[1 + k..], bound)
    ensures IsBlankRun(t, bound)
  {
    assert forall i :: 0 <= i < k ==> t[1..][i] == t[i + 1];
    assert 1 + k < |t| ==> t[1..][k] == t[1 + k];
    LeadIs(t[1..], k);
  }

  /** What the leading match takes is a run of blank lines. */
  lemma {:induction false} HeadRunIsBlank(s: string, bound: Option<nat>)
    requires HeadRunLen(s, bound) > 0
    ensures IsBlankRun(s[..HeadRunLen(s, bound)], bound)
    decreases |s|
  {
    var k := Cap(Lead(s[1..]), bound);
    var m := HeadRunLen(s[1 + k..], bound);
    assert HeadRunLen(s, bound) == 1 + k + m;
    if m > 0 {
      HeadRunIsBlank(s[1 + k..], bound);
    }
    BlankRunPrefix(s, k, m, HeadRunLen(s, bound), bound);
  }

  /** No prefix of `s` longer than the leading match is a run of blank lines: the greedy
      loop takes the longest one there is. */
  lemma {:induction false} HeadRunLongest(s: string, bound: Option<nat>)
    ensures forall m :: HeadRunLen(s, bound) < m <= |s| ==> !IsBlankRun(s[..m], bound)
  {
    forall m | 0 < m <= |s| && IsBlankRun(s[..m], bound) ensures m <= HeadRunLen(s, bound) {
      HeadRunLongestAt(s, bound, m);
    }
  }

  /** One prefix at a time: the rest of the prefix after the match's first group is a run
      no longer than the rest of the match. */
  lemma {:induction false} HeadRunLongestAt(s: string, bound: Option<nat>, m: nat)
    requires 0 < m <= |s| && IsBlankRun(s[..m], bound)
    ensures m <= HeadRunLen(s, bound)
    decreases |s|
  {
    var k := Cap(Lead(s[1..]), bound);
    PrefixRunStep(s, bound, m, k);
    HeadRunStep(s, bound, k);
    if 1 + k < m {
      HeadRunLongestAt(s[1 + k..], bound, m - 1 - k);
    }
  }

  /** The leading match is a newline, the k spaces its group takes, and the leading match
      of what follows. */
  lemma {:induction false} HeadRunStep(s: string, bound: Option<nat>, k: nat)
    requires |s| > 0 && s[0] == NL && k == Cap(Lead(s[1..]), bound)
    ensures 1 + k <= |s| && HeadRunLen(s, bound) == 1 + k + HeadRunLen(s[1 + k..], bound)
  {
  }

  /** A prefix that is a run takes no more spaces after its first newline than the match
      did (at most N, and no more than there are), so past the match's first group, of
      k spaces, it is either over or a run again. */
  lemma {:induction false} PrefixRunStep(s: string, bound: Option<nat>, m: nat, k: nat)
    requires 0 < m <= |s| && IsBlankRun(s[..m], bound)
    requires k == Cap(Lead(s[1..]), bound)
    ensures |s| > 0 && s[0] == NL
    ensures m <= 1 + k || IsBlankRun(s[1 + k..][..m - 1 - k], bound)
  {
    var t := s[..m];
    assert s[0] == t[0];
    LeadOfPrefix(s, m);
    var l := Lead(t[1..]);
    if 1 + l < m {
      assert l == k;
      assert t[1 + k..] == s[1 + k..][..m - 1 - k];
    }
  }

  /** The spaces after the first character of a prefix of `s`: those after the first
      character of `s`, up to the prefix's length. */
  lemma {:induction false} LeadOfPrefix(s: string, m: nat)
    requires 0 < m <= |s|
    ensures Lead(s[..m][1..]) == if Lead(s[1..]) < m - 1 then Lead(s[1..]) else m - 1
  {
    var u, v := s[1..], s[..m][1..];
    var l := if Lead(u) < m - 1 then Lead(u) else m - 1;
    assert forall i :: 0 <= i < m - 1 ==> v[i] == u[i];
    LeadIs(v, l);
  }

  /** The characters after the first one, up to the k-th, are spaces when k is no more than
      the spaces that follow the first. */
  lemma {:induction false} LeadAfterNewline(s: string, k: nat)
    requires |s| > 0 && k <= Lead(s[1..])
    ensures forall i :: 1 <= i <= k ==> s[i] == SP
  {
    forall i | 1 <= i <= k ensures s[i] == SP {
      assert s[i] == s[1..][i - 1];
    }
  }

  /** A newline, k of the spaces that follow it, then m characters that are empty or a
      run of blank lines make a run of blank lines n = 1 + k + m characters long. */
  lemma {:induction false} BlankRunPrefix(s: string, k: nat, m: nat, n: nat, bound: Option<nat>)
    requires n == 1 + k + m <= |s| && s[0] == NL && Within(k, bound) && k <= Lead(s[1..])
    requires m > 0 ==> IsBlankRun(s[1 + k..][..m], bound)
    ensures IsBlankRun(s[..n], bound)
  {
    LeadAfterNewline(s, k);
    var t := s[..n];
    assert forall i :: 1 <= i <= k ==> t[i] == s[i];
    if m > 0 {
      assert t[1 + k] == s[1 + k..][..m][0];
      assert t[1 + k..] == s[1 + k..][..m];
    }
    BlankRunIntro(t, k, bound);
  }

  /** One round of `(?:\n +|^ +\n)`: the first alternative is a newline and the spaces
      after it; the second, tried only at the start of a line, is spaces and the newline
      that ends them. 0 when neither matches. */
  function MixedStep(s: string, lineStart: bool): (n: nat)
    ensures n <= |s|
    ensures 0 < n < |s| && s[n - 1] != NL ==> s[n] != SP
  {
    if |s| >= 2 && s[0] == NL && s[1] == SP then
      assert s[1..][0] == SP;
      1 + Lead(s[1..])
    else if lineStart && 0 < Lead(s) < |s| && s[Lead(s)] == NL then Lead(s) + 1
    else 0
  }

  /** `\A(?:\n +|^ +\n)+`: the length of the match at the start of `s`, 0 when there is
      none. `lineStart` says whether `^` holds at the start of `s`; after the first
      alternative it does not, since that ends on a space. */
  function MixedLen(s: string, lineStart: bool): (n: nat)
    ensures n <= |s|
    ensures 0 < n < |s| && s[n - 1] != NL ==> s[n] != SP
    decreases |s|
  {
    var k := MixedStep(s, lineStart);
    if k == 0 then 0
    else
      var m := MixedLen(s[k..], s[k - 1] == NL);
      assert m > 0 ==> s[k + m - 1] == s[k..][m - 1];
      assert k + m < |s| ==> s[k + m] == s[k..][m];
      k + m
  }

  /** `t[..j]` is one round of `(?:\n +|^ +\n)`: a newline and one or more spaces, or,
      where a line starts, one or more spaces and a newline. */
  predicate MixedRound(t: string, lineStart: bool, j: nat)
    requires j <= |t|
  {
    || (j >= 2 && t[0] == NL && forall i :: 1 <= i < j ==> t[i] == SP)
    || (lineStart && j >= 2 && t[j - 1] == NL && forall i :: 0 <= i < j - 1 ==> t[i] == SP)
  }

  /** `t` is matched whole by `(?:\n +|^ +\n)+`, where `lineStart` says whether `^`
      holds at its start: a round, then nothing or more rounds. */
  predicate IsMixedRun(t: string, lineStart: bool)
    decreases |t|
  {
    exists j :: 0 < j <= |t| && MixedRound(t, lineStart, j) &&
      (j == |t| || IsMixedRun(t[j..], t[j - 1] == NL))
  }

  /** The round `MixedStep` takes is a round. */
  lemma {:induction false} MixedStepIsRound(s: string, lineStart: bool)
    requires MixedStep(s, lineStart) > 0
    ensures MixedRound(s, lineStart, MixedStep(s, lineStart))
  {
    var k := MixedStep(s, lineStart);
    if |s| >= 2 && s[0] == NL && s[1] == SP {
      assert forall i :: 1 <= i < k ==> s[i] == s[1..][i - 1];
    }
  }

  /** ... and the longest one: a shorter round of newline and spaces stops before a space,
      after a space, where no round can go on. */
  lemma {:induction false} MixedStepLongest(s: string, lineStart: bool)
    ensures var k := MixedStep(s, lineStart);
      forall j :: 0 < j <= |s| && MixedRound(s, lineStart, j) ==>
        0 < j <= k && (j < k ==> s[j] == SP && s[j - 1] == SP)
  {
    var k := MixedStep(s, lineStart);
    if |s| >= 2 && s[0] == NL && s[1] == SP {
      assert forall i :: 1 <= i < k ==> s[i] == s[1..][i - 1];
      assert k < |s| ==> s[k] == s[1..][k - 1];
    }
  }

  /** A round, then nothing or more rounds, is a run: the definition read as a way to
      build one. */
  lemma {:induction false} MixedRunIntro(t: string, lineStart: bool, k: nat)
    requires 0 < k <= |t| && MixedRound(t, lineStart, k)
    requires k == |t| || IsMixedRun(t[k..], t[k - 1] == NL)
    ensures IsMixedRun(t, lineStart)
  {
  }

  /** Whether `s[..j]` is a round depends only on its first j characters. */
  lemma {:induction false} RoundOfPrefix(s: string, lineStart: bool, m: nat, j: nat)
    requires j <= m <= |s|
    ensures MixedRound(s[..m], lineStart, j) <==> MixedRound(s, lineStart, j)
  {
    assert forall i :: 0 <= i < j ==> s[..m][i] == s[i];
  }

  /** The mixed match is a newline and spaces, or spaces and a newline, then the mixed
      match of what follows. */
  lemma {:induction false} MixedLenStep(s: string, lineStart: bool, k: nat)
    requires k == MixedStep(s, lineStart) > 0
    ensures MixedLen(s, lineStart) == k + MixedLen(s[k..], s[k - 1] == NL)
  {
  }

  /** What the mixed pattern's match, of n characters, takes is matched whole by it. */
  lemma {:induction false} MixedLenIsRun(s: string, lineStart: bool, n: nat)
    requires n == MixedLen(s, lineStart) > 0
    ensures IsMixedRun(s[..n], lineStart)
    decreases |s|
  {
    var k := MixedStep(s, lineStart);
    var flag := s[k - 1] == NL;
    var m := MixedLen(s[k..], flag);
    MixedLenStep(s, lineStart, k);
    MixedStepIsRound(s, lineStart);
    if m > 0 {
      MixedLenIsRun(s[k..], flag, m);
    }
    MixedRunPrefix(s, lineStart, k, m, n);
  }

  /** A round of k characters, then m characters that are nothing or a run, make a run of
      n = k + m characters. */
  lemma {:induction false} MixedRunPrefix(s: string, lineStart: bool, k: nat, m: nat, n: nat)
    requires 0 < k && n == k + m <= |s| && MixedRound(s, lineStart, k)
    requires m > 0 ==> IsMixedRun(s[k..][..m], s[k - 1] == NL)
    ensures IsMixedRun(s[..n], lineStart)
  {
    var t := s[..n];
    RoundOfPrefix(s, lineStart, n, k);
    if m > 0 {
      CutThenDrop(s, k, n);
    }
    assert t[k - 1] == s[k - 1];
    MixedRunIntro(t, lineStart, k);
  }

  /** The first n characters of `s` from position k on are the n - k characters of `s`
      that follow position k. */
  lemma {:induction false} CutThenDrop(s: string, k: nat, n: nat)
    requires k <= n <= |s|
    ensures s[..n][k..] == s[k..][..n - k]
  {
  }

  /** A run that starts where no line starts begins with a newline. */
  lemma {:induction false} MixedRunStart(t: string, lineStart: bool)
    requires IsMixedRun(t, lineStart)
    ensures |t| > 0 && (lineStart || t[0] == NL)
  {
    var j :| 0 < j <= |t| && MixedRound(t, lineStart, j) &&
      (j == |t| || IsMixedRun(t[j..], t[j - 1] == NL));
  }

  /** No prefix of `s` that the mixed pattern matches whole is longer than its match: the
      greedy rounds are the only way to go on, so the match is the longest one. */
  lemma {:induction false} MixedLenLongestAt(s: string, lineStart: bool, m: nat)
    requires 0 < m <= |s| && IsMixedRun(s[..m], lineStart)
    ensures m <= MixedLen(s, lineStart)
    decreases |s|
  {
    var k := MixedStep(s, lineStart);
    MixedRunFirstRound(s, lineStart, m, k);
    MixedLenStep(s, lineStart, k);
    if k < m {
      MixedLenLongestAt(s[k..], s[k - 1] == NL, m - k);
    }
  }

  /** A prefix that the mixed pattern matches whole starts with the round `MixedStep`
      takes, of k characters, and is either over by then or matched whole again after it. */
  lemma {:induction false} MixedRunFirstRound(s: string, lineStart: bool, m: nat, k: nat)
    requires 0 < m <= |s| && IsMixedRun(s[..m], lineStart)
    requires k == MixedStep(s, lineStart)
    ensures 0 < k && (m <= k || IsMixedRun(s[k..][..m - k], s[k - 1] == NL))
  {
    var t := s[..m];
    var j :| 0 < j <= |t| && MixedRound(t, lineStart, j) &&
      (j == |t| || IsMixedRun(t[j..], t[j - 1] == NL));
    RoundOfPrefix(s, lineStart, m, j);
    MixedStepLongest(s, lineStart);
    if j < m {
      MixedRunStart(t[j..], t[j - 1] == NL);
      assert t[j..][0] == s[j] && t[j - 1] == s[j - 1];
      assert j == k;
      assert t[k..] == s[k..][..m - k];
    }
  }

  /** The mixed pattern's match is the longest prefix of `s` it matches whole, and there is
      none when it does not match. */
  lemma {:induction false} MixedLenLongest(s: string, lineStart: bool)
    ensures MixedLen(s, lineStart) > 0 ==> IsMixedRun(s[..MixedLen(s, lineStart)], lineStart)
    ensures forall m :: MixedLen(s, lineStart) < m <= |s| ==> !IsMixedRun(s[..m], lineStart)
  {
    if MixedLen(s, lineStart) > 0 {
      MixedLenIsRun(s, lineStart, MixedLen(s, lineStart));
    }
    forall m | 0 < m <= |s| && IsMixedRun(s[..m], lineStart) ensures m <= MixedLen(s, lineStart) {
      MixedLenLongestAt(s, lineStart, m);
    }
  }

  /** Whether `^` holds at position n of `s`, given whether it holds at position 0. */
  function LineStartAt(s: string, n: nat, lineStart: bool): bool
    requires n <= |s|
  {
    if n > 0 then s[n - 1] == NL else lineStart
  }

  /** The mixed pattern stops where one more round would not match: the match cannot be
      made longer. */
  lemma {:induction false} MixedLenStops(s: string, lineStart: bool)
    ensures MixedStep(s[MixedLen(s, lineStart)..], LineStartAt(s, MixedLen(s, lineStart), lineStart)) == 0
    decreases |s|
  {
    var n := MixedLen(s, lineStart);
    var k := MixedStep(s, lineStart);
    if k == 0 {
      assert n == 0;
      assert s[n..] == s;
      assert LineStartAt(s, n, lineStart) == lineStart;
    } else {
      var rest, flag := s[k..], s[k - 1] == NL;
      var m := MixedLen(rest, flag);
      assert n == k + m;
      MixedLenStops(rest, flag);
      ResumeAt(s, k, m, n, lineStart);
    }
  }

  /** Resuming the match after a first round of k characters: m characters into the rest
      is n = k + m characters into `s`, and whether a line starts there is the same. */
  lemma {:induction false} ResumeAt(s: string, k: nat, m: nat, n: nat, lineStart: bool)
    requires 0 < k && n == k + m <= |s|
    ensures s[k..][m..] == s[n..]
    ensures LineStartAt(s, n, lineStart) == LineStartAt(s[k..], m, s[k - 1] == NL)
  {
    if m > 0 {
      assert s[k..][m - 1] == s[n - 1];
    }
  }

  /** One round of the mixed pattern matches only newlines and spaces, a newline among them. */
  lemma {:induction false} MixedStepIsBlank(s: string, lineStart: bool)
    requires MixedStep(s, lineStart) > 0
    ensures Whitespace(s[..MixedStep(s, lineStart)]) && NL in s[..MixedStep(s, lineStart)]
  {
    var n := MixedStep(s, lineStart);
    if |s| >= 2 && s[0] == NL && s[1] == SP {
      assert forall i :: 1 <= i < n ==> s[i] == s[1..][i - 1];
      assert s[..n][0] == NL;
    } else {
      assert s[..n][n - 1] == NL;
    }
  }

  /** What the mixed pattern matches is newlines and spaces, a newline among them. */
  lemma {:induction false} MixedIsBlank(s: string, lineStart: bool)
    requires MixedLen(s, lineStart) > 0
    ensures Whitespace(s[..MixedLen(s, lineStart)]) && NL in s[..MixedLen(s, lineStart)]
  {
    var n := MixedLen(s, lineStart);
    var k := MixedStep(s, lineStart);
    MixedIsWhitespace(s, lineStart);
    assert s[..n][..k] == s[..k];
    MixedStepIsBlank(s, lineStart);
  }

  /** What the mixed pattern matches is newlines and spaces. */
  lemma {:induction false} MixedIsWhitespace(s: string, lineStart: bool)
    ensures Whitespace(s[..MixedLen(s, lineStart)])
    decreases |s|
  {
    var n := MixedLen(s, lineStart);
    var k := MixedStep(s, lineStart);
    if k > 0 {
      var rest, flag := s[k..], s[k - 1] == NL;
      var m := MixedLen(rest, flag);
      assert n == k + m;
      MixedStepIsBlank(s, lineStart);
      MixedIsWhitespace(rest, flag);
      WhitespaceJoin(s, k, m, n);
    }
  }

  /** Whitespace up to k and whitespace for m more characters is whitespace up to
      n = k + m. */
  lemma {:induction false} WhitespaceJoin(s: string, k: nat, m: nat, n: nat)
    requires n == k + m <= |s|
    requires Whitespace(s[..k]) && Whitespace(s[k..][..m])
    ensures Whitespace(s[..n])
  {
    assert s[..n] == s[..k] + s[k..][..m];
    WhitespaceAppend(s[..k], s[k..][..m]);
  }

  /** The three shapes of the patterns the `slice!` loops use. */
  datatype Pattern =
    | HeadRun(bound: Option<nat>)   // `\A(?:\n {0,N})+`
    | TailRun(bound: Option<nat>)   // `(?:\n {0,N})+\Z`
    | HeadMixed                     // `\A(?:\n +|^ +\n)+`

  /** Whether `common_indent` has an entry in the precompiled tables (1..10). */
  predicate InTables(commonIndent: Option<nat>) {
    commonIndent.Some? && 1 <= commonIndent.value <= Indent.Precompiled
  }

  /** The first loop's pattern, `LEADING_REGEXPS[common_indent]` or the fallback built
      from `common_indent.to_s`. The tables hold the end-anchored pattern under the name
      LEADING, so for 1..10 this loop cuts at the end. */
  function LeadingPattern(commonIndent: Option<nat>): Pattern {
    if InTables(commonIndent) then TailRun(None) else HeadRun(commonIndent)
  }

  /** The second loop's pattern, `TRAILING_REGEXPS[common_indent]` or its fallback. For
      1..10 the table holds the start-anchored mixed pattern. */
  function TrailingPattern(commonIndent: Option<nat>): Pattern {
    if InTables(commonIndent) then HeadMixed else TailRun(commonIndent)
  }

  /** The leftmost match of `pat` in `s`, if any; never empty. */
  function Find(pat: Pattern, s: string): (m: Option<Span>)
    ensures m.Some? ==> m.value.start < m.value.end <= |s|
  {
    match pat
    case HeadRun(bound) =>
      var n := HeadRunLen(s, bound);
      if n > 0 then Some(Span(0, n)) else None
    case TailRun(bound) =>
      var p := TailStart(s, bound, 0);
      if p.Some? then Some(Span(p.value, |s|)) else None
    case HeadMixed =>
      var n := MixedLen(s, true);
      if n > 0 then Some(Span(0, n)) else None
  }

  /** Every match is a run of whitespace holding at least one newline: `slice!` only ever
      removes blank lines. */
  lemma {:induction false} FindIsBlank(pat: Pattern, s: string)
    requires Find(pat, s).Some?
    ensures var m := Find(pat, s).value;
      Whitespace(s[m.start..m.end]) && NL in s[m.start..m.end]
  {
    var m := Find(pat, s).value;
    match pat
    case HeadRun(bound) =>
      HeadRunIsBlank(s, bound);
      BlankRunIsWhitespace(s[..m.end], bound);
      assert s[m.start..m.end] == s[..m.end];
    case TailRun(bound) =>
      BlankRunIsWhitespace(s[m.start..], bound);
      assert s[m.start..m.end] == s[m.start..];
    case HeadMixed =>
      MixedIsBlank(s, true);
      assert s[m.start..m.end] == s[..m.end];
  }

  /** `s.slice!(pat)`: `s` without the leftmost match of `pat`. The string changes exactly
      when the pattern matches (`slice!` returns nil otherwise), and then it gets shorter. */
  function SliceOnce(s: string, pat: Pattern): (r: string)
    ensures r == s <==> Find(pat, s).None?
    ensures r != s ==> |r| < |s|
  {
    match Find(pat, s)
    case None => s
    case Some(m) => s[..m.start] + s[m.end..]
  }

  /** After one `slice!` the pattern no longer matches, so each `while slice!` loop
      removes at most one match. */
  lemma {:induction false} NoMatchAfterSlice(pat: Pattern, s: string)
    ensures Find(pat, SliceOnce(s, pat)).None?
  {
    if Find(pat, s).Some? {
      var m := Find(pat, s).value;
      match pat
      case HeadRun(bound) =>
        assert SliceOnce(s, pat) == s[m.end..];
        HeadRunSliced(s, bound, m.end);
      case TailRun(bound) =>
        assert SliceOnce(s, pat) == s[..m.start];
        TailRunSliced(s, bound, m.start);
      case HeadMixed =>
        assert SliceOnce(s, pat) == s[m.end..];
        MixedSliced(s, m.end);
    }
  }

  /** After the leading run of blank lines, no newline starts another. */
  lemma {:induction false} HeadRunSliced(s: string, bound: Option<nat>, n: nat)
    requires n == HeadRunLen(s, bound)
    ensures HeadRunLen(s[n..], bound) == 0
  {
    if n < |s| {
      assert s[n..][0] == s[n];
    }
  }

  /** Before the leftmost run of blank lines that reaches the end, no run reaches the end:
      one would join the run after it. */
  lemma {:induction false} TailRunSliced(s: string, bound: Option<nat>, p: nat)
    requires TailStart(s, bound, 0) == Some(p)
    ensures TailStart(s[..p], bound, 0).None?
  {
    var r := s[..p];
    var t := TailStart(r, bound, 0);
    if t.Some? {
      var q := t.value;
      var a, b := r[q..], s[p..];
      BlankRunAppend(a, b, bound);
      RejoinAt(s, q, p);
    }
  }

  /** Cutting `s` at p, then taking the first part from q on and the second part, gives
      `s` from q on. */
  lemma {:induction false} RejoinAt(s: string, q: nat, p: nat)
    requires q <= p <= |s|
    ensures s[..p][q..] + s[p..] == s[q..]
  {
  }

  /** After the mixed pattern's match, it does not match again at the start of what is left. */
  lemma {:induction false} MixedSliced(s: string, n: nat)
    requires n == MixedLen(s, true)
    ensures MixedLen(s[n..], true) == 0
  {
    MixedLenStops(s, true);
    if 0 < n < |s| && s[n - 1] != NL {
      assert s[n..][0] == s[n];
    }
  }

  /** A string the end-anchored pattern no longer matches does not end with a newline. */
  lemma {:induction false} NoTailRunNoFinalNewline(s: string, bound: Option<nat>)
    requires Find(TailRun(bound), s).None?
    ensures s == [] || s[|s| - 1] != NL
  {
    if s != [] && s[|s| - 1] == NL {
      assert Lead(s[|s| - 1..][1..]) == 0;
      assert IsBlankRun(s[|s| - 1..], bound);
    }
  }
}
