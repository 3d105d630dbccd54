/** Strings as the block-string routines see them: sequences of codepoints, cut into
    lines at newline characters. */
module Text {
  datatype Option<+T> = None | Some(value: T)

  /** A half-open range [start, end) of positions in a string. */
  datatype Span = Span(start: nat, end: nat)

  const NL: char := '\n'
  const SP: char := ' '

  /** No string of `xs` holds a newline. */
  predicate NoNewlines(xs: seq<string>) {
    forall k :: 0 <= k < |xs| ==> NL !in xs[k]
  }

  /** The fields of `s` between newline characters, in order and with every field kept:
      a string with n newlines has n + 1 lines, the last one being the text after the
      final newline (empty when `s` ends with a newline). */
  function Lines(s: string): (ls: seq<string>)
    ensures |ls| >= 1
    ensures forall i :: 0 <= i < |ls| ==> NL !in ls[i]
    decreases |s|
  {
    if s == [] then [""]
    else
      var init := Lines(s[..|s| - 1]);
      var c := s[|s| - 1];
      if c == NL then init + [""]
      else init[..|init| - 1] + [init[|init| - 1] + [c]]
  }

  /** `xs` with `sep` between neighbours (Ruby's `Array#join(sep)`). */
  function Join(xs: seq<string>, sep: char): string
    decreases |xs|
  {
    if |xs| == 0 then ""
    else if |xs| == 1 then xs[0]
    else Join(xs[..|xs| - 1], sep) + [sep] + xs[|xs| - 1]
  }

  /** `xs` glued together with nothing between (Ruby's `Array#join`). */
  function Concat(xs: seq<string>): string
    decreases |xs|
  {
    if xs == [] then "" else xs[0] + Concat(xs[1..])
  }

  /** The number of spaces (U+0020) that `t` begins with. */
  function Lead(t: string): (k: nat)
    ensures k <= |t|
    ensures forall i :: 0 <= i < k ==> t[i] == SP
    ensures k < |t| ==> t[k] != SP
    decreases |t|
  {
    if t != [] && t[0] == SP then 1 + Lead(t[1..]) else 0
  }

  /** The indentation of a line after one more character: it grows only while the line
      is all spaces and the character is a space. */
  lemma {:induction false} LeadAfter(t: string, c: char)
    ensures Lead(t + [c]) == if Lead(t) == |t| && c == SP then |t| + 1 else Lead(t)
  {
    var u := t + [c];
    var k := if Lead(t) == |t| && c == SP then |t| + 1 else Lead(t);
    assert forall i :: 0 <= i < |t| ==> u[i] == t[i];
    LeadIs(u, k);
  }

  /** The three facts in `Lead`'s contract pin its value down. */
  lemma {:induction false} LeadIs(t: string, k: nat)
    requires k <= |t| && (forall i :: 0 <= i < k ==> t[i] == SP) && (k < |t| ==> t[k] != SP)
    ensures Lead(t) == k
  {
  }

  /** `t` holds nothing but spaces. */
  predicate Blank(t: string) {
    forall i :: 0 <= i < |t| ==> t[i] == SP
  }

  /** `t` holds nothing but spaces and newlines. */
  predicate Whitespace(t: string) {
    forall i :: 0 <= i < |t| ==> t[i] == SP || t[i] == NL
  }

  /** Whitespace followed by whitespace is whitespace. */
  lemma {:induction false} WhitespaceAppend(a: string, b: string)
    requires Whitespace(a) && Whitespace(b)
    ensures Whitespace(a + b)
  {
    assert forall i :: 0 <= i < |a| + |b| ==>
      (a + b)[i] == if i < |a| then a[i] else b[i - |a|];
  }

  /** `n` spaces. */
  function Spaces(n: nat): (r: string)
    ensures |r| == n && Blank(r)
  {
    seq(n, _ => SP)
  }

  /** `xs` without its trailing empty strings, as Ruby's `split` leaves its result. */
  function DropTrailingEmpty(xs: seq<string>): (r: seq<string>)
    ensures r <= xs
    ensures r == [] || r[|r| - 1] != ""
    ensures forall i :: |r| <= i < |xs| ==> xs[i] == ""
    decreases |xs|
  {
    if xs != [] && xs[|xs| - 1] == "" then DropTrailingEmpty(xs[..|xs| - 1]) else xs
  }

  /** Ruby's `s.split("\n")`: the lines of `s` with trailing empty lines dropped, so that
      the empty string and a string of newlines split into no lines at all. */
  function SplitLines(s: string): seq<string> {
    DropTrailingEmpty(Lines(s))
  }

  /** A string without a newline is a single line. */
  lemma {:induction false} LinesOfLine(t: string)
    requires NL !in t
    ensures Lines(t) == [t]
    decreases |t|
  {
    if t != [] {
      var init := t[..|t| - 1];
      assert NL !in init by {
        forall i | 0 <= i < |init| ensures init[i] != NL { assert init[i] == t[i]; }
      }
      LinesOfLine(init);
      assert init + [t[|t| - 1]] == t;
    }
  }

  /** The lines of `x` followed by one more character. */
  lemma {:induction false} LinesSnoc(x: string, c: char)
    ensures Lines(x + [c]) == Extend(Lines(x), c)
  {
    assert (x + [c])[..|x|] == x;
  }

  /** What one more character does to a list of lines: a newline opens a new line, any
      other character lengthens the last one. */
  function Extend(ls: seq<string>, c: char): seq<string>
    requires |ls| >= 1
  {
    if c == NL then ls + [""] else ls[..|ls| - 1] + [ls[|ls| - 1] + [c]]
  }

  /** Extending a list of lines only touches its last part. */
  lemma {:induction false} ExtendAppend(la: seq<string>, lb: seq<string>, c: char)
    requires |lb| >= 1
    ensures Extend(la + lb, c) == la + Extend(lb, c)
  {
    if c != NL {
      var ls := la + lb;
      assert ls[..|ls| - 1] == la + lb[..|lb| - 1];
    }
  }

  /** A newline between `a` and `b` separates the lines of `a` from those of `b`. */
  lemma {:induction false} LinesAppendNewline(a: string, b: string)
    ensures Lines(a + [NL] + b) == Lines(a) + Lines(b)
    decreases |b|
  {
    if b == [] {
      LinesSnoc(a, NL);
      assert a + [NL] + b == a + [NL];
    } else {
      var b', c := b[..|b| - 1], b[|b| - 1];
      var x := a + [NL] + b';
      assert a + [NL] + b == x + [c];
      assert b == b' + [c];
      LinesAppendNewline(a, b');
      LinesSnoc(x, c);
      LinesSnoc(b', c);
      ExtendAppend(Lines(a), Lines(b'), c);
    }
  }

  /** Joining the lines of `s` with newlines gives `s` back. */
  lemma {:induction false} JoinLines(s: string)
    ensures Join(Lines(s), NL) == s
    decreases |s|
  {
    if s != [] {
      var s' := s[..|s| - 1];
      var c := s[|s| - 1];
      var init := Lines(s');
      JoinLines(s');
      assert s' + [c] == s;
      if c == NL {
        assert (init + [""])[..|init|] == init;
      } else {
        var n := |init|;
        var ls := init[..n - 1] + [init[n - 1] + [c]];
        if n > 1 {
          assert ls[..n - 1] == init[..n - 1];
          assert init[..n - 1] == init[..|init| - 1];
        }
      }
    }
  }

  /** Cutting a newline-joined list of newline-free strings at its newlines gives the
      list back. */
  lemma {:induction false} LinesOfJoin(ls: seq<string>)
    requires |ls| >= 1
    requires forall i :: 0 <= i < |ls| ==> NL !in ls[i]
    ensures Lines(Join(ls, NL)) == ls
    decreases |ls|
  {
    if |ls| == 1 {
      LinesOfLine(ls[0]);
    } else {
      var init := ls[..|ls| - 1];
      LinesOfJoin(init);
      LinesAppendNewline(Join(init, NL), ls[|ls| - 1]);
      LinesOfLine(ls[|ls| - 1]);
    }
  }

  /** Joining from the front: the first element, a separator, then the rest joined. */
  lemma {:induction false} JoinCons(a: string, xs: seq<string>, sep: char)
    requires |xs| >= 1
    ensures Join([a] + xs, sep) == a + [sep] + Join(xs, sep)
    decreases |xs|
  {
    if |xs| > 1 {
      var ys := [a] + xs;
      assert ys[..|ys| - 1] == [a] + xs[..|xs| - 1];
      JoinCons(a, xs[..|xs| - 1], sep);
    }
  }

  /** A separator that does not occur in a join does not occur in its parts; nor does any
      other character missing from the join. */
  lemma {:induction false} JoinParts(xs: seq<string>, sep: char, c: char)
    requires c != sep && c !in Join(xs, sep)
    ensures forall i :: 0 <= i < |xs| ==> c !in xs[i]
    decreases |xs|
  {
    if |xs| > 1 {
      var init := xs[..|xs| - 1];
      var j := Join(init, sep);
      assert Join(xs, sep) == j + [sep] + xs[|xs| - 1];
      assert c !in j by {
        forall i | 0 <= i < |j| ensures j[i] != c { assert j[i] == Join(xs, sep)[i]; }
      }
      assert c !in xs[|xs| - 1] by {
        var last := xs[|xs| - 1];
        forall i | 0 <= i < |last| ensures last[i] != c {
          assert last[i] == Join(xs, sep)[|j| + 1 + i];
        }
      }
      JoinParts(init, sep, c);
      forall i | 0 <= i < |xs| ensures c !in xs[i] {
        if i < |xs| - 1 { assert xs[i] == init[i]; }
      }
    }
  }

  /** Gluing two lists is gluing their glued halves. */
  lemma {:induction false} ConcatAppend(xs: seq<string>, ys: seq<string>)
    ensures Concat(xs + ys) == Concat(xs) + Concat(ys)
    decreases |xs|
  {
    if xs == [] {
      assert xs + ys == ys;
    } else {
      assert (xs + ys)[1..] == xs[1..] + ys;
      ConcatAppend(xs[1..], ys);
    }
  }

  /** Ruby's `split("\n")` ignores newlines at the end of the string. */
  lemma {:induction false} SplitLinesIgnoresTrailingNewline(s: string)
    ensures SplitLines(s + [NL]) == SplitLines(s)
  {
    var t := s + [NL];
    assert t[..|t| - 1] == s;
    assert Lines(t) == Lines(s) + [""];
    assert (Lines(s) + [""])[..|Lines(s)|] == Lines(s);
  }

  /** A non-empty string that does not end with a newline splits into all of its lines. */
  lemma {:induction false} SplitLinesKeepsAll(s: string)
    requires s != [] && s[|s| - 1] != NL
    ensures SplitLines(s) == Lines(s)
  {
    var ls := Lines(s);
    var init := Lines(s[..|s| - 1]);
    var c := s[|s| - 1];
    assert ls == init[..|init| - 1] + [init[|init| - 1] + [c]];
    assert ls[|ls| - 1] != "";
  }
}
