/** Lines of a character stream, with `\r` and `\n` as separators: the one-shot reading that the
    incremental pump is measured against. */
module StreamLines {

  predicate IsSeparator(c: char) {
    c == '\r' || c == '\n'
  }

  predicate SeparatorFree(s: string) {
    forall i :: 0 <= i < |s| ==> !IsSeparator(s[i])
  }

  /** Where the run at the end of the stream starts. */
  function Open(s: string): (o: nat)
    ensures o <= |s|
    ensures SeparatorFree(s[o..])
    ensures o == 0 || IsSeparator(s[o - 1])
  {
    if s == "" then 0
    else
      var n := |s| - 1;
      if IsSeparator(s[n]) then |s|
      else
        assert s[..n][Open(s[..n])..] + [s[n]] == s[Open(s[..n])..];
        Open(s[..n])
  }

  function Trailing(s: string): string {
    s[Open(s)..]
  }

  /** The non-empty runs that a separator has closed. */
  function Lines(s: string): seq<string> {
    if s == "" then []
    else
      var n := |s| - 1;
      if IsSeparator(s[n]) && Trailing(s[..n]) != "" then Lines(s[..n]) + [Trailing(s[..n])]
      else Lines(s[..n])
  }

  /** All the lines of a finished stream: the closed ones, and the last if it is not empty. */
  function Tokens(s: string): seq<string> {
    Lines(s) + if Trailing(s) != "" then [Trailing(s)] else []
  }

  // ------------------------------------- tokens are exactly the maximal runs

  datatype Span = Span(from: nat, to: nat)

  /** A non-empty stretch without separators that cannot be made longer on either side. */
  predicate MaximalRun(s: string, r: Span) {
    && r.from < r.to <= |s|
    && SeparatorFree(s[r.from..r.to])
    && (r.from == 0 || IsSeparator(s[r.from - 1]))
    && (r.to == |s| || IsSeparator(s[r.to]))
  }

  ghost predicate Ascending(spans: seq<Span>) {
    forall i, j :: 0 <= i < j < |spans| ==> spans[i].to <= spans[j].from
  }

  predicate Within(s: string, spans: seq<Span>) {
    forall i :: 0 <= i < |spans| ==> spans[i].from < spans[i].to <= |s|
  }

  function Cut(s: string, spans: seq<Span>): seq<string>
    requires Within(s, spans)
  {
    seq(|spans|, i requires 0 <= i < |spans| => s[spans[i].from..spans[i].to])
  }

  function ClosedSpans(s: string): (spans: seq<Span>)
    ensures Within(s, spans)
  {
    if s == "" then []
    else
      var n := |s| - 1;
      if IsSeparator(s[n]) && Open(s[..n]) < n then ClosedSpans(s[..n]) + [Span(Open(s[..n]), n)]
      else ClosedSpans(s[..n])
  }

  function Spans(s: string): (spans: seq<Span>)
    ensures Within(s, spans)
  {
    ClosedSpans(s) + if Open(s) < |s| then [Span(Open(s), |s|)] else []
  }

  /** The closed spans are the maximal runs that end before the stream does. */
  lemma {:induction false} ClosedSpansExact(s: string)
    ensures forall r :: r in ClosedSpans(s) <==> MaximalRun(s, r) && r.to < |s|
  {
    if s != "" {
      var n := |s| - 1;
      var init := s[..n];
      ClosedSpansExact(init);
      forall r
        ensures r in ClosedSpans(s) <==> MaximalRun(s, r) && r.to < |s|
      {
        RunsAfterOneMore(s, r);
      }
    }
  }

  lemma {:induction false} ClosedSpansAscend(s: string)
    ensures forall r :: r in ClosedSpans(s) ==> r.to <= Open(s)
    ensures Ascending(ClosedSpans(s))
  {
    if s != "" {
      ClosedSpansAscend(s[..|s| - 1]);
    }
  }

  lemma {:induction false} LinesAreCut(s: string)
    ensures Cut(s, ClosedSpans(s)) == Lines(s)
  {
    if s != "" {
      var init := s[..|s| - 1];
      LinesAreCut(init);
      CutOfPrefix(s, ClosedSpans(init));
    }
  }

  lemma CutOfPrefix(s: string, spans: seq<Span>)
    requires s != "" && Within(s[..|s| - 1], spans)
    ensures Within(s, spans) && Cut(s, spans) == Cut(s[..|s| - 1], spans)
  {
    forall i | 0 <= i < |spans|
      ensures s[spans[i].from..spans[i].to] == s[..|s| - 1][spans[i].from..spans[i].to]
    {
    }
  }

  lemma RunsAfterOneMore(s: string, r: Span)
    requires s != ""
    ensures var n := |s| - 1; var init := s[..n];
            MaximalRun(s, r) && r.to < |s| <==>
            (MaximalRun(init, r) && r.to < n) || (IsSeparator(s[n]) && Open(init) < n && r == Span(Open(init), n))
  {
    var n := |s| - 1;
    var init := s[..n];
    if r.from < r.to <= n {
      assert s[r.from..r.to] == init[r.from..r.to];
      if r.to == n && MaximalRun(init, r) {
        TrailingIsUnique(init, r.from);
      }
      if Open(init) < n {
        assert init[Open(init)..n] == init[Open(init)..];
      }
    }
  }

  /** Only one start makes the end of the stream a maximal run. */
  lemma TrailingIsUnique(s: string, from: nat)
    requires from < |s| && SeparatorFree(s[from..]) && (from == 0 || IsSeparator(s[from - 1]))
    ensures from == Open(s)
  {
    NoStartInside(s, Open(s), from);
    NoStartInside(s, from, Open(s));
  }

  lemma NoStartInside(s: string, from: nat, start: nat)
    requires from <= |s| && start <= |s| && SeparatorFree(s[from..]) && (start == 0 || IsSeparator(s[start - 1]))
    ensures start <= from
  {
    if start > 0 {
      FreeAt(s, from, start - 1);
    }
  }

  lemma FreeAt(s: string, from: nat, i: nat)
    requires from <= |s|
    ensures SeparatorFree(s[from..]) && from <= i < |s| ==> !IsSeparator(s[i])
  {
    if from <= i < |s| {
      assert s[from..][i - from] == s[i];
    }
  }

  /** The tokens of a stream are its maximal runs: each of them, nothing else, and in order. */
  lemma TokensAreTheMaximalRuns(s: string)
    ensures Tokens(s) == Cut(s, Spans(s))
    ensures forall r :: r in Spans(s) <==> MaximalRun(s, r)
    ensures Ascending(Spans(s))
  {
    ClosedSpansExact(s);
    ClosedSpansAscend(s);
    LinesAreCut(s);
    var o := Open(s);
    assert s[o..|s|] == s[o..];
    if o < |s| {
      assert Cut(s, Spans(s)) == Cut(s, ClosedSpans(s)) + [s[o..]];
    }
    forall r
      ensures r in Spans(s) <==> MaximalRun(s, r)
    {
      if MaximalRun(s, r) && r.to == |s| {
        assert s[r.from..r.to] == s[r.from..];
        TrailingIsUnique(s, r.from);
      }
    }
  }

  // ------------------------------------------------------ reading on from a prefix

  /** What a prefix leaves behind for the rest of the stream is its trailing run, no more. */
  lemma {:induction false} ReadOn(s: string, more: string)
    ensures Lines(s + more) == Lines(s) + Lines(Trailing(s) + more)
    ensures Trailing(s + more) == Trailing(Trailing(s) + more)
  {
    var t := Trailing(s);
    if more == "" {
      assert s + more == s && t + more == t;
      OneRun(t);
    } else {
      var n := |more| - 1;
      ReadOn(s, more[..n]);
      var a, b := s + more[..n], t + more[..n];
      assert s + more == a + [more[n]] && t + more == b + [more[n]];
      OneMore(a, more[n]);
      OneMore(b, more[n]);
      assert Lines(s) + (Lines(b) + Closing(b, more[n])) == Lines(s) + Lines(b) + Closing(b, more[n]);
    }
  }

  /** The line that one more character closes, if any. */
  function Closing(s: string, c: char): seq<string> {
    if IsSeparator(c) && Trailing(s) != "" then [Trailing(s)] else []
  }

  lemma OneMore(s: string, c: char)
    ensures Lines(s + [c]) == Lines(s) + Closing(s, c)
    ensures Trailing(s + [c]) == if IsSeparator(c) then "" else Trailing(s) + [c]
  {
    assert (s + [c])[..|s|] == s;
    assert Lines(s) + [] == Lines(s);
  }

  lemma {:induction false} OneRun(s: string)
    requires SeparatorFree(s)
    ensures Open(s) == 0 && Trailing(s) == s && Lines(s) == []
  {
    if s != "" {
      OneRun(s[..|s| - 1]);
    }
  }

  // ---------------------------------------------------------------- conservation

  function Weight(lines: seq<string>): nat {
    if lines == [] then 0 else Weight(lines[..|lines| - 1]) + |lines[|lines| - 1]|
  }

  /** How many characters of the stream are not separators. */
  function Content(s: string): nat {
    if s == "" then 0 else Content(s[..|s| - 1]) + if IsSeparator(s[|s| - 1]) then 0 else 1
  }

  lemma {:induction false} WeightOfConcat(a: seq<string>, b: seq<string>)
    ensures Weight(a + b) == Weight(a) + Weight(b)
  {
    if b == [] {
      assert a + b == a;
    } else {
      var n := |b| - 1;
      assert (a + b)[..|a + b| - 1] == a + b[..n];
      WeightOfConcat(a, b[..n]);
    }
  }

  lemma {:induction false} ContentOfConcat(a: string, b: string)
    ensures Content(a + b) == Content(a) + Content(b)
  {
    if b == "" {
      assert a + b == a;
    } else {
      var n := |b| - 1;
      assert (a + b)[..|a + b| - 1] == a + b[..n];
      ContentOfConcat(a, b[..n]);
    }
  }

  /** Nothing but separators is lost between a stream and its lines. */
  lemma {:induction false} LinesKeepContent(s: string)
    ensures Weight(Lines(s)) + |Trailing(s)| == Content(s)
    ensures Weight(Tokens(s)) == Content(s)
  {
    if s != "" {
      var n := |s| - 1;
      var init := s[..n];
      LinesKeepContent(init);
      assert s == init + [s[n]];
      OneMore(init, s[n]);
      WeightOfConcat(Lines(init), Closing(init, s[n]));
      WeightOfOne(Trailing(init));
    }
    WeightOfOne(Trailing(s));
    WeightOfConcat(Lines(s), [Trailing(s)]);
    assert Lines(s) + [] == Lines(s);
  }

  lemma WeightOfOne(line: string)
    ensures Weight([line]) == |line|
  {
    assert [line][..0] == [];
  }

  // ------------------------------------------------------------------ stream order

  /** The lines are disjoint contiguous slices of the stream, in stream order. */
  ghost predicate InOrder(lines: seq<string>, s: string)
    decreases |lines|
  {
    lines == [] || exists o: nat :: SliceAt(s, lines[0], o) && InOrder(lines[1..], s[o + |lines[0]|..])
  }

  predicate SliceAt(s: string, line: string, o: nat) {
    o + |line| <= |s| && s[o..o + |line|] == line
  }

  lemma {:induction false} InOrderConcat(a: seq<string>, s: string, b: seq<string>, t: string)
    requires InOrder(a, s) && InOrder(b, t)
    ensures InOrder(a + b, s + t)
    decreases |a|
  {
    if a == [] {
      assert a + b == b;
      InOrderLater(b, s, t);
    } else {
      var o: nat :| SliceAt(s, a[0], o) && InOrder(a[1..], s[o + |a[0]|..]);
      var cut := o + |a[0]|;
      InOrderConcat(a[1..], s[cut..], b, t);
      assert (s + t)[cut..] == s[cut..] + t;
      assert (a + b)[1..] == a[1..] + b;
      assert SliceAt(s + t, (a + b)[0], o) by {
        assert (s + t)[o..cut] == s[o..cut];
      }
    }
  }

  lemma InOrderLater(lines: seq<string>, s: string, t: string)
    requires InOrder(lines, t)
    ensures InOrder(lines, s + t)
  {
    if lines != [] {
      var o: nat :| SliceAt(t, lines[0], o) && InOrder(lines[1..], t[o + |lines[0]|..]);
      assert (s + t)[|s| + o..|s| + o + |lines[0]|] == t[o..o + |lines[0]|];
      assert (s + t)[|s| + o + |lines[0]|..] == t[o + |lines[0]|..];
      assert SliceAt(s + t, lines[0], |s| + o);
    }
  }

  lemma OneLineInOrder(line: string, rest: string)
    ensures InOrder([line], line + rest)
  {
    assert SliceAt(line + rest, [line][0], 0);
    assert [line][1..] == [];
  }

  lemma {:induction false} LinesInOrder(s: string)
    ensures InOrder(Lines(s), s[..Open(s)])
  {
    if s != "" {
      var n := |s| - 1;
      var init := s[..n];
      LinesInOrder(init);
      if IsSeparator(s[n]) {
        var t := Trailing(init);
        assert s[..Open(s)] == init[..Open(init)] + (t + [s[n]]);
        if t != "" {
          OneLineInOrder(t, [s[n]]);
          InOrderConcat(Lines(init), init[..Open(init)], [t], t + [s[n]]);
        } else {
          InOrderConcat(Lines(init), init[..Open(init)], [], t + [s[n]]);
          assert Lines(init) + [] == Lines(init);
        }
      } else {
        assert s[..Open(s)] == init[..Open(init)];
      }
    }
  }
}
