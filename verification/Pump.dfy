/** The pump that feeds vLLM's output into the log buffer (`_pump_output` in
    `supervisor/backends/vllm.py`), chunk by chunk, measured against reading the stream at once. */
module Pumps {
  import opened LogBuffers
  import opened StreamLines

  const PUMP_CHUNK: nat := 8192
  const PUMP_MAX_LINE: nat := 16384

  // ------------------------------------------------- the string calls it makes

  /** `text.replace("\r\n", "\n")` */
  function ReplaceCrLf(s: string): string {
    if s == "" then ""
    else if |s| >= 2 && s[0] == '\r' && s[1] == '\n' then "\n" + ReplaceCrLf(s[2..])
    else [s[0]] + ReplaceCrLf(s[1..])
  }

  /** `text.replace("\r", "\n")` */
  function ReplaceCr(s: string): string {
    if s == "" then "" else [if s[0] == '\r' then '\n' else s[0]] + ReplaceCr(s[1..])
  }

  /** `text.split("\n")` */
  function Split(s: string): (parts: seq<string>)
    ensures parts != []
  {
    if s == "" then [""]
    else
      var rest := Split(s[1..]);
      if s[0] == '\n' then [""] + rest else [[s[0]] + rest[0]] + rest[1..]
  }

  function NonEmpty(parts: seq<string>): seq<string> {
    if parts == [] then []
    else NonEmpty(parts[..|parts| - 1]) + if parts[|parts| - 1] != "" then [parts[|parts| - 1]] else []
  }

  lemma {:induction false} ReplaceCrLfOneMore(s: string, c: char)
    ensures c == '\n' && s != "" && s[|s| - 1] == '\r' ==> ReplaceCrLf(s + [c]) == ReplaceCrLf(s[..|s| - 1]) + "\n"
    ensures !(c == '\n' && s != "" && s[|s| - 1] == '\r') ==> ReplaceCrLf(s + [c]) == ReplaceCrLf(s) + [c]
    decreases |s|
  {
    var t := s + [c];
    if s != "" {
      var skip := if |s| >= 2 && s[0] == '\r' && s[1] == '\n' then 2 else 1;
      assert t[skip..] == s[skip..] + [c];
      ReplaceCrLfOneMore(s[skip..], c);
      if |s| > skip {
        assert s[skip..][..|s[skip..]| - 1] == s[..|s| - 1][skip..];
      }
    }
  }

  lemma {:induction false} ReplaceCrOneMore(s: string, c: char)
    ensures ReplaceCr(s + [c]) == ReplaceCr(s) + [if c == '\r' then '\n' else c]
  {
    if s != "" {
      assert (s + [c])[1..] == s[1..] + [c];
      ReplaceCrOneMore(s[1..], c);
    }
  }

  lemma {:induction false} SplitOneMore(s: string, c: char)
    ensures var p, n := Split(s), |Split(s)| - 1;
            Split(s + [c]) == if c == '\n' then p + [""] else p[..n] + [p[n] + [c]]
  {
    var t := s + [c];
    if s == "" {
      var rest := Split(t[1..]);
      assert t[1..] == "" && rest == [""] && rest[1..] == [];
      assert t[0] == c && [c] + "" == [c] && "" + [c] == [c];
    } else {
      assert t[1..] == s[1..] + [c];
      SplitOneMore(s[1..], c);
      var rest := Split(s[1..]);
      var m := |rest| - 1;
      if s[0] != '\n' && m == 0 {
        assert [s[0]] + (rest[0] + [c]) == [s[0]] + rest[0] + [c];
      }
    }
  }

  lemma NonEmptyOneMore(parts: seq<string>, part: string)
    ensures NonEmpty(parts + [part]) == NonEmpty(parts) + if part != "" then [part] else []
  {
    assert (parts + [part])[..|parts|] == parts;
  }

  function Normalised(s: string): string {
    ReplaceCr(ReplaceCrLf(s))
  }

  lemma PairCollapses(before: string)
    ensures Normalised(before + ['\r'] + ['\n']) == Normalised(before + ['\r'])
  {
    var init := before + ['\r'];
    assert init[..|init| - 1] == before;
    ReplaceCrLfOneMore(init, '\n');
    ReplaceCrLfOneMore(before, '\r');
    ReplaceCrOneMore(ReplaceCrLf(before), '\r');
    ReplaceCrOneMore(ReplaceCrLf(before), '\n');
  }

  lemma OthersAppend(init: string, c: char)
    requires !(c == '\n' && init != "" && init[|init| - 1] == '\r')
    ensures Normalised(init + [c]) == Normalised(init) + [if c == '\r' then '\n' else c]
  {
    ReplaceCrLfOneMore(init, c);
    ReplaceCrOneMore(ReplaceCrLf(init), c);
  }

  /** What splitting `n` at `\n` makes of all but the last part, and the last part. */
  function Closed(n: string): seq<string> {
    NonEmpty(Split(n)[..|Split(n)| - 1])
  }

  function Unclosed(n: string): string {
    Split(n)[|Split(n)| - 1]
  }

  lemma SplitWithOneMore(s: string, c: char)
    ensures Closed(s + [c]) == if c == '\n' && Unclosed(s) != "" then Closed(s) + [Unclosed(s)] else Closed(s)
    ensures Unclosed(s + [c]) == if c == '\n' then "" else Unclosed(s) + [c]
  {
    SplitOneMore(s, c);
    var p, q := Split(s), Split(s + [c]);
    var n, m := |p| - 1, |q| - 1;
    if c == '\n' {
      assert q[..m] == p[..n] + [p[n]];
      NonEmptyOneMore(p[..n], p[n]);
    } else {
      assert q[..m] == p[..n];
    }
  }

  /** Replacing `\r\n`, then `\r`, then splitting at `\n`, comes to the closed lines and the
      trailing run - the pair collapsed or not, an empty part is dropped either way. */
  lemma {:induction false} SplitIsLines(s: string)
    ensures Closed(Normalised(s)) == Lines(s) && Unclosed(Normalised(s)) == Trailing(s)
  {
    if s != "" {
      var c := s[|s| - 1];
      var init := s[..|s| - 1];
      assert s == init + [c];
      SplitIsLines(init);
      if c == '\n' && init != "" && init[|init| - 1] == '\r' {
        var before := init[..|init| - 1];
        assert init == before + ['\r'];
        PairCollapses(before);
        PairClosesOnce(before);
      } else {
        OthersAppend(init, c);
        SplitWithOneMore(Normalised(init), if c == '\r' then '\n' else c);
        OneMore(init, c);
        assert Lines(init) + [] == Lines(init);
      }
    }
  }

  lemma PairClosesOnce(before: string)
    ensures Lines(before + ['\r'] + ['\n']) == Lines(before + ['\r'])
    ensures Trailing(before + ['\r'] + ['\n']) == "" == Trailing(before + ['\r'])
  {
    OneMore(before, '\r');
    OneMore(before + ['\r'], '\n');
  }

  // ---------------------------------------------------------- what the pump does

  /** One turn of the loop: the lines it appends and what it keeps. A run that has grown past the
      limit is cut to it; what was beyond the limit is dropped. */
  function Feed(pending: string, chunk: string): (seq<string>, string) {
    var text := pending + chunk;
    var rest := Trailing(text);
    if |rest| > PUMP_MAX_LINE then (Lines(text) + [rest[..PUMP_MAX_LINE]], "") else (Lines(text), rest)
  }

  /** Everything the pump appends. An empty read is the end of the stream. */
  function Pump(chunks: seq<string>, pending: string): seq<string>
    decreases |chunks|
  {
    if chunks == [] || chunks[0] == "" then
      if pending != "" then [pending] else []
    else
      var (lines, rest) := Feed(pending, chunks[0]);
      lines + Pump(chunks[1..], rest)
  }

  function Flatten(chunks: seq<string>): string {
    if chunks == [] then "" else chunks[0] + Flatten(chunks[1..])
  }

  ghost predicate AllNonEmpty(chunks: seq<string>) {
    forall i :: 0 <= i < |chunks| ==> chunks[i] != ""
  }

  method PumpOutput(chunks: seq<string>, logbuf: LogBuffer)
    requires logbuf.Valid()
    modifies logbuf
    ensures logbuf.Valid()
    ensures logbuf.Log == old(logbuf.Log) + Pump(chunks, "")
  {
    var pending := "";
    var next := 0;
    while next < |chunks|
      invariant 0 <= next <= |chunks| && logbuf.Valid()
      invariant |pending| <= PUMP_MAX_LINE && SeparatorFree(pending)
      invariant logbuf.Log + Pump(chunks[next..], pending) == old(logbuf.Log) + Pump(chunks, "")
    {
      var chunk := chunks[next];
      if chunk == "" {
        break;
      }
      ghost var kept, log := pending, logbuf.Log;
      pending := Turn(pending, chunk, logbuf);
      assert chunks[next..][0] == chunk && chunks[next..][1..] == chunks[next + 1..];
      Regroup(log, Feed(kept, chunk).0, Pump(chunks[next + 1..], pending));
      next := next + 1;
    }
    if pending != "" {
      logbuf.Append(pending);
    }
  }

  /** The body of the loop. */
  method Turn(kept: string, chunk: string, logbuf: LogBuffer) returns (pending: string)
    requires logbuf.Valid()
    modifies logbuf
    ensures logbuf.Valid()
    ensures logbuf.Log == old(logbuf.Log) + Feed(kept, chunk).0 && pending == Feed(kept, chunk).1
    ensures |pending| <= PUMP_MAX_LINE && SeparatorFree(pending)
  {
    pending := kept + chunk;
    SplitIsLines(pending);
    pending := ReplaceCrLf(pending);
    var parts := Split(ReplaceCr(pending));
    pending := parts[|parts| - 1];
    AppendNonEmpty(parts[..|parts| - 1], logbuf);
    // A stream that never emits a separator must not grow without bound.
    if |pending| > PUMP_MAX_LINE {
      logbuf.Append(pending[..PUMP_MAX_LINE]);
      pending := "";
    }
  }

  /** `for line in complete: if line: append(line)` */
  method AppendNonEmpty(parts: seq<string>, logbuf: LogBuffer)
    requires logbuf.Valid()
    modifies logbuf
    ensures logbuf.Valid() && logbuf.Log == old(logbuf.Log) + NonEmpty(parts)
  {
    for i := 0 to |parts|
      invariant logbuf.Valid() && logbuf.Log == old(logbuf.Log) + NonEmpty(parts[..i])
    {
      assert parts[..i + 1] == parts[..i] + [parts[i]];
      NonEmptyOneMore(parts[..i], parts[i]);
      if parts[i] != "" {
        logbuf.Append(parts[i]);
      }
    }
    assert parts[..|parts|] == parts;
  }

  // ---------------------------------------------------------- chunk independence

  function Excess(run: string): nat {
    if |run| > PUMP_MAX_LINE then |run| - PUMP_MAX_LINE else 0
  }

  /** How many characters the overflow cut drops. */
  function Dropped(chunks: seq<string>, pending: string): nat
    decreases |chunks|
  {
    if chunks == [] || chunks[0] == "" then 0
    else
      Excess(Trailing(pending + chunks[0])) + Dropped(chunks[1..], Feed(pending, chunks[0]).1)
  }

  /** What is emitted of a run that has grown too long is its first characters, right after the lines
      that were closed before it, and nothing of it is kept for later. */
  lemma OverflowKeepsTheStart(pending: string, chunk: string)
    requires |pending + chunk| - Open(pending + chunk) > PUMP_MAX_LINE
    ensures var text := pending + chunk;
            var (lines, rest) := Feed(pending, chunk);
            && rest == ""
            && |lines| == |Lines(text)| + 1 && Lines(text) <= lines
            && lines[|lines| - 1] == text[Open(text)..Open(text) + PUMP_MAX_LINE]
  {
    var text := pending + chunk;
    assert Trailing(text)[..PUMP_MAX_LINE] == text[Open(text)..Open(text) + PUMP_MAX_LINE];
  }

  /** One turn: each character is emitted, kept, dropped by the cut, or a separator. */
  lemma TurnConserves(pending: string, chunk: string)
    ensures var (lines, rest) := Feed(pending, chunk);
            Weight(lines) + |rest| + Excess(Trailing(pending + chunk)) == Content(pending + chunk)
  {
    var text := pending + chunk;
    var run := Trailing(text);
    LinesKeepContent(text);
    if |run| > PUMP_MAX_LINE {
      WeightOfConcat(Lines(text), [run[..PUMP_MAX_LINE]]);
      WeightOfOne(run[..PUMP_MAX_LINE]);
    }
  }

  lemma ContentOfRun(s: string)
    requires SeparatorFree(s)
    ensures Content(s) == |s|
  {
    OneRun(s);
    LinesKeepContent(s);
  }

  /** Conservation: every character that is not a separator is emitted or dropped by the cut. */
  lemma {:induction false} PumpConserves(chunks: seq<string>, pending: string)
    requires AllNonEmpty(chunks) && SeparatorFree(pending)
    ensures Weight(Pump(chunks, pending)) + Dropped(chunks, pending) == Content(pending + Flatten(chunks))
    decreases |chunks|
  {
    if chunks == [] {
      assert pending + Flatten(chunks) == pending;
      ContentOfRun(pending);
      WeightOfOne(pending);
    } else {
      var rest := Feed(pending, chunks[0]).1;
      PumpConserves(chunks[1..], rest);
      TurnKeepsBalance(pending, chunks[0], Pump(chunks[1..], rest), Dropped(chunks[1..], rest), Flatten(chunks[1..]));
      FlattenFirst(pending, chunks);
    }
  }

  lemma FlattenFirst(s: string, chunks: seq<string>)
    requires chunks != []
    ensures s + Flatten(chunks) == s + chunks[0] + Flatten(chunks[1..])
  {
  }

  lemma TurnKeepsBalance(pending: string, chunk: string, more: seq<string>, dropped: nat, later: string)
    requires Weight(more) + dropped == Content(Feed(pending, chunk).1 + later)
    ensures Weight(Feed(pending, chunk).0 + more) + Excess(Trailing(pending + chunk)) + dropped ==
            Content(pending + chunk + later)
  {
    var (lines, rest) := Feed(pending, chunk);
    WeightOfConcat(lines, more);
    TurnConserves(pending, chunk);
    ContentOfRun(rest);
    ContentOfConcat(rest, later);
    ContentOfConcat(pending + chunk, later);
  }

  /** At no chunk boundary has the run being read grown past the limit. `s` is what came before. */
  ghost predicate Fits(s: string, chunks: seq<string>)
    decreases |chunks|
  {
    |Trailing(s)| <= PUMP_MAX_LINE && (chunks == [] || Fits(s + chunks[0], chunks[1..]))
  }

  lemma {:induction false} FitsAtBoundaries(s: string, chunks: seq<string>)
    ensures Fits(s, chunks) <==> forall k :: 0 <= k <= |chunks| ==> |Trailing(s + Flatten(chunks[..k]))| <= PUMP_MAX_LINE
    decreases |chunks|
  {
    assert s + Flatten(chunks[..0]) == s;
    if chunks != [] {
      FitsAtBoundaries(s + chunks[0], chunks[1..]);
      forall k | 0 <= k <= |chunks[1..]|
        ensures s + Flatten(chunks[..k + 1]) == s + chunks[0] + Flatten(chunks[1..][..k])
      {
        assert chunks[..k + 1][1..] == chunks[1..][..k];
      }
      if Fits(s, chunks) {
        forall k | 0 <= k <= |chunks|
          ensures |Trailing(s + Flatten(chunks[..k]))| <= PUMP_MAX_LINE
        {
          if k > 0 {
            assert s + Flatten(chunks[..k - 1 + 1]) == s + chunks[0] + Flatten(chunks[1..][..k - 1]);
          }
        }
      } else if |Trailing(s)| <= PUMP_MAX_LINE {
        var k :| 0 <= k <= |chunks[1..]| && |Trailing(s + chunks[0] + Flatten(chunks[1..][..k]))| > PUMP_MAX_LINE;
        assert |Trailing(s + Flatten(chunks[..k + 1]))| > PUMP_MAX_LINE;
      }
    }
  }

  /** From the trailing run of what came before, the pump reads on exactly as reading at once
      would, as long as every boundary fits. */
  lemma {:induction false} PumpReadsOn(s: string, chunks: seq<string>)
    requires AllNonEmpty(chunks) && Fits(s, chunks)
    ensures Lines(s) + Pump(chunks, Trailing(s)) == Tokens(s + Flatten(chunks))
    decreases |chunks|
  {
    if chunks == [] {
      assert s + Flatten(chunks) == s;
    } else {
      var more, rest := s + chunks[0], chunks[1..];
      assert more + Flatten(rest) == s + Flatten(chunks);
      calc {
        Tokens(s + Flatten(chunks));
        { PumpReadsOn(more, rest); }
        Lines(more) + Pump(rest, Trailing(more));
        { OneTurn(s, chunks); }
        Lines(s) + Pump(chunks, Trailing(s));
      }
    }
  }

  lemma OneTurn(s: string, chunks: seq<string>)
    requires chunks != [] && chunks[0] != "" && |Trailing(s + chunks[0])| <= PUMP_MAX_LINE
    ensures Lines(s) + Pump(chunks, Trailing(s)) == Lines(s + chunks[0]) + Pump(chunks[1..], Trailing(s + chunks[0]))
  {
    ReadOn(s, chunks[0]);
    Regroup(Lines(s), Lines(Trailing(s) + chunks[0]), Pump(chunks[1..], Trailing(s + chunks[0])));
  }

  /** Once a boundary does not fit, something has been dropped. */
  lemma {:induction false} MisfitDrops(s: string, chunks: seq<string>)
    requires AllNonEmpty(chunks) && !Fits(s, chunks) && |Trailing(s)| <= PUMP_MAX_LINE
    ensures Dropped(chunks, Trailing(s)) > 0
    decreases |chunks|
  {
    ReadOn(s, chunks[0]);
    if |Trailing(s + chunks[0])| <= PUMP_MAX_LINE {
      MisfitDrops(s + chunks[0], chunks[1..]);
    }
  }

  lemma Regroup(a: seq<string>, b: seq<string>, c: seq<string>)
    ensures a + (b + c) == a + b + c
  {
  }

  /** However a stream is cut into chunks, the pump emits exactly its lines if and only if no run
      without a separator is longer than the limit at a chunk boundary. */
  lemma PumpIsExact(chunks: seq<string>)
    requires AllNonEmpty(chunks)
    ensures Pump(chunks, "") == Tokens(Flatten(chunks)) <==>
            forall k :: 0 <= k <= |chunks| ==> |Trailing(Flatten(chunks[..k]))| <= PUMP_MAX_LINE
  {
    FitsAtBoundaries("", chunks);
    forall k | 0 <= k <= |chunks|
      ensures "" + Flatten(chunks[..k]) == Flatten(chunks[..k])
    {
    }
    assert "" + Flatten(chunks) == Flatten(chunks);
    if Fits("", chunks) {
      PumpReadsOn("", chunks);
      assert [] + Pump(chunks, "") == Pump(chunks, "");
    } else {
      MisfitLosesSome(chunks);
    }
  }

  lemma MisfitLosesSome(chunks: seq<string>)
    requires AllNonEmpty(chunks) && !Fits("", chunks)
    ensures Pump(chunks, "") != Tokens(Flatten(chunks))
  {
    MisfitDrops("", chunks);
    PumpConserves(chunks, "");
    assert "" + Flatten(chunks) == Flatten(chunks);
    LinesKeepContent(Flatten(chunks));
  }

  // ------------------------------------------------- for every way of cutting it

  /** A stream cut the way reads of at most `PUMP_CHUNK` characters could. */
  ghost predicate Chunking(chunks: seq<string>, s: string) {
    && Flatten(chunks) == s
    && forall i :: 0 <= i < |chunks| ==> 1 <= |chunks[i]| <= PUMP_CHUNK
  }

  function Singles(s: string): seq<string> {
    seq(|s|, i requires 0 <= i < |s| => [s[i]])
  }

  lemma {:induction false} FlattenSingles(s: string, k: nat)
    requires k <= |s|
    ensures Flatten(Singles(s)[..k]) == s[..k]
    decreases |s|
  {
    if k > 0 {
      assert Singles(s)[..k][1..] == Singles(s[1..])[..k - 1];
      FlattenSingles(s[1..], k - 1);
      assert s[..k] == [s[0]] + s[1..][..k - 1];
    }
  }

  lemma {:induction false} FlattenPrefix(chunks: seq<string>, k: nat)
    requires k <= |chunks|
    ensures |Flatten(chunks[..k])| <= |Flatten(chunks)|
    ensures Flatten(chunks)[..|Flatten(chunks[..k])|] == Flatten(chunks[..k])
    decreases |chunks|
  {
    if k > 0 {
      assert chunks[..k][1..] == chunks[1..][..k - 1];
      FlattenPrefix(chunks[1..], k - 1);
    }
  }

  /** The trailing run of a prefix lies inside one maximal run of the whole stream. */
  lemma RunAround(s: string, k: nat)
    requires k <= |s| && Open(s[..k]) < k
    ensures exists r :: MaximalRun(s, r) && r.from == Open(s[..k]) && r.to >= k
  {
    var o := Open(s[..k]);
    assert forall i :: o <= i < k ==> s[i] == s[..k][o..][i - o];
    var to := k;
    while to < |s| && !IsSeparator(s[to])
      invariant k <= to <= |s| && forall i :: o <= i < to ==> !IsSeparator(s[i])
    {
      to := to + 1;
    }
    assert MaximalRun(s, Span(o, to));
  }

  /** Chunk independence: every possible cutting of a stream gives its lines, if and only if none
      of its lines is longer than the limit. */
  lemma ChunkIndependence(s: string)
    ensures (forall chunks :: Chunking(chunks, s) ==> Pump(chunks, "") == Tokens(s)) <==>
            (forall r :: MaximalRun(s, r) ==> r.to - r.from <= PUMP_MAX_LINE)
  {
    if forall r :: MaximalRun(s, r) ==> r.to - r.from <= PUMP_MAX_LINE {
      forall chunks | Chunking(chunks, s)
        ensures Pump(chunks, "") == Tokens(s)
      {
        ShortRunsFit(chunks, s);
        PumpIsExact(chunks);
      }
    } else {
      var r :| MaximalRun(s, r) && r.to - r.from > PUMP_MAX_LINE;
      FlattenSingles(s, |s|);
      assert Singles(s)[..|s|] == Singles(s);
      assert Chunking(Singles(s), s);
      FlattenSingles(s, r.to);
      TrailingOfRun(s, r);
      PumpIsExact(Singles(s));
    }
  }

  lemma ShortRunsFit(chunks: seq<string>, s: string)
    requires Chunking(chunks, s) && forall r :: MaximalRun(s, r) ==> r.to - r.from <= PUMP_MAX_LINE
    ensures forall k :: 0 <= k <= |chunks| ==> |Trailing(Flatten(chunks[..k]))| <= PUMP_MAX_LINE
  {
    forall k | 0 <= k <= |chunks|
      ensures |Trailing(Flatten(chunks[..k]))| <= PUMP_MAX_LINE
    {
      FlattenPrefix(chunks, k);
      var n := |Flatten(chunks[..k])|;
      if Open(s[..n]) < n {
        RunAround(s, n);
      }
    }
  }

  lemma TrailingOfRun(s: string, r: Span)
    requires MaximalRun(s, r)
    ensures Trailing(s[..r.to]) == s[r.from..r.to]
  {
    assert s[..r.to][r.from..] == s[r.from..r.to];
    TrailingIsUnique(s[..r.to], r.from);
  }

  // ---------------------------------------------------------------- memory bound

  /** Overflow or not: what a turn keeps is a run within the limit, and every line it emits is a
      non-empty run of at most the limit plus one chunk. */
  lemma {:induction false} PumpIsBounded(chunks: seq<string>, pending: string)
    requires |pending| <= PUMP_MAX_LINE && SeparatorFree(pending)
    requires forall i :: 0 <= i < |chunks| ==> |chunks[i]| <= PUMP_CHUNK
    ensures forall i :: 0 <= i < |Pump(chunks, pending)| ==>
                          && 1 <= |Pump(chunks, pending)[i]| <= PUMP_MAX_LINE + PUMP_CHUNK
                          && SeparatorFree(Pump(chunks, pending)[i])
    decreases |chunks|
  {
    if chunks != [] && chunks[0] != "" {
      LinesAreRuns(pending + chunks[0]);
      PumpIsBounded(chunks[1..], Feed(pending, chunks[0]).1);
    }
  }

  lemma {:induction false} LinesAreRuns(s: string)
    ensures forall i :: 0 <= i < |Lines(s)| ==> 1 <= |Lines(s)[i]| <= |s| && SeparatorFree(Lines(s)[i])
  {
    if s != "" {
      LinesAreRuns(s[..|s| - 1]);
    }
  }

  /** Overflow or not: the emitted lines are disjoint slices of the stream, in stream order. */
  lemma {:induction false} PumpKeepsOrder(chunks: seq<string>, pending: string)
    requires AllNonEmpty(chunks)
    ensures InOrder(Pump(chunks, pending), pending + Flatten(chunks))
    decreases |chunks|
  {
    if chunks == [] {
      OneLineInOrder(pending, "");
      assert pending + Flatten(chunks) == pending + "";
    } else {
      var (lines, rest) := Feed(pending, chunks[0]);
      PumpKeepsOrder(chunks[1..], rest);
      TurnKeepsOrder(pending, chunks[0], Pump(chunks[1..], rest), Flatten(chunks[1..]));
      FlattenFirst(pending, chunks);
    }
  }

  /** If the lines to come are in order in what is pending and the rest, so are they with this turn's. */
  lemma TurnKeepsOrder(pending: string, chunk: string, more: seq<string>, later: string)
    requires chunk != "" && InOrder(more, Feed(pending, chunk).1 + later)
    ensures InOrder(Feed(pending, chunk).0 + more, pending + chunk + later)
  {
    var text := pending + chunk;
    var o := Open(text);
    LinesInOrder(text);
    assert text == text[..o] + Trailing(text);
    if |Trailing(text)| > PUMP_MAX_LINE {
      CutInOrder(Lines(text), text[..o], Trailing(text));
      assert "" + later == later;
      InOrderConcat(Feed(pending, chunk).0, text, more, later);
    } else {
      InOrderConcat(Lines(text), text[..o], more, Trailing(text) + later);
      ConcatAssociates(text[..o], Trailing(text), later);
    }
  }

  lemma ConcatAssociates(a: string, b: string, c: string)
    ensures a + (b + c) == a + b + c
  {
  }

  lemma CutInOrder(lines: seq<string>, closed: string, run: string)
    requires InOrder(lines, closed) && |run| > PUMP_MAX_LINE
    ensures InOrder(lines + [run[..PUMP_MAX_LINE]], closed + run)
  {
    OneLineInOrder(run[..PUMP_MAX_LINE], run[PUMP_MAX_LINE..]);
    assert run == run[..PUMP_MAX_LINE] + run[PUMP_MAX_LINE..];
    InOrderConcat(lines, closed, [run[..PUMP_MAX_LINE]], run);
  }
}
