/** Occurrences of one string in another, and rewriting that keeps what it does not replace. */
module Substrings {
  import opened Prelude

  predicate OccursAt(t: string, s: string, i: nat) {
    i + |s| <= |t| && t[i..i + |s|] == s
  }

  ghost predicate Contains(t: string, s: string) {
    exists i: nat :: OccursAt(t, s, i)
  }

  lemma ContainsPart(t: string, from: nat, to: nat, s: string)
    requires from <= to <= |t| && Contains(t[from..to], s)
    ensures Contains(t, s)
  {
    var part := t[from..to];
    var i: nat :| OccursAt(part, s, i);
    forall k | 0 <= k < |s|
      ensures t[from + i..from + i + |s|][k] == s[k]
    {
      assert part[i..i + |s|][k] == part[i + k] == t[from + i + k];
    }
    assert OccursAt(t, s, from + i);
  }

  lemma ContainsRest(t: string, from: nat, s: string)
    requires from <= |t| && Contains(t[from..], s)
    ensures Contains(t, s)
  {
    assert t[from..] == t[from..|t|];
    ContainsPart(t, from, |t|, s);
  }

  lemma ContainsItself(s: string)
    ensures OccursAt(s, s, 0) && Contains(s, s)
  {
    var start := 0;
    assert s[start..|s|] == s;
    assert OccursAt(s, s, start);
  }

  /** Character by character. */
  lemma OccursChar(t: string, s: string, i: nat, d: nat)
    requires d < |s|
    ensures OccursAt(t, s, i) ==> t[i + d] == s[d]
  {
    if OccursAt(t, s, i) {
      assert t[i..i + |s|][d] == t[i + d];
    }
  }

  lemma ShorterContainsNot(t: string, s: string)
    requires |t| < |s|
    ensures !Contains(t, s)
  {
  }

  /** The leftmost occurrence. */
  function Find(t: string, s: string): (r: Option<nat>)
    ensures r.Some? ==> OccursAt(t, s, r.value) && forall i: nat :: i < r.value ==> !OccursAt(t, s, i)
    ensures r.None? <==> !Contains(t, s)
    decreases |t|
  {
    if OccursAt(t, s, 0) then Some(0)
    else if t == "" then None
    else
      var rest := Find(t[1..], s);
      FindShift(t, s);
      if rest.Some? then Some(rest.value + 1) else None
  }

  lemma FindShift(t: string, s: string)
    requires t != ""
    ensures forall i: nat :: i > 0 ==> (OccursAt(t, s, i) <==> OccursAt(t[1..], s, i - 1))
  {
    forall i: nat | i > 0
      ensures OccursAt(t, s, i) <==> OccursAt(t[1..], s, i - 1)
    {
      if i + |s| <= |t| {
        assert t[1..][i - 1..i - 1 + |s|] == t[i..i + |s|];
      }
    }
  }

  /** `t.replace(s, mark)`: leftmost occurrences first, none overlapping. */
  function ReplaceAll(t: string, s: string, mark: string): string
    requires s != ""
    decreases |t|
  {
    match Find(t, s)
    case None => t
    case Some(i) => t[..i] + mark + ReplaceAll(t[i + |s|..], s, mark)
  }

  // -------------------------------------------------------- straddling an insert

  /** No occurrence of `s` can share a character with an inserted `m`: neither lies inside the
      other, `s` starts with no end of `m` and ends with no start of it. */
  ghost predicate Foreign(s: string, m: string) {
    && !Contains(m, s) && !Contains(s, m)
    && (forall k: nat :: k < |m| ==> !(m[k..] <= s))
    && (forall j: nat :: 1 <= j <= |m| ==> !EndsWith(s, m[..j]))
  }

  predicate EndsWith(s: string, e: string) {
    |e| <= |s| && s[|s| - |e|..] == e
  }

  /** A foreign string found around an insert was there on one side of it already. */
  lemma NoStraddling(x: string, m: string, y: string, s: string)
    requires Foreign(s, m) && m != ""
    requires Contains(x + m + y, s)
    ensures Contains(x, s) || Contains(y, s)
  {
    var t := x + m + y;
    var i: nat :| OccursAt(t, s, i);
    var a, b := |x|, |x| + |m|;
    if i + |s| <= a {
      assert t == x + (m + y);
      OccursLeft(x, m + y, s, i);
    } else if i >= b {
      OccursRight(x + m, y, s, i);
    } else {
      Straddles(x, m, y, s, i);
    }
  }

  lemma OccursLeft(x: string, y: string, s: string, i: nat)
    requires OccursAt(x + y, s, i) && i + |s| <= |x|
    ensures OccursAt(x, s, i)
  {
    forall k | 0 <= k < |s|
      ensures x[i..i + |s|][k] == s[k]
    {
      OccursChar(x + y, s, i, k);
    }
  }

  lemma OccursRight(x: string, y: string, s: string, i: nat)
    requires OccursAt(x + y, s, i) && i >= |x|
    ensures OccursAt(y, s, i - |x|)
  {
    var j := i - |x|;
    forall k | 0 <= k < |s|
      ensures y[j..j + |s|][k] == s[k]
    {
      OccursChar(x + y, s, i, k);
    }
  }

  lemma Straddles(x: string, m: string, y: string, s: string, i: nat)
    requires OccursAt(x + m + y, s, i) && i < |x| + |m| && i + |s| > |x|
    ensures !Foreign(s, m)
  {
    var t := x + m + y;
    var a, b := |x|, |x| + |m|;
    if i >= a && i + |s| <= b {
      assert m[i - a..i - a + |s|] == t[i..i + |s|];
      assert OccursAt(m, s, i - a);
    } else if i >= a {
      var k: nat := i - a;
      assert s[..|m| - k] == t[i..b] == m[k..];
      assert m[k..] <= s;
    } else if i + |s| <= b {
      var j: nat := i + |s| - a;
      assert s[|s| - j..] == t[a..i + |s|] == m[..j];
      assert EndsWith(s, m[..j]);
    } else {
      assert s[a - i..b - i] == t[a..b] == m;
      assert OccursAt(s, m, a - i);
    }
  }

  // -------------------------------------------------------------------- rewriting

  /** Copy some characters, then put an insert where the next few were. */
  datatype Edit = Edit(copied: nat, dropped: nat)

  predicate Fit(t: string, edits: seq<Edit>)
    decreases |edits|
  {
    edits == [] || (edits[0].copied + edits[0].dropped <= |t| && Fit(t[edits[0].copied + edits[0].dropped..], edits[1..]))
  }

  /** Disjoint spans of `t`, in order, replaced by `insert`. */
  function Rewrite(t: string, edits: seq<Edit>, insert: string): string
    requires Fit(t, edits)
    decreases |edits|
  {
    if edits == [] then t
    else
      var e := edits[0];
      t[..e.copied] + insert + Rewrite(t[e.copied + e.dropped..], edits[1..], insert)
  }

  /** Rewriting never creates a foreign string. */
  lemma {:induction false} RewriteCreatesNothing(t: string, edits: seq<Edit>, insert: string, s: string)
    requires Fit(t, edits) && Foreign(s, insert) && insert != ""
    requires Contains(Rewrite(t, edits, insert), s)
    ensures Contains(t, s)
    decreases |edits|
  {
    if edits != [] {
      var e := edits[0];
      var rest := t[e.copied + e.dropped..];
      NoStraddling(t[..e.copied], insert, Rewrite(rest, edits[1..], insert), s);
      if Contains(t[..e.copied], s) {
        ContainsPart(t, 0, e.copied, s);
      } else {
        RewriteCreatesNothing(rest, edits[1..], insert, s);
        ContainsRest(t, e.copied + e.dropped, s);
      }
    }
  }

  /** Replacing one string never creates another, foreign one. */
  lemma {:induction false} ReplaceCreatesNothing(t: string, s: string, mark: string, u: string)
    requires s != "" && mark != "" && Foreign(u, mark)
    requires Contains(ReplaceAll(t, s, mark), u)
    ensures Contains(t, u)
    decreases |t|
  {
    var found := Find(t, s);
    if found.Some? {
      var i := found.value;
      var rest := t[i + |s|..];
      NoStraddling(t[..i], mark, ReplaceAll(rest, s, mark), u);
      if Contains(t[..i], u) {
        ContainsPart(t, 0, i, u);
      } else {
        ReplaceCreatesNothing(rest, s, mark, u);
        ContainsRest(t, i + |s|, u);
      }
    }
  }

  /** Nor does a foreign string survive its own replacement. */
  lemma {:induction false} ReplaceRemoves(t: string, s: string, mark: string)
    requires s != "" && mark != "" && Foreign(s, mark)
    ensures !Contains(ReplaceAll(t, s, mark), s)
    decreases |t|
  {
    var found := Find(t, s);
    if found.Some? {
      var i := found.value;
      var rest := t[i + |s|..];
      ReplaceRemoves(rest, s, mark);
      NothingBefore(t, s, i);
      if Contains(ReplaceAll(t, s, mark), s) {
        NoStraddling(t[..i], mark, ReplaceAll(rest, s, mark), s);
      }
    }
  }

  lemma NothingBefore(t: string, s: string, i: nat)
    requires s != "" && Find(t, s) == Some(i)
    ensures !Contains(t[..i], s)
  {
    forall k: nat
      ensures !OccursAt(t[..i], s, k)
    {
      OccursInPrefix(t, i, s, k);
    }
  }

  lemma OccursInPrefix(t: string, n: nat, s: string, k: nat)
    requires s != "" && n <= |t|
    ensures OccursAt(t[..n], s, k) ==> k < n && OccursAt(t, s, k)
  {
    if k + |s| <= n {
      assert t[..n][k..k + |s|] == t[k..k + |s|];
    }
  }

  // ---------------------------------------------------- one string after the other

  /** Replace each of `secrets` in turn. */
  function ReplaceEach(t: string, secrets: seq<string>, mark: string): string
    requires "" !in secrets
    decreases |secrets|
  {
    if secrets == [] then t else ReplaceEach(ReplaceAll(t, secrets[0], mark), secrets[1..], mark)
  }

  lemma {:induction false} ReplaceEachCreatesNothing(t: string, secrets: seq<string>, mark: string, s: string)
    requires "" !in secrets && mark != "" && Foreign(s, mark)
    requires Contains(ReplaceEach(t, secrets, mark), s)
    ensures Contains(t, s)
    decreases |secrets|
  {
    if secrets != [] {
      ReplaceEachCreatesNothing(ReplaceAll(t, secrets[0], mark), secrets[1..], mark, s);
      ReplaceCreatesNothing(t, secrets[0], mark, s);
    }
  }

  /** What is foreign to the mark is gone once its turn has come, and does not come back. */
  lemma {:induction false} ReplaceEachRemoves(t: string, secrets: seq<string>, mark: string, s: string)
    requires "" !in secrets && mark != "" && s in secrets && Foreign(s, mark)
    ensures !Contains(ReplaceEach(t, secrets, mark), s)
    decreases |secrets|
  {
    var next := ReplaceAll(t, secrets[0], mark);
    if s == secrets[0] {
      ReplaceRemoves(t, s, mark);
      if Contains(ReplaceEach(next, secrets[1..], mark), s) {
        ReplaceEachCreatesNothing(next, secrets[1..], mark, s);
      }
    } else {
      ReplaceEachRemoves(next, secrets[1..], mark, s);
    }
  }

  // ------------------------------------------------------------- what is kept, in order

  /** The pieces that are kept, with a filling between each two. */
  function Weave(keeps: seq<string>, fillings: seq<string>): string
    requires |keeps| == |fillings| + 1
    decreases |fillings|
  {
    if fillings == [] then keeps[0] else keeps[0] + fillings[0] + Weave(keeps[1..], fillings[1..])
  }

  function Copies(x: string, n: nat): seq<string> {
    seq(n, _ => x)
  }

  /** The edits that keep these pieces and drop those. */
  function EditsOf(keeps: seq<string>, hits: seq<string>): seq<Edit>
    requires |keeps| == |hits| + 1
  {
    seq(|hits|, i requires 0 <= i < |hits| => Edit(|keeps[i]|, |hits[i]|))
  }

  /** Rewriting puts the insert exactly where each span was, and keeps all the rest, in order. */
  lemma {:induction false} RewriteWeaves(keeps: seq<string>, hits: seq<string>, insert: string)
    requires |keeps| == |hits| + 1
    ensures var t, edits := Weave(keeps, hits), EditsOf(keeps, hits);
            Fit(t, edits) && Rewrite(t, edits, insert) == Weave(keeps, Copies(insert, |hits|))
    decreases |hits|
  {
    var t, edits := Weave(keeps, hits), EditsOf(keeps, hits);
    if hits == [] {
      assert edits == [];
    } else {
      var rest := Weave(keeps[1..], hits[1..]);
      RewriteWeaves(keeps[1..], hits[1..], insert);
      assert edits[1..] == EditsOf(keeps[1..], hits[1..]);
      assert t == keeps[0] + hits[0] + rest;
      assert t[..|keeps[0]|] == keeps[0] && t[|keeps[0]| + |hits[0]|..] == rest;
      assert Copies(insert, |hits|)[1..] == Copies(insert, |hits[1..]|);
    }
  }

  /** And every rewriting is of this kind. */
  lemma {:induction false} EditsWeave(t: string, edits: seq<Edit>) returns (keeps: seq<string>, hits: seq<string>)
    requires Fit(t, edits)
    ensures |keeps| == |hits| + 1 && t == Weave(keeps, hits) && edits == EditsOf(keeps, hits)
    decreases |edits|
  {
    if edits == [] {
      keeps, hits := [t], [];
    } else {
      var n, m := edits[0].copied, edits[0].copied + edits[0].dropped;
      var laterKeeps, laterHits := EditsWeave(t[m..], edits[1..]);
      keeps, hits := [t[..n]] + laterKeeps, [t[n..m]] + laterHits;
      assert keeps[1..] == laterKeeps && hits[1..] == laterHits;
      assert t == t[..n] + t[n..m] + t[m..];
      assert edits == [edits[0]] + EditsOf(laterKeeps, laterHits);
    }
  }

  /** The pieces between the leftmost occurrences of `s`. */
  ghost predicate Between(keeps: seq<string>, s: string) {
    && keeps != []
    && (forall i :: 0 <= i < |keeps| - 1 ==> Find(keeps[i] + s, s) == Some(|keeps[i]|))
    && !Contains(keeps[|keeps| - 1], s)
  }

  lemma FoundAfter(kept: string, s: string, rest: string)
    requires s != "" && Find(kept + s, s) == Some(|kept|)
    ensures Find(kept + s + rest, s) == Some(|kept|)
  {
    var t, head, n := kept + s + rest, kept + s, |kept|;
    assert t[n..n + |s|] == s;
    forall i: nat | i < n
      ensures !OccursAt(t, s, i)
    {
      assert t[i..i + |s|] == head[i..i + |s|];
      assert !OccursAt(head, s, i);
    }
    FindIs(t, s, n);
  }

  /** Replacing puts the marker exactly where each occurrence was, and keeps all the rest, in order. */
  lemma {:induction false} ReplaceAllWeaves(keeps: seq<string>, s: string, mark: string)
    requires s != "" && Between(keeps, s)
    ensures var n := |keeps| - 1; ReplaceAll(Weave(keeps, Copies(s, n)), s, mark) == Weave(keeps, Copies(mark, n))
    decreases |keeps|
  {
    var n := |keeps| - 1;
    if n == 0 {
      assert Find(keeps[0], s) == None;
    } else {
      var rest := Weave(keeps[1..], Copies(s, n - 1));
      ReplaceAllWeaves(keeps[1..], s, mark);
      ReplaceFirst(keeps[0], s, rest, mark);
      WeaveFirst(keeps, s, n);
      WeaveFirst(keeps, mark, n);
    }
  }

  lemma WeaveFirst(keeps: seq<string>, x: string, n: nat)
    requires |keeps| == n + 1 && n > 0
    ensures Weave(keeps, Copies(x, n)) == keeps[0] + x + Weave(keeps[1..], Copies(x, n - 1))
  {
    assert Copies(x, n)[1..] == Copies(x, n - 1);
  }

  lemma ReplaceFirst(kept: string, s: string, rest: string, mark: string)
    requires s != "" && Find(kept + s, s) == Some(|kept|)
    ensures ReplaceAll(kept + s + rest, s, mark) == kept + mark + ReplaceAll(rest, s, mark)
  {
    var t := kept + s + rest;
    FoundAfter(kept, s, rest);
    assert t[..|kept|] == kept && t[|kept| + |s|..] == rest;
  }

  /** Every text is such pieces with `s` between them. */
  lemma {:induction false} EveryTextSplits(t: string, s: string) returns (keeps: seq<string>)
    requires s != ""
    ensures Between(keeps, s) && t == Weave(keeps, Copies(s, |keeps| - 1))
    decreases |t|
  {
    var found := Find(t, s);
    if found.None? {
      keeps := [t];
    } else {
      var i := found.value;
      var kept, rest := t[..i], t[i + |s|..];
      CutAt(t, s, i, kept, rest);
      var later := EveryTextSplits(rest, s);
      FoundAtTheEnd(t, s, i);
      OneMorePiece(kept, later, s);
      keeps := [kept] + later;
      assert |keeps| - 1 == |later|;
    }
  }

  lemma CutAt(t: string, s: string, i: nat, kept: string, rest: string)
    requires OccursAt(t, s, i) && kept == t[..i] && rest == t[i + |s|..]
    ensures t == kept + s + rest && t[..i + |s|] == kept + s
  {
  }

  lemma OneMorePiece(kept: string, later: seq<string>, s: string)
    requires s != "" && Between(later, s) && Find(kept + s, s) == Some(|kept|)
    ensures Between([kept] + later, s)
    ensures Weave([kept] + later, Copies(s, |later|)) == kept + s + Weave(later, Copies(s, |later| - 1))
  {
    var keeps := [kept] + later;
    assert keeps[1..] == later && Copies(s, |later|)[1..] == Copies(s, |later| - 1);
    forall i | 0 <= i < |keeps| - 1
      ensures Find(keeps[i] + s, s) == Some(|keeps[i]|)
    {
      if i > 0 {
        assert keeps[i] == later[i - 1];
      }
    }
  }

  lemma FoundAtTheEnd(t: string, s: string, i: nat)
    requires s != "" && Find(t, s) == Some(i)
    ensures Find(t[..i + |s|], s) == Some(i)
  {
    var n := i + |s|;
    OccursInPrefixToo(t, n, s, i);
    forall k: nat | k < i
      ensures !OccursAt(t[..n], s, k)
    {
      OccursInPrefix(t, n, s, k);
    }
    FindIs(t[..n], s, i);
  }

  lemma OccursInPrefixToo(t: string, n: nat, s: string, i: nat)
    requires OccursAt(t, s, i) && i + |s| <= n <= |t|
    ensures OccursAt(t[..n], s, i)
  {
    assert t[..n][i..i + |s|] == t[i..i + |s|];
  }

  lemma FindIs(t: string, s: string, i: nat)
    requires OccursAt(t, s, i) && forall k: nat :: k < i ==> !OccursAt(t, s, k)
    ensures Find(t, s) == Some(i)
  {
    assert Contains(t, s);
  }

  /** What is not there is not replaced. */
  lemma {:induction false} NothingToReplace(t: string, secrets: seq<string>, mark: string)
    requires "" !in secrets && forall s :: s in secrets ==> !Contains(t, s)
    ensures ReplaceEach(t, secrets, mark) == t
    decreases |secrets|
  {
    if secrets != [] {
      assert Find(t, secrets[0]) == None;
      NothingToReplace(t, secrets[1..], mark);
    }
  }

  // ------------------------------------------------------------------- exactness

  /** However the text reads and whatever else is replaced, `s` is not left behind. */
  ghost predicate AlwaysReplaced(s: string, mark: string, least: nat) {
    forall t: string, secrets: seq<string> ::
      s in secrets && AtLeast(secrets, least) && "" !in secrets ==> !Contains(ReplaceEach(t, secrets, mark), s)
  }

  ghost predicate AtLeast(secrets: seq<string>, least: nat) {
    forall x :: x in secrets ==> |x| >= least
  }

  /** A run of one character that the mark lacks, longer than `s` and different from what stands
      before it. */
  ghost predicate Fills(f: string, before: string, s: string, mark: string) {
    && |f| > |s| && f[0] !in mark
    && (forall i :: 0 <= i < |f| ==> f[i] == f[0])
    && (before != "" ==> before[|before| - 1] != f[0])
  }

  function Filler(before: string, s: string, mark: string, least: nat): (f: string)
    requires 'x' !in mark && 'y' !in mark
    ensures |f| >= least && Fills(f, before, s, mark)
  {
    var c := if before != "" && before[|before| - 1] == 'x' then 'y' else 'x';
    seq(least + |s| + 1, _ => c)
  }

  /** Replacing the filler puts a mark exactly where it stood. */
  lemma FillerBecomesMark(before: string, after: string, s: string, f: string, mark: string)
    requires Fills(f, before, s, mark) && |before| <= |s| && |after| <= |s|
    ensures ReplaceAll(before + f + after, f, mark) == before + mark + after
  {
    var t := before + f + after;
    var b := |before|;
    assert t[b..b + |f|] == f;
    assert OccursAt(t, f, b);
    forall i: nat | i < b
      ensures !OccursAt(t, f, i)
    {
      OccursChar(t, f, i, b - 1 - i);
      assert t[b - 1] == before[b - 1];
    }
    assert Find(t, f) == Some(b);
    assert t[..b] == before && t[b + |f|..] == after;
    ShorterContainsNot(after, f);
    assert Find(after, f) == None;
  }

  lemma TwoPasses(t: string, s: string, f: string, mark: string)
    requires s != "" && f != "" && !Contains(t, s)
    ensures ReplaceEach(t, [s, f], mark) == ReplaceAll(t, f, mark)
  {
    assert Find(t, s) == None;
    assert [s, f][1..] == [f];
    OnePass(t, f, mark);
  }

  lemma OnePass(t: string, s: string, mark: string)
    requires s != ""
    ensures ReplaceEach(t, [s], mark) == ReplaceAll(t, s, mark)
  {
    assert [s][1..] == [];
  }

  /** A string inside the mark comes back with it. */
  lemma InsideMarkStays(s: string, mark: string)
    requires s != "" && Contains(mark, s)
    ensures Contains(ReplaceEach(s, [s], mark), s)
  {
    ContainsItself(s);
    assert Find(s, s) == Some(0);
    ShorterContainsNot("", s);
    assert s[|s|..] == "" && s[..0] == "";
    assert ReplaceAll("", s, mark) == "";
    assert "" + mark + "" == mark;
    OnePass(s, s, mark);
  }

  /** So does one that goes on where a mark leaves off. */
  lemma AfterMarkStays(s: string, mark: string, k: nat)
    requires s != "" && k < |mark| && mark[k..] <= s
    ensures Contains(ReplaceEach(s + s[|mark| - k..], [s], mark), s)
  {
    var rest := s[|mark| - k..];
    var t := s + rest;
    var start := 0;
    assert t[start..|s|] == s;
    assert OccursAt(t, s, start);
    assert Find(t, s) == Some(0);
    ShorterContainsNot(rest, s);
    assert Find(rest, s) == None;
    assert t[..0] == "" && t[|s|..] == rest;
    var r := mark + rest;
    assert "" + mark + rest == r;
    assert s == mark[k..] + rest;
    assert r[k..k + |s|] == s;
    assert OccursAt(r, s, k);
    OnePass(t, s, mark);
  }

  /** One that ends as a mark begins is put together by the mark of the next replacement. */
  lemma BeforeMarkStays(s: string, mark: string, j: nat, x: string, f: string)
    requires 1 <= j <= |mark| && j <= |s| && x == s[..|s| - j] && s[|s| - j..] == mark[..j] && Fills(f, x, s, mark)
    ensures Contains(ReplaceEach(x + f, [s, f], mark), s)
  {
    NotBeforeFiller(s, mark, j, x, f);
    TwoPasses(x + f, s, f, mark);
    assert x + f + "" == x + f && x + mark + "" == x + mark;
    FillerBecomesMark(x, "", s, f, mark);
    MarkCompletes(s, mark, j, x);
  }

  lemma MarkCompletes(s: string, mark: string, j: nat, x: string)
    requires 1 <= j <= |mark| && j <= |s| && x == s[..|s| - j] && s[|s| - j..] == mark[..j]
    ensures Contains(x + mark, s)
  {
    var start := 0;
    assert (x + mark)[start..|s|] == x + mark[..j] == s;
    assert OccursAt(x + mark, s, start);
  }

  /** It would have to end on a character that the mark has and the filler has not. */
  lemma NotBeforeFiller(s: string, mark: string, j: nat, x: string, f: string)
    requires 1 <= j <= |mark| && j <= |s| && x == s[..|s| - j] && s[|s| - j..] == mark[..j] && Fills(f, x, s, mark)
    ensures !Contains(x + f, s)
  {
    var t, last := x + f, s[|s| - 1];
    assert last == s[|s| - j..][j - 1] == mark[j - 1];
    forall i: nat
      ensures !OccursAt(t, s, i)
    {
      if i + |s| <= |t| {
        OccursChar(t, s, i, |s| - 1);
        assert t[i + |s| - 1] == f[i + |s| - 1 - |x|];
      }
    }
  }

  /** And so is one that has a whole mark in it. */
  lemma AroundMarkStays(s: string, mark: string, x: string, rest: string, f: string)
    requires mark != "" && s == x + mark + rest && Fills(f, x, s, mark)
    ensures Contains(ReplaceEach(x + f + rest, [s, f], mark), s)
  {
    NotAroundFiller(s, mark, x, rest, f);
    TwoPasses(x + f + rest, s, f, mark);
    FillerBecomesMark(x, rest, s, f, mark);
    ContainsItself(s);
  }

  /** Its own mark would have to lie on the filler. */
  lemma NotAroundFiller(s: string, mark: string, x: string, rest: string, f: string)
    requires mark != "" && s == x + mark + rest && Fills(f, x, s, mark)
    ensures !Contains(x + f + rest, s)
  {
    var t, p := x + f + rest, |x|;
    assert s[p] == mark[0];
    forall i: nat
      ensures !OccursAt(t, s, i)
    {
      if i + |s| <= |t| {
        OccursChar(t, s, i, p);
        assert t[i + p] == f[i];
      }
    }
  }

  /** Exactly the strings foreign to the mark are always replaced: for any other there is a text,
      and at most one more string to replace, after which it stands. */
  lemma ForeignExactly(s: string, mark: string, least: nat)
    requires |s| >= least && s != "" && mark != "" && 'x' !in mark && 'y' !in mark
    ensures Foreign(s, mark) <==> AlwaysReplaced(s, mark, least)
  {
    if Foreign(s, mark) {
      forall t: string, secrets: seq<string> | s in secrets && AtLeast(secrets, least) && "" !in secrets
        ensures !Contains(ReplaceEach(t, secrets, mark), s)
      {
        ReplaceEachRemoves(t, secrets, mark, s);
      }
    } else {
      var t, secrets := Survivor(s, mark, least);
    }
  }

  lemma Survivor(s: string, mark: string, least: nat) returns (t: string, secrets: seq<string>)
    requires |s| >= least && s != "" && mark != "" && 'x' !in mark && 'y' !in mark
    requires !Foreign(s, mark)
    ensures s in secrets && |secrets| <= 2 && AtLeast(secrets, least) && "" !in secrets
    ensures Contains(ReplaceEach(t, secrets, mark), s)
  {
    if Contains(mark, s) {
      InsideMarkStays(s, mark);
      t, secrets := s, [s];
    } else if Contains(s, mark) {
      var p: nat :| OccursAt(s, mark, p);
      t, secrets := SurvivorAround(s, mark, least, p);
    } else if exists k: nat :: k < |mark| && mark[k..] <= s {
      var k: nat :| k < |mark| && mark[k..] <= s;
      AfterMarkStays(s, mark, k);
      t, secrets := s + s[|mark| - k..], [s];
    } else {
      var j: nat :| 1 <= j <= |mark| && EndsWith(s, mark[..j]);
      t, secrets := SurvivorBefore(s, mark, least, j);
    }
  }

  lemma SurvivorAround(s: string, mark: string, least: nat, p: nat) returns (t: string, secrets: seq<string>)
    requires |s| >= least && mark != "" && 'x' !in mark && 'y' !in mark && OccursAt(s, mark, p)
    ensures s in secrets && |secrets| <= 2 && AtLeast(secrets, least) && "" !in secrets
    ensures Contains(ReplaceEach(t, secrets, mark), s)
  {
    var x, rest := s[..p], s[p + |mark|..];
    var f := Filler(x, s, mark, least);
    assert s == x + mark + rest;
    AroundMarkStays(s, mark, x, rest, f);
    t, secrets := x + f + rest, [s, f];
  }

  lemma SurvivorBefore(s: string, mark: string, least: nat, j: nat) returns (t: string, secrets: seq<string>)
    requires |s| >= least && 'x' !in mark && 'y' !in mark && 1 <= j <= |mark| && EndsWith(s, mark[..j])
    ensures s in secrets && |secrets| <= 2 && AtLeast(secrets, least) && "" !in secrets
    ensures Contains(ReplaceEach(t, secrets, mark), s)
  {
    var x := s[..|s| - j];
    var f := Filler(x, s, mark, least);
    BeforeMarkStays(s, mark, j, x, f);
    t, secrets := x + f, [s, f];
  }
}
