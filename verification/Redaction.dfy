/** The redaction filter (`logging_config.py`). The two pattern substitutions are modelled as what
    they do to a text: disjoint spans go, a captured prefix before each stays, and the marker - after
    a space in the first case - takes their place. */
module Redaction {
  import opened Prelude
  import opened Substrings

  const REDACTED: string := "[redacted]"
  const MIN_SECRET: nat := 8

  /** Finds the spans a pattern replaces. */
  type Matcher = m: string -> seq<Edit> | forall t :: Fit(t, m(t))
    witness (t: string) => []

  predicate IsWord(c: char) {
    'a' <= c <= 'z' || 'A' <= c <= 'Z' || '0' <= c <= '9' || c == '_'
  }

  function Lower(c: char): char {
    if 'A' <= c <= 'Z' then (c as int + 32) as char else c
  }

  /** In any case. */
  predicate IsBearer(s: string) {
    |s| == 6 && forall i :: 0 <= i < 6 ==> Lower(s[i]) == "bearer"[i]
  }

  /** As a whole word. */
  predicate EndsInBearer(t: string) {
    |t| >= 6 && IsBearer(t[|t| - 6..]) && (|t| == 6 || !IsWord(t[|t| - 7]))
  }

  /** Every kept prefix ends in the captured word. */
  predicate KeepsBearer(t: string, edits: seq<Edit>)
    requires Fit(t, edits)
    decreases |edits|
  {
    edits == []
    || (EndsInBearer(t[..edits[0].copied]) && KeepsBearer(t[edits[0].copied + edits[0].dropped..], edits[1..]))
  }

  /** The first pattern: what it keeps before a span is the word `bearer`. */
  type BearerMatcher = m: string -> seq<Edit> | forall t :: Fit(t, m(t)) && KeepsBearer(t, m(t))
    witness (t: string) => []

  const SPACED: string := [' '] + REDACTED

  /** What `redact` makes of a text. */
  function Redacted(text: string, secrets: seq<string>, bearer: BearerMatcher, keyed: Matcher): string
    requires "" !in secrets
  {
    var scrubbed := ReplaceEach(text, secrets, REDACTED);
    var first := Rewrite(scrubbed, bearer(scrubbed), SPACED);
    Rewrite(first, keyed(first), REDACTED)
  }

  /** Ends in the word and the space that the first pattern writes itself. */
  predicate EndsInBearerSpace(secret: string) {
    secret != "" && secret[|secret| - 1] == ' ' && EndsInBearer(secret[..|secret| - 1])
  }

  /** Shares no character with a marker wherever one is put, nor with what the first pattern puts
      before its own. */
  ghost predicate Unmistakable(secret: string) {
    Foreign(secret, REDACTED) && !EndsInBearerSpace(secret)
  }

  // --------------------------------------------------------- nothing else is touched

  /** A text that holds no secret and in which nothing matches comes back as it was. */
  lemma NothingToRedact(text: string, secrets: seq<string>, bearer: BearerMatcher, keyed: Matcher)
    requires "" !in secrets && forall s :: s in secrets ==> !Contains(text, s)
    requires bearer(text) == [] && keyed(text) == []
    ensures Redacted(text, secrets, bearer, keyed) == text
  {
    NothingToReplace(text, secrets, REDACTED);
  }

  /** Where there is no secret, whatever the first pattern matches becomes a space and the marker, and
      whatever the second then matches becomes the marker. All between the matches is kept, in order. */
  lemma MatchesAreReplaced(text: string, secrets: seq<string>, bearer: BearerMatcher, keyed: Matcher,
                           keeps: seq<string>, hits: seq<string>, keeps': seq<string>, hits': seq<string>)
    requires "" !in secrets && forall s :: s in secrets ==> !Contains(text, s)
    requires |keeps| == |hits| + 1 && text == Weave(keeps, hits) && bearer(text) == EditsOf(keeps, hits)
    requires |keeps'| == |hits'| + 1
    requires var first := Weave(keeps, Copies(SPACED, |hits|));
             first == Weave(keeps', hits') && keyed(first) == EditsOf(keeps', hits')
    ensures Redacted(text, secrets, bearer, keyed) == Weave(keeps', Copies(REDACTED, |hits'|))
  {
    NothingToReplace(text, secrets, REDACTED);
    BothSubstitutions(text, bearer, keyed, keeps, hits, keeps', hits');
  }

  lemma BothSubstitutions(text: string, bearer: BearerMatcher, keyed: Matcher,
                          keeps: seq<string>, hits: seq<string>, keeps': seq<string>, hits': seq<string>)
    requires |keeps| == |hits| + 1 && text == Weave(keeps, hits) && bearer(text) == EditsOf(keeps, hits)
    requires |keeps'| == |hits'| + 1
    requires var first := Weave(keeps, Copies(SPACED, |hits|));
             first == Weave(keeps', hits') && keyed(first) == EditsOf(keeps', hits')
    ensures var first := Rewrite(text, bearer(text), SPACED);
            Rewrite(first, keyed(first), REDACTED) == Weave(keeps', Copies(REDACTED, |hits'|))
  {
    RewriteWeaves(keeps, hits, SPACED);
    RewriteWeaves(keeps', hits', REDACTED);
  }

  /** Where nothing matches, every occurrence of the one secret becomes the marker, and all between
      them is kept, in order. */
  lemma SecretIsReplaced(keeps: seq<string>, secret: string, bearer: BearerMatcher, keyed: Matcher)
    requires secret != "" && Between(keeps, secret)
    requires var scrubbed := Weave(keeps, Copies(REDACTED, |keeps| - 1)); bearer(scrubbed) == [] && keyed(scrubbed) == []
    ensures var n := |keeps| - 1;
            Redacted(Weave(keeps, Copies(secret, n)), [secret], bearer, keyed) == Weave(keeps, Copies(REDACTED, n))
  {
    ReplaceAllWeaves(keeps, secret, REDACTED);
    OnePass(Weave(keeps, Copies(secret, |keeps| - 1)), secret, REDACTED);
  }

  /** For instance one value that the second pattern matches, as in `token=abcdefgh12`. */
  lemma MatchedValueGoes(secrets: seq<string>, bearer: BearerMatcher, keyed: Matcher, kept: string, value: string, rest: string)
    requires var text := kept + value + rest;
             && "" !in secrets && (forall s :: s in secrets ==> !Contains(text, s))
             && bearer(text) == [] && keyed(text) == [Edit(|kept|, |value|)]
    ensures Redacted(kept + value + rest, secrets, bearer, keyed) == kept + REDACTED + rest
  {
    var text := kept + value + rest;
    var keeps, hits := [kept, rest], [value];
    assert keeps[1..] == [rest] && hits[1..] == [] && Copies(REDACTED, 1)[1..] == [];
    assert EditsOf(keeps, hits) == [Edit(|kept|, |value|)];
    assert EditsOf([text], []) == [] && Copies(SPACED, 0) == [];
    MatchesAreReplaced(text, secrets, bearer, keyed, [text], [], keeps, hits);
  }

  // ------------------------------------------------------------------ completeness

  lemma TailEndsInBearer(x: string, i: nat)
    requires EndsInBearer(x) && i + 7 <= |x|
    ensures EndsInBearer(x[i..])
  {
    var tail := x[i..];
    assert tail[|tail| - 6..] == x[|x| - 6..];
    assert tail[|tail| - 7] == x[|x| - 7];
  }

  /** Before the space that the first pattern writes there is nothing but what it kept. */
  lemma FoundBeforeMarker(kept: string, s: string)
    requires EndsInBearer(kept) && |s| >= MIN_SECRET && Contains(kept + [' '], s)
    ensures Contains(kept, s) || EndsInBearerSpace(s)
  {
    var t := kept + [' '];
    var i: nat :| OccursAt(t, s, i);
    if i + |s| <= |kept| {
      assert kept[i..i + |s|] == t[i..i + |s|];
      assert OccursAt(kept, s, i);
    } else {
      var init := s[..|s| - 1];
      assert init == t[i..i + |s|][..|s| - 1] == kept[i..];
      assert s[|s| - 1] == t[i..i + |s|][|s| - 1] == t[|kept|];
      TailEndsInBearer(kept, i);
    }
  }

  /** Nor does the first substitution create an unmistakable secret. */
  lemma {:induction false} BearerCreatesNothing(t: string, edits: seq<Edit>, s: string)
    requires Fit(t, edits) && KeepsBearer(t, edits) && |s| >= MIN_SECRET && Unmistakable(s)
    requires Contains(Rewrite(t, edits, SPACED), s)
    ensures Contains(t, s)
    decreases |edits|
  {
    if edits != [] {
      var kept, rest := t[..edits[0].copied], t[edits[0].copied + edits[0].dropped..];
      var after := Rewrite(rest, edits[1..], SPACED);
      assert kept + SPACED + after == kept + [' '] + REDACTED + after;
      NoStraddling(kept + [' '], REDACTED, after, s);
      if Contains(kept + [' '], s) {
        FoundBeforeMarker(kept, s);
        ContainsPart(t, 0, edits[0].copied, s);
      } else {
        BearerCreatesNothing(rest, edits[1..], s);
        ContainsRest(t, edits[0].copied + edits[0].dropped, s);
      }
    }
  }

  /** Redaction is complete: whatever the text, whatever else is configured and wherever the
      patterns match, no unmistakable secret is in the result. */
  lemma RedactionIsComplete(text: string, secrets: seq<string>, bearer: BearerMatcher, keyed: Matcher, s: string)
    requires "" !in secrets && s in secrets && |s| >= MIN_SECRET && Unmistakable(s)
    ensures !Contains(Redacted(text, secrets, bearer, keyed), s)
  {
    var scrubbed := ReplaceEach(text, secrets, REDACTED);
    var first := Rewrite(scrubbed, bearer(scrubbed), SPACED);
    if Contains(Redacted(text, secrets, bearer, keyed), s) {
      RewriteCreatesNothing(first, keyed(first), REDACTED, s);
      BearerCreatesNothing(scrubbed, bearer(scrubbed), s);
      ReplaceEachRemoves(text, secrets, REDACTED, s);
    }
  }

  /** The keys people configure are unmistakable: no space, no bracket, and not the marker's word. */
  lemma PlainKeysAreUnmistakable(s: string)
    requires |s| >= MIN_SECRET && ' ' !in s && '[' !in s && ']' !in s && s != "redacted"
    ensures Unmistakable(s)
  {
    ForeignWithoutBrackets(s);
  }

  lemma EndIsIn(s: string, m: string, j: nat)
    requires 1 <= j <= |m|
    ensures EndsWith(s, m[..j]) ==> m[0] in s
  {
    if EndsWith(s, m[..j]) {
      assert s[|s| - j..][0] == s[|s| - j];
    }
  }

  lemma StartIsIn(s: string, m: string, k: nat)
    requires k < |m|
    ensures m[k..] <= s ==> m[|m| - 1] in s
  {
    if m[k..] <= s {
      assert s[|m| - 1 - k] == m[k..][|m| - 1 - k];
    }
  }

  lemma ForeignWithoutBrackets(s: string)
    requires |s| >= MIN_SECRET && '[' !in s && ']' !in s && s != "redacted"
    ensures Foreign(s, REDACTED)
  {
    var m := REDACTED;
    assert m[0] == '[' && m[9] == ']' && |m| == 10;
    forall i: nat
      ensures !OccursAt(m, s, i)
    {
      OccursChar(m, s, i, 0);
      OccursChar(m, s, i, |s| - 1);
      assert m[1..1 + 8] == "redacted";
    }
    forall i: nat
      ensures !OccursAt(s, m, i)
    {
      OccursChar(s, m, i, 0);
    }
    forall k: nat | k < |m|
      ensures !(m[k..] <= s)
    {
      StartIsIn(s, m, k);
    }
    forall j: nat | 1 <= j <= |m|
      ensures !EndsWith(s, m[..j])
    {
      EndIsIn(s, m, j);
    }
  }

  /** Exactly the secrets foreign to the marker survive no text and no set of other secrets. The
      word "redacted" is one of the others: it comes back inside every marker. */
  lemma ScrubbingIsExact(s: string)
    requires |s| >= MIN_SECRET
    ensures Foreign(s, REDACTED) <==> AlwaysReplaced(s, REDACTED, MIN_SECRET)
    ensures !Foreign("redacted", REDACTED)
  {
    ForeignExactly(s, REDACTED, MIN_SECRET);
    var one := 1;
    assert OccursAt(REDACTED, "redacted", one);
  }

  // ------------------------------------------------------------------- exactness

  /** Whatever the text, the other secrets and the matches of the patterns, `s` is not in the result. */
  ghost predicate NeverShown(s: string) {
    forall text: string, secrets: seq<string>, bearer: BearerMatcher, keyed: Matcher ::
      s in secrets && AtLeast(secrets, MIN_SECRET) && "" !in secrets ==> !Contains(Redacted(text, secrets, bearer, keyed), s)
  }

  /** A secret that ends in `bearer ` is the other way to be mistaken. `word` is all of it but the
      space; a match that ends in `cut` has the first pattern put the space back. */
  lemma TrailingSpaceLeaks(word: string, cut: string, bearer: BearerMatcher, keyed: Matcher)
    requires ' ' !in cut
    requires bearer(word + cut) == [Edit(|word|, |cut|)]
    requires keyed(word + SPACED) == []
    ensures !Contains(word + cut, word + [' '])
    ensures Contains(Redacted(word + cut, [word + [' ']], bearer, keyed), word + [' '])
  {
    var s, text := word + [' '], word + cut;
    NotBeforeTheCut(word, cut);
    assert Find(text, s) == None;
    OnePass(text, s, REDACTED);
    assert text[..|word|] == word && text[|word| + |cut|..] == "" && [Edit(|word|, |cut|)][1..] == [];
    var first := word + SPACED;
    assert Rewrite(text, bearer(text), SPACED) == first + "" == first;
    var start := 0;
    assert first[start..|s|] == s;
    assert OccursAt(first, s, start);
  }

  lemma NotBeforeTheCut(word: string, cut: string)
    requires ' ' !in cut
    ensures !Contains(word + cut, word + [' '])
  {
    var s, text := word + [' '], word + cut;
    forall i: nat
      ensures !OccursAt(text, s, i)
    {
      if i + |s| <= |text| {
        OccursChar(text, s, i, |word|);
        assert text[i + |word|] == cut[i];
      }
    }
  }

  /** Matches exactly the end of one text, after the word it ends in. */
  function Only(word: string, cut: string): (m: BearerMatcher)
    requires EndsInBearer(word)
    ensures m(word + cut) == [Edit(|word|, |cut|)]
  {
    OneMatch(word, cut, [Edit(|word|, |cut|)]);
    (t: string) => if t == word + cut then [Edit(|word|, |cut|)] else []
  }

  lemma OneMatch(word: string, cut: string, edits: seq<Edit>)
    requires EndsInBearer(word) && edits == [Edit(|word|, |cut|)]
    ensures Fit(word + cut, edits) && KeepsBearer(word + cut, edits)
  {
    assert (word + cut)[..|word|] == word && edits[1..] == [];
  }

  function Never(): (m: Matcher)
    ensures forall t :: m(t) == []
  {
    (t: string) => []
  }

  function NeverBearer(): (m: BearerMatcher)
    ensures forall t :: m(t) == []
  {
    (t: string) => []
  }

  const CUT: string := "\tabcdefgh"

  lemma Shown(text: string, secrets: seq<string>, bearer: BearerMatcher, keyed: Matcher, s: string)
    requires s in secrets && AtLeast(secrets, MIN_SECRET) && "" !in secrets
    requires Contains(Redacted(text, secrets, bearer, keyed), s)
    ensures !NeverShown(s)
  {
  }

  /** With no match anywhere, only the replacements are left. */
  lemma Unmatched(text: string, secrets: seq<string>)
    requires "" !in secrets
    ensures Redacted(text, secrets, NeverBearer(), Never()) == ReplaceEach(text, secrets, REDACTED)
  {
  }

  /** Every other secret shows in some text: one that overlaps the marker through the replacements
      alone, one that ends in `bearer ` through the first pattern. */
  lemma MistakableShows(s: string)
    requires |s| >= MIN_SECRET && !Unmistakable(s)
    ensures !NeverShown(s)
  {
    if Foreign(s, REDACTED) {
      ShowsAfterBearer(s, s[..|s| - 1]);
    } else {
      ShowsUnmatched(s);
    }
  }

  lemma ShowsUnmatched(s: string)
    requires |s| >= MIN_SECRET && !Foreign(s, REDACTED)
    ensures !NeverShown(s)
  {
    var t, secrets := Survivor(s, REDACTED, MIN_SECRET);
    Unmatched(t, secrets);
    Shown(t, secrets, NeverBearer(), Never(), s);
  }

  lemma ShowsAfterBearer(s: string, word: string)
    requires |s| >= MIN_SECRET && s == word + [' '] && EndsInBearer(word)
    ensures !NeverShown(s)
  {
    TrailingSpaceLeaks(word, CUT, Only(word, CUT), Never());
    Shown(word + CUT, [s], Only(word, CUT), Never(), s);
  }

  /** The exact condition: a secret of eight characters or more never shows, if and only if it is
      unmistakable. */
  lemma RedactionIsExact(s: string)
    requires |s| >= MIN_SECRET
    ensures Unmistakable(s) <==> NeverShown(s)
  {
    if Unmistakable(s) {
      forall text: string, secrets: seq<string>, bearer: BearerMatcher, keyed: Matcher
        | s in secrets && AtLeast(secrets, MIN_SECRET) && "" !in secrets
        ensures !Contains(Redacted(text, secrets, bearer, keyed), s)
      {
        RedactionIsComplete(text, secrets, bearer, keyed, s);
      }
    } else {
      MistakableShows(s);
    }
  }

  /** For instance: the text does not hold the secret, its redaction does. */
  lemma MyBearerShows()
    ensures !Contains("my bearer\tabcdefgh", "my bearer ")
    ensures var bearer := Only("my bearer", CUT);
            Contains(Redacted("my bearer\tabcdefgh", ["my bearer "], bearer, Never()), "my bearer ")
  {
    assert "my bearer" + CUT == "my bearer\tabcdefgh" && "my bearer" + [' '] == "my bearer ";
    TrailingSpaceLeaks("my bearer", CUT, Only("my bearer", CUT), Never());
  }

  /** The word counts in any case, but only as a whole: a secret in which letters run into it is safe. */
  lemma OnlyTheWholeWord()
    ensures EndsInBearer("my BEARer") && !EndsInBearer("mybearer")
    ensures NeverShown("mybearer ")
  {
    var s := "mybearer ";
    assert "my BEARer"[3..] == "BEARer";
    assert s[..8] == "mybearer";
    assert !IsWord("my BEARer"[2]) && IsWord("mybearer"[1]);
    ForeignWithoutBrackets(s);
    RedactionIsExact(s);
  }

  // --------------------------------------------------------------------- the filter

  /** One string after the other: the order is kept, and so are repetitions. */
  lemma {:induction false} WorthMatchingInOrder(a: seq<string>, b: seq<string>)
    ensures WorthMatching(a + b) == WorthMatching(a) + WorthMatching(b)
    decreases |a|
  {
    if a == [] {
      assert a + b == b;
    } else {
      assert (a + b)[1..] == a[1..] + b;
      WorthMatchingInOrder(a[1..], b);
    }
  }

  lemma WorthMatchingOne(s: string)
    ensures WorthMatching([s]) == if |s| >= MIN_SECRET then [s] else []
  {
    assert [s][1..] == [];
  }

  /** Exactly the strings long enough to be worth matching, in the order configured. */
  function WorthMatching(configured: seq<string>): (kept: seq<string>)
    ensures AtLeast(kept, MIN_SECRET)
    ensures forall s :: s in kept <==> s in configured && |s| >= MIN_SECRET
  {
    if configured == [] then []
    else
      var rest := WorthMatching(configured[1..]);
      assert forall s :: s in configured ==> s == configured[0] || s in configured[1..];
      if |configured[0]| >= MIN_SECRET then [configured[0]] + rest else rest
  }

  class RedactingFilter {
    var secrets: seq<string>

    ghost predicate Valid()
      reads this
    {
      AtLeast(secrets, MIN_SECRET)
    }

    constructor (configured: seq<string>)
      ensures Valid() && secrets == WorthMatching(configured)
    {
      secrets := WorthMatching(configured);
    }

    method AddSecret(secret: string)
      requires Valid()
      modifies this
      ensures Valid()
      ensures secrets == if |secret| >= MIN_SECRET && secret !in old(secrets) then old(secrets) + [secret] else old(secrets)
    {
      if |secret| >= MIN_SECRET && secret !in secrets {
        secrets := secrets + [secret];
      }
    }

    method Redact(text: string, bearer: BearerMatcher, keyed: Matcher) returns (r: string)
      requires Valid()
      ensures r == Redacted(text, secrets, bearer, keyed)
      ensures forall s :: s in secrets && Unmistakable(s) ==> !Contains(r, s)
    {
      r := text;
      for i := 0 to |secrets|
        invariant ReplaceEach(r, secrets[i..], REDACTED) == ReplaceEach(text, secrets, REDACTED)
      {
        assert secrets[i..][0] == secrets[i] && secrets[i..][1..] == secrets[i + 1..];
        r := ReplaceAll(r, secrets[i], REDACTED);
      }
      r := Rewrite(r, bearer(r), SPACED);
      r := Rewrite(r, keyed(r), REDACTED);
      forall s | s in secrets && Unmistakable(s)
        ensures !Contains(r, s)
      {
        RedactionIsComplete(text, secrets, bearer, keyed, s);
      }
    }
  }
}
