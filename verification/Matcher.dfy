/**
 Candidate matching on ASCII text. The one-pass matcher (tail prefilter,
 comparison budget, deferred search, greedy scan) is proved equal to the simple
 layered definition, and a match exists exactly for subsequences.
 */
module Matcher {
  import opened Wrappers

  const MAX_ASCII_SUBSTRING_COMPARISONS: nat := 64 * 1024

  datatype MatchClass = Exact | Prefix | CaseInsensitivePrefix | Substring | Fuzzy

  datatype Match = Match(matchClass: MatchClass, score: int)

  predicate IsAscii(s: string) {
    forall i :: 0 <= i < |s| ==> s[i] < 128 as char
  }

  function FoldChar(c: char): char {
    if 'A' <= c <= 'Z' then c + 32 as char else c
  }

  function Fold(s: string): (r: string)
    ensures |r| == |s|
  {
    seq(|s|, i requires 0 <= i < |s| => FoldChar(s[i]))
  }

  // ---------------------------------------------------------------------
  // The simple definition
  // ---------------------------------------------------------------------

  predicate OccursAt(query: string, candidate: string, i: nat) {
    i + |query| <= |candidate| && Fold(candidate[i..i + |query|]) == Fold(query)
  }

  /** The first case-folded occurrence at or after `i`. */
  function FirstOccurrence(query: string, candidate: string, i: nat): Option<nat>
    decreases |candidate| - i
  {
    if i > |candidate| then None
    else if OccursAt(query, candidate, i) then Some(i)
    else FirstOccurrence(query, candidate, i + 1)
  }

  function IndexOf(c: char, s: string, i: nat): (r: Option<nat>)
    ensures r.Some? ==> i <= r.value < |s| && s[r.value] == c
    ensures forall j :: i <= j < |s| && (r.Some? ==> j < r.value) ==> s[j] != c
    decreases |s| - i
  {
    if i >= |s| then None else if s[i] == c then Some(i) else IndexOf(c, s, i + 1)
  }

  /** The greedy embedding of `query` into `s` that starts at or after `i`. */
  function Leftmost(query: string, s: string, i: nat): Option<seq<nat>> {
    if query == [] then Some([])
    else
      match IndexOf(query[0], s, i)
      case None => None
      case Some(j) =>
        match Leftmost(query[1..], s, j + 1)
        case None => None
        case Some(rest) => Some([j] + rest)
  }

  function Adjacent(positions: seq<nat>): nat {
    if |positions| < 2 then 0
    else Adjacent(positions[..|positions| - 1]) +
         if positions[|positions| - 1] == positions[|positions| - 2] + 1 then 1 else 0
  }

  /** 100 a character, 25 an adjacent pair, minus 10 a skipped character and 1 a candidate character. */
  function PositionsScore(positions: seq<nat>, length: nat): int {
    100 * |positions| + 25 * Adjacent(positions)
    - 10 * (if positions == [] then 0 else positions[|positions| - 1] + 1 - |positions|)
    - length
  }

  function SimpleFuzzy(query: string, candidate: string): Option<int> {
    match Leftmost(Fold(query), Fold(candidate), 0)
    case None => None
    case Some(positions) => Some(PositionsScore(positions, |candidate|))
  }

  /** The layers below a prefix match. */
  function BelowPrefix(query: string, candidate: string): Option<Match> {
    match FirstOccurrence(query, candidate, 0)
    case Some(position) => Some(Match(Substring, 2_000_000 - position * 32 - |candidate|))
    case None =>
      match SimpleFuzzy(query, candidate)
      case Some(score) => Some(Match(Fuzzy, 1_000_000 + score))
      case None => None
  }

  function SimpleScore(query: string, candidate: string): Option<Match> {
    if |query| <= |candidate| && candidate[..|query|] == query then
      if |candidate| == |query| then Some(Match(Exact, 5_000_000))
      else Some(Match(Prefix, 4_000_000 - (|candidate| - |query|)))
    else if OccursAt(query, candidate, 0) then
      Some(Match(CaseInsensitivePrefix, 3_000_000 - (|candidate| - |query|)))
    else BelowPrefix(query, candidate)
  }

  // ---------------------------------------------------------------------
  // Greedy embeddings
  // ---------------------------------------------------------------------

  ghost predicate Embeds(positions: seq<nat>, query: string, s: string, i: nat) {
    && |positions| == |query|
    && (forall k :: 0 <= k < |positions| ==> i <= positions[k] < |s| && s[positions[k]] == query[k])
    && (forall k, l :: 0 <= k < l < |positions| ==> positions[k] < positions[l])
  }

  ghost predicate Subsequence(query: string, s: string) {
    exists positions :: Embeds(positions, query, s, 0)
  }

  lemma {:induction false} LeftmostEmbeds(query: string, s: string, i: nat)
    ensures Leftmost(query, s, i).Some? ==> Embeds(Leftmost(query, s, i).value, query, s, i)
  {
    if query != [] {
      var j := IndexOf(query[0], s, i);
      if j.Some? {
        LeftmostEmbeds(query[1..], s, j.value + 1);
      }
    }
  }

  /** The greedy search finds an embedding whenever there is one, and no embedding is further left anywhere. */
  lemma {:induction false} LeftmostIsLeast(query: string, s: string, i: nat, p: seq<nat>)
    requires Embeds(p, query, s, i)
    ensures var r := Leftmost(query, s, i);
      r.Some? && |r.value| == |p| && forall k :: 0 <= k < |p| ==> r.value[k] <= p[k]
  {
    if query != [] {
      assert s[p[0]] == query[0];
      var j := IndexOf(query[0], s, i).value;
      LeftmostIsLeast(query[1..], s, j + 1, p[1..]);
      var rest := Leftmost(query[1..], s, j + 1).value;
      forall k | 0 < k < |p| ensures rest[k - 1] <= p[k] {
        assert p[1..][k - 1] == p[k];
      }
    }
  }

  lemma OccurrenceIsSubsequence(query: string, candidate: string, i: nat)
    requires OccursAt(query, candidate, i)
    ensures Subsequence(Fold(query), Fold(candidate))
  {
    var positions := seq(|query|, k requires 0 <= k < |query| => i + k);
    forall k | 0 <= k < |query|
      ensures Fold(candidate)[positions[k]] == Fold(query)[k]
    {
      assert Fold(candidate[i..i + |query|])[k] == Fold(query)[k];
    }
    assert Embeds(positions, Fold(query), Fold(candidate), 0);
  }

  lemma {:induction false} FirstOccurrenceOccurs(query: string, candidate: string, i: nat)
    ensures var r := FirstOccurrence(query, candidate, i);
      && (r.Some? ==> i <= r.value && OccursAt(query, candidate, r.value))
      && (forall j :: i <= j && (r.Some? ==> j < r.value) ==> !OccursAt(query, candidate, j))
    decreases |candidate| - i
  {
    if i <= |candidate| && !OccursAt(query, candidate, i) {
      FirstOccurrenceOccurs(query, candidate, i + 1);
    }
  }

  /** A candidate matches exactly when the folded query is a subsequence of the folded candidate. */
  lemma MatchesIffSubsequence(query: string, candidate: string)
    ensures SimpleScore(query, candidate).Some? <==> Subsequence(Fold(query), Fold(candidate))
  {
    LeftmostEmbeds(Fold(query), Fold(candidate), 0);
    if Subsequence(Fold(query), Fold(candidate)) {
      var p :| Embeds(p, Fold(query), Fold(candidate), 0);
      LeftmostIsLeast(Fold(query), Fold(candidate), 0, p);
    }
    FirstOccurrenceOccurs(query, candidate, 0);
    if |query| <= |candidate| && candidate[..|query|] == query {
      assert candidate[0..|query|] == query;
      OccurrenceIsSubsequence(query, candidate, 0);
    } else if OccursAt(query, candidate, 0) {
      OccurrenceIsSubsequence(query, candidate, 0);
    } else if FirstOccurrence(query, candidate, 0).Some? {
      OccurrenceIsSubsequence(query, candidate, FirstOccurrence(query, candidate, 0).value);
    } else if SimpleFuzzy(query, candidate).Some? {
      assert Embeds(Leftmost(Fold(query), Fold(candidate), 0).value, Fold(query), Fold(candidate), 0);
    }
  }

  // ---------------------------------------------------------------------
  // The implementation's loops
  // ---------------------------------------------------------------------

  /** Prepends the positions already taken to the outcome of the remaining search. */
  function Resume(taken: seq<nat>, rest: Option<seq<nat>>): Option<seq<nat>> {
    match rest
    case None => None
    case Some(positions) => Some(taken + positions)
  }

  /** The counters of a greedy scan that has taken `positions`. */
  ghost predicate Tallies(positions: seq<nat>, matched: int, consecutive: int, gapPenalty: int, previous: Option<nat>) {
    && matched == |positions|
    && consecutive == Adjacent(positions)
    && (if positions == [] then previous.None? && gapPenalty == 0
        else previous == Some(positions[|positions| - 1]) && gapPenalty == previous.value + 1 - |positions|)
  }

  /** A scan that has taken `positions` and seeks the rest of the query from `i` on will reach the greedy embedding. */
  ghost predicate OnTrack(query: string, s: string, i: nat, positions: seq<nat>) {
    && |positions| < |query|
    && (positions != [] ==> positions[|positions| - 1] < i)
    && Leftmost(query, s, 0) == Resume(positions, Leftmost(query[|positions|..], s, i))
  }

  lemma Skip(query: string, s: string, i: nat, positions: seq<nat>)
    requires OnTrack(query, s, i, positions) && i < |s| && s[i] != query[|positions|]
    ensures OnTrack(query, s, i + 1, positions)
  {
    assert query[|positions|..][0] == query[|positions|];
  }

  lemma TakePosition(query: string, s: string, i: nat, positions: seq<nat>)
    requires OnTrack(query, s, i, positions) && i < |s| && s[i] == query[|positions|]
    ensures |positions| + 1 < |query| ==> OnTrack(query, s, i + 1, positions + [i])
    ensures |positions| + 1 == |query| ==> Leftmost(query, s, 0) == Some(positions + [i])
  {
    var n := |positions|;
    LeftmostHere(query[n..], s, i);
    assert query[n..][1..] == query[n + 1..];
    ResumeTwice(positions, [i], Leftmost(query[n + 1..], s, i + 1));
    if n + 1 == |query| {
      assert query[n + 1..] == [];
      assert Resume(positions + [i], Some([])).value == positions + [i];
    }
  }

  lemma LeftmostHere(query: string, s: string, i: nat)
    requires query != [] && i < |s| && s[i] == query[0]
    ensures Leftmost(query, s, i) == Resume([i], Leftmost(query[1..], s, i + 1))
  {
  }

  lemma ResumeTwice(a: seq<nat>, b: seq<nat>, rest: Option<seq<nat>>)
    ensures Resume(a, Resume(b, rest)) == Resume(a + b, rest)
  {
    if rest.Some? {
      assert a + (b + rest.value) == a + b + rest.value;
    }
  }

  /** The mutable part of a greedy scan: the next query index and its character, and the counters. */
  datatype Scan = Scan(queryIndex: nat, current: char, matched: int, gapPenalty: int, consecutive: int, previous: Option<nat>)

  ghost predicate Tracking(query: string, candidate: string, index: nat, scan: Scan, positions: seq<nat>) {
    && OnTrack(Fold(query), Fold(candidate), index, positions)
    && scan.queryIndex == |positions| + 1
    && scan.current == Fold(query)[|positions|]
    && Tallies(positions, scan.matched, scan.consecutive, scan.gapPenalty, scan.previous)
  }

  /** One matching character, counted as both loops count it. */
  method Tally(scan: Scan, index: nat, ghost positions: seq<nat>) returns (r: Scan)
    requires Tallies(positions, scan.matched, scan.consecutive, scan.gapPenalty, scan.previous)
    requires scan.previous.Some? ==> scan.previous.value < index
    ensures Tallies(positions + [index], r.matched, r.consecutive, r.gapPenalty, r.previous)
    ensures r.queryIndex == scan.queryIndex && r.current == scan.current
  {
    assert (positions + [index])[..|positions|] == positions;
    r := scan.(matched := scan.matched + 1, previous := Some(index));
    if scan.previous == Some(if index == 0 then 0 else index - 1) {
      r := r.(consecutive := scan.consecutive + 1);
    } else if scan.previous.Some? {
      r := r.(gapPenalty := scan.gapPenalty + (index - (scan.previous.value + 1)));
    } else {
      r := r.(gapPenalty := scan.gapPenalty + index);
    }
  }

  /** One iteration of the greedy scan; `score` is set when the last query character is taken. */
  method Visit(query: string, candidate: string, index: nat, scan: Scan, ghost positions: seq<nat>)
    returns (r: Scan, score: Option<int>, ghost taken: seq<nat>)
    requires index < |candidate| && Tracking(query, candidate, index, scan, positions)
    ensures score.None? ==> Tracking(query, candidate, index + 1, r, taken)
    ensures score.Some? ==> score == SimpleFuzzy(query, candidate)
  {
    score := None;
    taken := positions;
    if FoldChar(candidate[index]) != scan.current {
      Skip(Fold(query), Fold(candidate), index, positions);
      return scan, None, positions;
    }
    TakePosition(Fold(query), Fold(candidate), index, positions);
    r := Tally(scan, index, positions);
    taken := positions + [index];
    if scan.queryIndex == |query| {
      score := Some(r.matched * 100 + r.consecutive * 25 - r.gapPenalty * 10 - |candidate|);
    } else {
      r := r.(current := FoldChar(query[scan.queryIndex]), queryIndex := scan.queryIndex + 1);
    }
  }

  lemma StartTrack(query: string, s: string)
    requires query != ""
    ensures OnTrack(query, s, 0, [])
  {
    assert query[0..] == query;
    if Leftmost(query, s, 0).Some? {
      assert [] + Leftmost(query, s, 0).value == Leftmost(query, s, 0).value;
    }
  }

  lemma ExhaustedTrack(query: string, s: string, positions: seq<nat>)
    requires OnTrack(query, s, |s|, positions)
    ensures Leftmost(query, s, 0).None?
  {
  }

  /** The plain greedy scan. */
  method FuzzyScore(query: string, candidate: string) returns (score: Option<int>)
    requires IsAscii(query) && IsAscii(candidate)
    ensures score == SimpleFuzzy(query, candidate)
  {
    if query == "" {
      return Some(-|candidate|);
    }
    ghost var positions: seq<nat> := [];
    var scan := Scan(1, FoldChar(query[0]), 0, 0, 0, None);
    StartTrack(Fold(query), Fold(candidate));
    for index := 0 to |candidate|
      invariant Tracking(query, candidate, index, scan, positions)
    {
      scan, score, positions := Visit(query, candidate, index, scan, positions);
      if score.Some? {
        return;
      }
    }
    ExhaustedTrack(Fold(query), Fold(candidate), positions);
    return None;
  }

  method EqualFold(left: string, right: string) returns (equal: bool)
    ensures equal <==> Fold(left) == Fold(right)
  {
    if |left| != |right| {
      return false;
    }
    for i := 0 to |left|
      invariant forall k :: 0 <= k < i ==> Fold(left)[k] == Fold(right)[k]
    {
      if FoldChar(left[i]) != FoldChar(right[i]) {
        assert Fold(left)[i] != Fold(right)[i];
        return false;
      }
    }
    return true;
  }

  method ContainsFolded(c: char, s: string) returns (found: bool)
    ensures found <==> c in Fold(s)
  {
    for i := 0 to |s|
      invariant forall k :: 0 <= k < i ==> Fold(s)[k] != c
    {
      if FoldChar(s[i]) == c {
        assert Fold(s)[i] == c;
        return true;
      }
    }
    return false;
  }

  /** The tail prefilter rejects only candidates that nothing could match. */
  lemma TailPrefilterIsSound(query: string, candidate: string)
    requires query != ""
    ensures SimpleScore(query, candidate).Some? ==> Fold(query)[|query| - 1] in Fold(candidate)
  {
    MatchesIffSubsequence(query, candidate);
    if Subsequence(Fold(query), Fold(candidate)) {
      var p :| Embeds(p, Fold(query), Fold(candidate), 0);
      assert Fold(candidate)[p[|query| - 1]] == Fold(query)[|query| - 1];
    }
  }

  /** Folding only ever produces lower-case letters, so any other character is found by plain comparison. */
  lemma NonLetterIsNotFolded(c: char, s: string)
    requires !('a' <= c <= 'z') && !('A' <= c <= 'Z')
    ensures c in Fold(s) <==> c in s
  {
    if c in Fold(s) {
      var i :| 0 <= i < |s| && Fold(s)[i] == c;
      assert s[i] == c;
    }
    if c in s {
      var i :| 0 <= i < |s| && s[i] == c;
      assert Fold(s)[i] == c;
    }
  }

  /** A window whose first character differs is not an occurrence. */
  lemma WindowHead(query: string, candidate: string, i: nat)
    requires query != "" && OccursAt(query, candidate, i)
    ensures i < |candidate| && FoldChar(candidate[i]) == FoldChar(query[0])
  {
    assert Fold(candidate[i..i + |query|])[0] == Fold(query)[0];
  }

  /** What is known of the occurrences before `index`: the first one, none, or (deferred) nothing. */
  ghost predicate SearchedUpTo(query: string, candidate: string, index: nat, position: Option<nat>, deferred: bool) {
    match position
    case Some(found) =>
      OccursAt(query, candidate, found) && forall j: nat :: j < found ==> !OccursAt(query, candidate, j)
    case None =>
      deferred || forall j: nat :: j < index ==> !OccursAt(query, candidate, j)
  }

  lemma SearchResult(query: string, candidate: string, position: Option<nat>)
    requires query != "" && SearchedUpTo(query, candidate, |candidate|, position, false)
    ensures position == FirstOccurrence(query, candidate, 0)
  {
    FirstOccurrenceOccurs(query, candidate, 0);
  }

  method Find(query: string, candidate: string) returns (position: Option<nat>)
    requires query != ""
    ensures position == FirstOccurrence(query, candidate, 0)
  {
    FirstOccurrenceOccurs(query, candidate, 0);
    for i := 0 to |candidate| + 1
      invariant forall j: nat :: j < i ==> !OccursAt(query, candidate, j)
    {
      if i + |query| <= |candidate| {
        var equal := EqualFold(candidate[i..i + |query|], query);
        if equal {
          SearchResult(query, candidate, Some(i));
          return Some(i);
        }
      }
    }
    return None;
  }

  method TailPrefilter(query: string, candidate: string) returns (hopeless: bool)
    requires query != ""
    ensures hopeless ==> SimpleScore(query, candidate).None?
  {
    if |query| < 3 {
      return false;
    }
    var last := FoldChar(query[|query| - 1]);
    TailPrefilterIsSound(query, candidate);
    if 'a' <= last <= 'z' {
      var contains := ContainsFolded(last, candidate);
      return !contains;
    }
    NonLetterIsNotFolded(last, candidate);
    return last !in candidate;
  }

  /** One iteration of the budgeted occurrence search. */
  method SearchStep(query: string, candidate: string, index: nat, position: Option<nat>, deferred: bool, work: nat)
    returns (position': Option<nat>, deferred': bool, work': nat)
    requires query != "" && index < |candidate| && (index == 0 ==> !OccursAt(query, candidate, 0))
    requires SearchedUpTo(query, candidate, index, position, deferred)
    ensures SearchedUpTo(query, candidate, index + 1, position', deferred')
    ensures work' <= work && (position'.Some? || deferred' || work' == work || work' + |query| == work)
  {
    position', deferred', work' := position, deferred, work;
    if index != 0 && position.None? && !deferred && FoldChar(candidate[index]) == FoldChar(query[0]) {
      if |query| > work {
        deferred' := true;
      } else {
        work' := work - |query|;
        if index + |query| <= |candidate| {
          var equal := EqualFold(candidate[index..index + |query|], query);
          if equal {
            position' := Some(index);
          }
        }
      }
    } else if OccursAt(query, candidate, index) {
      WindowHead(query, candidate, index);
    }
  }

  /** The pass over the candidate: an occurrence, unless the search is put off, and the greedy embedding. */
  method OnePass(query: string, candidate: string, budget: nat)
    returns (position: Option<nat>, deferred: bool, fuzzy: Option<int>)
    requires IsAscii(query) && IsAscii(candidate)
    requires query != "" && !OccursAt(query, candidate, 0)
    ensures SearchedUpTo(query, candidate, |candidate|, position, deferred)
    ensures fuzzy == SimpleFuzzy(query, candidate)
  {
    position, deferred := None, false;
    var work := budget;
    var scan := Scan(1, FoldChar(query[0]), 0, 0, 0, None);
    fuzzy := None;
    ghost var positions: seq<nat> := [];
    StartTrack(Fold(query), Fold(candidate));
    for index := 0 to |candidate|
      invariant SearchedUpTo(query, candidate, index, position, deferred)
      invariant fuzzy.Some? ==> fuzzy == SimpleFuzzy(query, candidate)
      invariant fuzzy.None? ==> Tracking(query, candidate, index, scan, positions)
    {
      position, deferred, work := SearchStep(query, candidate, index, position, deferred, work);
      if fuzzy.None? {
        scan, fuzzy, positions := Visit(query, candidate, index, scan, positions);
      }
    }
    if fuzzy.None? {
      ExhaustedTrack(Fold(query), Fold(candidate), positions);
    }
  }

  /**
   The one-pass matcher for candidates that do not match as a prefix. `budget`
   bounds the characters compared while looking for an occurrence; once it is
   spent the search is left to one bounded search afterwards.
   */
  method MatchSubstringAndFuzzy(query: string, candidate: string, budget: nat) returns (r: Option<Match>)
    requires IsAscii(query) && IsAscii(candidate)
    requires query != "" && !OccursAt(query, candidate, 0)
    ensures r == BelowPrefix(query, candidate) == SimpleScore(query, candidate)
  {
    NotAPrefix(query, candidate);
    var hopeless := TailPrefilter(query, candidate);
    if hopeless {
      return None;
    }
    var position, deferred, fuzzy := OnePass(query, candidate, budget);
    if position.None? && deferred {
      position := Find(query, candidate);
    } else {
      SearchResult(query, candidate, position);
    }
    if position.Some? {
      return Some(Match(Substring, 2_000_000 - position.value * 32 - |candidate|));
    }
    if fuzzy.Some? {
      return Some(Match(Fuzzy, 1_000_000 + fuzzy.value));
    }
    return None;
  }

  lemma NotAPrefix(query: string, candidate: string)
    requires !OccursAt(query, candidate, 0)
    ensures SimpleScore(query, candidate) == BelowPrefix(query, candidate)
  {
    if |query| <= |candidate| {
      assert candidate[0..|query|] == candidate[..|query|];
    }
  }

  // ---------------------------------------------------------------------
  // What a match means
  // ---------------------------------------------------------------------

  predicate SameLetter(c: char, d: char) {
    || c == d
    || ('a' <= c <= 'z' && 'A' <= d <= 'Z' && c as int == d as int + 32)
    || ('A' <= c <= 'Z' && 'a' <= d <= 'z' && d as int == c as int + 32)
  }

  predicate Alike(a: string, b: string) {
    |a| == |b| && forall i :: 0 <= i < |a| ==> SameLetter(a[i], b[i])
  }

  predicate FoundAt(query: string, candidate: string, i: nat) {
    i + |query| <= |candidate| && Alike(candidate[i..i + |query|], query)
  }

  /** The characters of the query, in order but not necessarily together. */
  ghost predicate Chosen(positions: seq<nat>, query: string, candidate: string) {
    && |positions| == |query|
    && (forall k :: 0 <= k < |positions| ==> positions[k] < |candidate| && SameLetter(candidate[positions[k]], query[k]))
    && (forall k, l :: 0 <= k < l < |positions| ==> positions[k] < positions[l])
  }

  ghost predicate Scattered(query: string, candidate: string) {
    exists positions :: Chosen(positions, query, candidate)
  }

  predicate Adjoins(positions: seq<nat>, k: int) {
    0 < k < |positions| && positions[k] == positions[k - 1] + 1
  }

  /** The query characters that are chosen right behind the one before. */
  function Neighbours(positions: seq<nat>): set<nat> {
    set k: nat | k < |positions| && Adjoins(positions, k)
  }

  /** No choice has any character further left. */
  ghost predicate Leading(positions: seq<nat>, query: string, candidate: string) {
    && Chosen(positions, query, candidate)
    && forall other, k :: Chosen(other, query, candidate) && 0 <= k < |positions| ==> positions[k] <= other[k]
  }

  ghost predicate FirstAt(query: string, candidate: string, i: nat) {
    FoundAt(query, candidate, i) && forall j: nat :: j < i ==> !FoundAt(query, candidate, j)
  }

  ghost predicate FuzzyScored(query: string, candidate: string, score: int) {
    exists positions ::
      && positions != [] && Leading(positions, query, candidate)
      && score == 1_000_000 + 100 * |query| + 25 * |Neighbours(positions)|
                  - 10 * (positions[|positions| - 1] + 1 - |positions|) - |candidate|
  }

  /** The result that a query must have on a candidate. */
  ghost predicate Explains(query: string, candidate: string, r: Option<Match>) {
    match r
    case None => !Scattered(query, candidate)
    case Some(Match(Exact, score)) => candidate == query && score == 5_000_000
    case Some(Match(Prefix, score)) => query < candidate && score == 4_000_000 - (|candidate| - |query|)
    case Some(Match(CaseInsensitivePrefix, score)) =>
      && FoundAt(query, candidate, 0) && !(query <= candidate)
      && score == 3_000_000 - (|candidate| - |query|)
    case Some(Match(Substring, score)) =>
      exists i: nat :: 0 < i && FirstAt(query, candidate, i) && score == 2_000_000 - 32 * i - |candidate|
    case Some(Match(Fuzzy, score)) =>
      (forall i: nat :: !FoundAt(query, candidate, i)) && FuzzyScored(query, candidate, score)
  }

  lemma FoldIsSameLetter(c: char, d: char)
    ensures FoldChar(c) == FoldChar(d) <==> SameLetter(c, d)
  {
  }

  lemma FoldIsAlike(a: string, b: string)
    ensures Fold(a) == Fold(b) <==> Alike(a, b)
  {
    if |a| == |b| {
      forall i | 0 <= i < |a| ensures Fold(a)[i] == Fold(b)[i] <==> SameLetter(a[i], b[i]) {
        FoldIsSameLetter(a[i], b[i]);
      }
      hide FoldChar, SameLetter;
      if Alike(a, b) {
        assert forall i :: 0 <= i < |a| ==> Fold(a)[i] == Fold(b)[i];
      }
    }
  }

  lemma OccursIsFound(query: string, candidate: string, i: nat)
    ensures OccursAt(query, candidate, i) <==> FoundAt(query, candidate, i)
  {
    if i + |query| <= |candidate| {
      FoldIsAlike(candidate[i..i + |query|], query);
    }
  }

  lemma EmbedsIsChosen(positions: seq<nat>, query: string, candidate: string)
    ensures Embeds(positions, Fold(query), Fold(candidate), 0) <==> Chosen(positions, query, candidate)
  {
    forall c, d ensures FoldChar(c) == FoldChar(d) <==> SameLetter(c, d) {
      FoldIsSameLetter(c, d);
    }
    hide FoldChar, SameLetter;
  }

  lemma SubsequenceIsScattered(query: string, candidate: string)
    ensures Subsequence(Fold(query), Fold(candidate)) <==> Scattered(query, candidate)
  {
    forall positions ensures Embeds(positions, Fold(query), Fold(candidate), 0) <==> Chosen(positions, query, candidate) {
      EmbedsIsChosen(positions, query, candidate);
    }
    hide Embeds, Chosen;
    if Subsequence(Fold(query), Fold(candidate)) {
      var p :| Embeds(p, Fold(query), Fold(candidate), 0);
      assert Chosen(p, query, candidate);
    }
    if Scattered(query, candidate) {
      var p :| Chosen(p, query, candidate);
      assert Embeds(p, Fold(query), Fold(candidate), 0);
    }
  }

  lemma {:induction false} AdjacentCounts(positions: seq<nat>)
    ensures Adjacent(positions) == |Neighbours(positions)|
  {
    if |positions| < 2 {
      assert Neighbours(positions) == {};
    } else {
      var n := |positions| - 1;
      AdjacentCounts(positions[..n]);
      if positions[n] == positions[n - 1] + 1 {
        assert Neighbours(positions) == Neighbours(positions[..n]) + {n};
      } else {
        assert Neighbours(positions) == Neighbours(positions[..n]);
      }
    }
  }

  lemma FuzzyIsScored(query: string, candidate: string)
    requires query != ""
    ensures match SimpleFuzzy(query, candidate)
      case None => !Scattered(query, candidate)
      case Some(score) => Scattered(query, candidate) && FuzzyScored(query, candidate, 1_000_000 + score)
  {
    SubsequenceIsScattered(query, candidate);
    LeftmostEmbeds(Fold(query), Fold(candidate), 0);
    var r := Leftmost(Fold(query), Fold(candidate), 0);
    if r.None? {
      if Subsequence(Fold(query), Fold(candidate)) {
        var p :| Embeds(p, Fold(query), Fold(candidate), 0);
        LeftmostIsLeast(Fold(query), Fold(candidate), 0, p);
      }
    } else {
      LeftmostLeads(query, candidate);
      AdjacentCounts(r.value);
      hide Leading, Leftmost, Adjacent;
    }
  }

  lemma LeftmostLeads(query: string, candidate: string)
    requires Leftmost(Fold(query), Fold(candidate), 0).Some?
    ensures Leading(Leftmost(Fold(query), Fold(candidate), 0).value, query, candidate)
  {
    var positions := Leftmost(Fold(query), Fold(candidate), 0).value;
    LeftmostEmbeds(Fold(query), Fold(candidate), 0);
    EmbedsIsChosen(positions, query, candidate);
    forall other, k | Chosen(other, query, candidate) && 0 <= k < |positions| ensures positions[k] <= other[k] {
      EmbedsIsChosen(other, query, candidate);
      LeftmostIsLeast(Fold(query), Fold(candidate), 0, other);
    }
  }

  lemma BelowPrefixExplains(query: string, candidate: string)
    requires query != "" && !OccursAt(query, candidate, 0)
    ensures Explains(query, candidate, BelowPrefix(query, candidate))
  {
    FirstOccurrenceOccurs(query, candidate, 0);
    FuzzyIsScored(query, candidate);
    forall i: nat ensures OccursAt(query, candidate, i) <==> FoundAt(query, candidate, i) {
      OccursIsFound(query, candidate, i);
    }
    hide FoundAt, OccursAt, FuzzyScored, Scattered, SimpleFuzzy;
    var r := FirstOccurrence(query, candidate, 0);
    if r.Some? {
      assert FirstAt(query, candidate, r.value);
    }
  }

  lemma PrefixExplains(query: string, candidate: string)
    requires query <= candidate || OccursAt(query, candidate, 0)
    ensures Explains(query, candidate, SimpleScore(query, candidate))
  {
    OccursIsFound(query, candidate, 0);
    hide FoundAt, OccursAt;
  }

  lemma PrefixOccurs(query: string, candidate: string)
    requires query <= candidate
    ensures OccursAt(query, candidate, 0)
  {
    assert candidate[0..|query|] == query;
  }

  lemma ScoreExplains(query: string, candidate: string)
    ensures Explains(query, candidate, SimpleScore(query, candidate))
  {
    if query <= candidate {
      PrefixOccurs(query, candidate);
    }
    if OccursAt(query, candidate, 0) {
      PrefixExplains(query, candidate);
    } else {
      NotAPrefix(query, candidate);
      assert query != "" by {
        assert query == "" ==> query <= candidate;
      }
      BelowPrefixExplains(query, candidate);
    }
  }

  /** The class alone, and exactly: which kind of match there is. */
  lemma ClassIsExact(query: string, candidate: string, m: Match)
    requires Explains(query, candidate, Some(m))
    ensures m.matchClass.Exact? <==> candidate == query
    ensures m.matchClass.Prefix? <==> query < candidate
    ensures m.matchClass.CaseInsensitivePrefix? <==> FoundAt(query, candidate, 0) && !(query <= candidate)
    ensures m.matchClass.Substring? <==> !FoundAt(query, candidate, 0) && exists i: nat :: FoundAt(query, candidate, i)
    ensures m.matchClass.Fuzzy? <==> forall i: nat :: !FoundAt(query, candidate, i)
  {
    if query <= candidate {
      PrefixOccurs(query, candidate);
    }
    OccursIsFound(query, candidate, 0);
    hide FoundAt, OccursAt, FuzzyScored;
  }

  // ---------------------------------------------------------------------
  // Scores and classes
  // ---------------------------------------------------------------------

  predicate Stronger(a: MatchClass, b: MatchClass) {
    match a
    case Exact => !b.Exact?
    case Prefix => !b.Exact? && !b.Prefix?
    case CaseInsensitivePrefix => b.Substring? || b.Fuzzy?
    case Substring => b.Fuzzy?
    case Fuzzy => false
  }

  /** The longest text that a candidate may have. */
  const MAX_TEXT: nat := 64 * 1024

  /** A longer query could let a scattered match score like a better one. */
  const MAX_RANKED_QUERY: nat := 6_400

  /** In a longer name a late occurrence could score below a scattered match. */
  const MAX_RANKED_LENGTH: nat := 6_000

  lemma {:induction false} ChosenFits(positions: seq<nat>, query: string, candidate: string, k: nat)
    requires Chosen(positions, query, candidate) && k < |positions|
    ensures k <= positions[k] && |positions| - k <= |candidate| - positions[k]
    decreases |positions| - k
  {
    if k + 1 < |positions| {
      ChosenFits(positions, query, candidate, k + 1);
    }
    ChosenIsLate(positions, query, candidate, k);
  }

  lemma {:induction false} ChosenIsLate(positions: seq<nat>, query: string, candidate: string, k: nat)
    requires Chosen(positions, query, candidate) && k < |positions|
    ensures k <= positions[k]
  {
    if k > 0 {
      ChosenIsLate(positions, query, candidate, k - 1);
    }
  }

  lemma {:induction false} NeighboursAreFew(positions: seq<nat>)
    ensures |Neighbours(positions)| <= |positions|
  {
    if positions == [] {
      assert Neighbours(positions) == {};
    } else {
      var n := |positions| - 1;
      NeighboursAreFew(positions[..n]);
      assert Neighbours(positions) <= Neighbours(positions[..n]) + {n};
      SmallerSet(Neighbours(positions), Neighbours(positions[..n]) + {n});
    }
  }

  lemma SmallerSet(a: set<nat>, b: set<nat>)
    requires a <= b
    ensures |a| <= |b|
  {
    assert b == a + (b - a);
  }

  lemma ChosenBounds(positions: seq<nat>, query: string, candidate: string)
    requires positions != [] && Chosen(positions, query, candidate)
    ensures |positions| == |query| <= |candidate| && |positions| <= positions[|positions| - 1] + 1
  {
    ChosenFits(positions, query, candidate, 0);
    ChosenIsLate(positions, query, candidate, |positions| - 1);
  }

  lemma LeadingIsChosen(positions: seq<nat>, query: string, candidate: string)
    requires Leading(positions, query, candidate)
    ensures Chosen(positions, query, candidate)
  {
  }

  lemma FuzzyRange(query: string, candidate: string, score: int)
    requires FuzzyScored(query, candidate, score) && |query| <= MAX_RANKED_QUERY
    ensures score < 1_800_000
  {
    hide Leading, Neighbours, Chosen;
    var positions :| positions != [] && Leading(positions, query, candidate)
      && score == 1_000_000 + 100 * |query| + 25 * |Neighbours(positions)|
                  - 10 * (positions[|positions| - 1] + 1 - |positions|) - |candidate|;
    NeighboursAreFew(positions);
    LeadingIsChosen(positions, query, candidate);
    ChosenBounds(positions, query, candidate);
  }

  /** The range of scores of each class. */
  lemma ScoreRange(query: string, candidate: string, m: Match)
    requires Explains(query, candidate, Some(m)) && |candidate| <= MAX_TEXT
    ensures match m.matchClass
      case Exact => m.score == 5_000_000
      case Prefix => 3_900_000 < m.score < 4_000_000
      case CaseInsensitivePrefix => 2_900_000 < m.score <= 3_000_000
      case Substring => m.score < 2_000_000 && (|candidate| <= MAX_RANKED_LENGTH ==> m.score > 1_800_000)
      case Fuzzy => |query| <= MAX_RANKED_QUERY ==> m.score < 1_800_000
  {
    hide FuzzyScored, Scattered, Alike;
    match m.matchClass {
      case Fuzzy =>
        if |query| <= MAX_RANKED_QUERY {
          FuzzyRange(query, candidate, m.score);
        }
      case _ =>
    }
  }

  /** A stronger class scores higher; only a scattered match of a very long query, or against a late occurrence, may not obey. */
  lemma StrongerScoresHigher(query: string, a: string, m: Match, b: string, n: Match)
    requires Explains(query, a, Some(m)) && Explains(query, b, Some(n)) && Stronger(m.matchClass, n.matchClass)
    requires |a| <= MAX_TEXT && |b| <= MAX_TEXT
    requires n.matchClass.Fuzzy? ==> |query| <= MAX_RANKED_QUERY && (m.matchClass.Substring? ==> |a| <= MAX_RANKED_LENGTH)
    ensures m.score > n.score
  {
    ScoreRange(query, a, m);
    ScoreRange(query, b, n);
    hide Explains;
  }

  function Late(n: nat): string {
    seq(n, k requires 0 <= k < n => 'x') + "ab"
  }

  lemma LateIsFoundLate(n: nat)
    requires n > 0
    ensures FirstAt("ab", Late(n), n) && !FoundAt("ab", Late(n), 0)
  {
    var a := Late(n);
    assert a[n..n + 2] == "ab";
    forall j: nat | j < n ensures !FoundAt("ab", a, j) {
      assert a[j..j + 2][0] == 'x';
    }
  }

  lemma LateScore(n: nat) returns (m: Match)
    requires n > 0
    ensures Explains("ab", Late(n), Some(m)) && m == Match(Substring, 2_000_000 - 32 * n - (n + 2))
  {
    var a := Late(n);
    LateIsFoundLate(n);
    ScoreExplains("ab", a);
    OccursIsFound("ab", a, n);
    OccurrenceIsSubsequence("ab", a, n);
    MatchesIffSubsequence("ab", a);
    hide SimpleScore, OccursAt, FoundAt, Late;
    m := SimpleScore("ab", a).value;
    ClassIsExact("ab", a, m);
    var i: nat :| 0 < i && FirstAt("ab", a, i) && m.score == 2_000_000 - 32 * i - |a|;
    assert FirstAt("ab", a, n);
    assert i == n;
    LateLength(n);
  }

  lemma LateLength(n: nat)
    ensures |Late(n)| == n + 2
  {
  }

  lemma ScatteredScore() returns (m: Match)
    ensures Explains("ab", "a-b", Some(m)) && m.matchClass == Fuzzy && m.score >= 1_000_187
  {
    var b := "a-b";
    assert Chosen([0, 2], "ab", b);
    SubsequenceIsScattered("ab", b);
    MatchesIffSubsequence("ab", b);
    ScoreExplains("ab", b);
    NotTogether();
    hide SimpleScore, FoundAt;
    m := SimpleScore("ab", b).value;
    ClassIsExact("ab", b, m);
    var positions :| positions != [] && Leading(positions, "ab", b)
      && m.score == 1_000_000 + 100 * |"ab"| + 25 * |Neighbours(positions)|
                    - 10 * (positions[|positions| - 1] + 1 - |positions|) - |b|;
    assert |positions| == 2 && positions[1] <= [0, 2][1];
  }

  lemma NotTogether()
    ensures forall i: nat :: !FoundAt("ab", "a-b", i)
  {
    forall i: nat ensures !FoundAt("ab", "a-b", i) {
      if i == 0 {
        assert "a-b"[0..2][1] == '-';
      } else if i == 1 {
        assert "a-b"[1..3][0] == '-';
      }
    }
  }

  /** Behind 40000 other characters an occurrence scores below a scattered match of the same query. */
  lemma LateOccurrenceLoses()
    ensures exists a, m, b, n ::
      && Explains("ab", a, Some(m)) && Explains("ab", b, Some(n))
      && Stronger(m.matchClass, n.matchClass) && |a| <= MAX_TEXT && |b| <= MAX_TEXT && m.score < n.score
  {
    var m := LateScore(40_000);
    var n := ScatteredScore();
    LateLength(40_000);
    hide Explains, Late;
    assert Explains("ab", Late(40_000), Some(m)) && Explains("ab", "a-b", Some(n));
  }

  /** Within a class the shorter prefix match scores higher, and among names of one length the earlier occurrence. */
  lemma ShorterAndEarlierScoreHigher(query: string, a: string, m: Match, b: string, n: Match, i: nat, j: nat)
    requires Explains(query, a, Some(m)) && Explains(query, b, Some(n)) && m.matchClass == n.matchClass
    ensures m.matchClass in {Prefix, CaseInsensitivePrefix} ==> (m.score > n.score <==> |a| < |b|)
    ensures m.matchClass == Substring && FirstAt(query, a, i) && FirstAt(query, b, j) && |a| == |b| ==>
      (m.score > n.score <==> i < j)
  {
    hide FoundAt, FuzzyScored;
  }

  /** The dispatch of `match_score` on ASCII input. */
  method MatchScore(query: string, candidate: string) returns (r: Option<Match>)
    requires IsAscii(query) && IsAscii(candidate)
    ensures r == SimpleScore(query, candidate) && Explains(query, candidate, r)
    ensures r.Some? <==> Scattered(query, candidate)
  {
    MatchesIffSubsequence(query, candidate);
    SubsequenceIsScattered(query, candidate);
    ScoreExplains(query, candidate);
    if |query| <= |candidate| {
      var prefix := candidate[..|query|];
      assert candidate[0..|query|] == prefix;
      var equal := EqualFold(prefix, query);
      if equal {
        if prefix == query {
          if |candidate| == |query| {
            return Some(Match(Exact, 5_000_000));
          }
          return Some(Match(Prefix, 4_000_000 - (|candidate| - |query|)));
        }
        return Some(Match(CaseInsensitivePrefix, 3_000_000 - (|candidate| - |query|)));
      }
    }
    r := MatchSubstringAndFuzzy(query, candidate, MAX_ASCII_SUBSTRING_COMPARISONS);
  }
}
