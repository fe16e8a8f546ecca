/**
 The streaming, de-duplicating sink for completion candidates. It keeps fewer
 than twice its limit at any time; `StreamingEqualsBatch` shows that nothing is
 lost by it when candidates for the same value are coherent, and
 `CoherenceIsExact` that this is the exact condition.
 */
module CandidateSink {
  import opened Wrappers
  import opened TextOrder
  import opened Ranking
  import Matcher

  type MatchClass = Matcher.MatchClass

  /** The bits of a source mask. */
  datatype Source = Bash | Zsh | Fish | User

  /** `insertionOrder` is `None` for the largest order number, which stands for no order. */
  datatype Candidate = Candidate(
    display: Text, value: Text, description: Option<Text>, sources: set<Source>, appendSpace: bool,
    score: int, matchClass: MatchClass, preserveOrder: bool, insertionOrder: Option<nat>)

  /** Exact and prefix matches share a tier, because an exact word may have longer completions. */
  function SetTier(c: MatchClass): (r: nat)
    ensures 1 <= r <= 4
  {
    match c
    case Exact | Prefix => 4
    case CaseInsensitivePrefix => 3
    case Substring => 2
    case Fuzzy => 1
  }

  function SortTier(c: MatchClass): nat {
    match c
    case Exact => 5
    case Prefix => 4
    case CaseInsensitivePrefix => 3
    case Substring => 2
    case Fuzzy => 1
  }

  // ---------------------------------------------------------------------
  // Comparison
  // ---------------------------------------------------------------------

  function RankOf(c: Candidate): Rank {
    Rank(SortTier(c.matchClass), if c.preserveOrder then c.insertionOrder else None, c.score, c.display, c.value)
  }

  /** The comparison for candidates of one class without a preserved order. */
  predicate PrecedesByRank(a: Candidate, b: Candidate) {
    if a.score != b.score then a.score > b.score
    else if |a.display| != |b.display| then |a.display| < |b.display|
    else if a.display != b.display then Less(a.display, b.display)
    else Less(a.value, b.value)
  }

  predicate Precedes(a: Candidate, b: Candidate) {
    if SortTier(a.matchClass) != SortTier(b.matchClass) then SortTier(a.matchClass) > SortTier(b.matchClass)
    else
      match (a.preserveOrder, b.preserveOrder)
      case (true, true) =>
        a.insertionOrder.Some? && (b.insertionOrder.Some? ==> a.insertionOrder.value < b.insertionOrder.value)
      case (true, false) => true
      case (false, true) => false
      case (false, false) => PrecedesByRank(a, b)
  }

  ghost predicate Stored(m: map<Text, Candidate>, tier: nat, next: nat) {
    && (forall v :: v in m ==>
          && m[v].value == v && SetTier(m[v].matchClass) == tier
          && (m[v].preserveOrder <==> m[v].insertionOrder.Some?)
          && (m[v].insertionOrder.Some? ==> m[v].insertionOrder.value < next))
    && (forall v, w :: v in m && w in m && v != w && m[v].insertionOrder.Some?
          ==> m[v].insertionOrder != m[w].insertionOrder)
  }

  ghost function RanksOf(m: map<Text, Candidate>): Ranks {
    map v | v in m :: RankOf(m[v])
  }

  lemma StoredIsKeyed(m: map<Text, Candidate>, tier: nat, next: nat)
    requires Stored(m, tier, next)
    ensures Keyed(RanksOf(m)) && |RanksOf(m)| == |m|
  {
    assert RanksOf(m).Keys == m.Keys;
  }

  predicate Uniform(m: map<Text, Candidate>) {
    forall v, w :: v in m && w in m ==> !m[v].preserveOrder && m[v].matchClass == m[w].matchClass
  }

  predicate Compare(byRank: bool, a: Candidate, b: Candidate) {
    if byRank then PrecedesByRank(a, b) else Precedes(a, b)
  }

  // ---------------------------------------------------------------------
  // Sorting
  // ---------------------------------------------------------------------

  lemma CompareIsBefore(m: map<Text, Candidate>, byRank: bool, tier: nat, next: nat, v: Text, w: Text)
    requires Stored(m, tier, next) && (byRank ==> Uniform(m)) && v in m && w in m
    ensures v in RanksOf(m) && w in RanksOf(m)
    ensures Compare(byRank, m[v], m[w]) <==> Before(RanksOf(m)[v], RanksOf(m)[w])
  {
    assert m[v].preserveOrder <==> m[v].insertionOrder.Some?;
    assert m[w].preserveOrder <==> m[w].insertionOrder.Some?;
    assert byRank ==> !m[v].preserveOrder && !m[w].preserveOrder && m[v].matchClass == m[w].matchClass;
    hide Stored, Uniform, Less;
  }

  lemma RanksHaveKeys(m: map<Text, Candidate>)
    ensures RanksOf(m).Keys == m.Keys
  {
  }

  method SortedValues(m: map<Text, Candidate>, byRank: bool, ghost tier: nat, ghost next: nat) returns (s: seq<Text>)
    requires Stored(m, tier, next) && (byRank ==> Uniform(m))
    ensures Keyed(RanksOf(m)) && s == Listing(RanksOf(m))
  {
    hide *;
    ghost var ranks := RanksOf(m);
    StoredIsKeyed(m, tier, next);
    RanksHaveKeys(m);
    forall v, w | v in m && w in m ensures Compare(byRank, m[v], m[w]) <==> Before(ranks[v], ranks[w]) {
      CompareIsBefore(m, byRank, tier, next, v, w);
    }
    s := SortBy(ranks, m.Keys, (v, w) => v in m && w in m && Compare(byRank, m[v], m[w]));
  }

  // ---------------------------------------------------------------------
  // The sink as a value
  // ---------------------------------------------------------------------

  datatype State = State(limit: nat, bestTier: nat, candidates: map<Text, Candidate>, next: nat) {
    ghost predicate Valid() {
      && limit >= 1
      && |candidates| < 2 * limit
      && Stored(candidates, bestTier, next)
    }
  }

  function Bonus(current: Candidate, c: Candidate): nat {
    if c.sources - current.sources != {} && current.sources != {} then 8 else 0
  }

  function Earlier(a: Option<nat>, b: Option<nat>): Option<nat> {
    match (a, b)
    case (Some(i), Some(j)) => if i <= j then a else b
    case (Some(_), None) => a
    case (None, _) => b
  }

  /** A candidate that meets one for the same value: the higher score wins, the rest is combined. */
  function Merged(current: Candidate, c: Candidate): Candidate {
    var won := if c.score > current.score then c else current;
    var lost := if c.score > current.score then current else c;
    won.(
      description := if won.description.Some? then won.description else lost.description,
      score := won.score + Bonus(current, c),
      sources := current.sources + c.sources,
      appendSpace := current.appendSpace && c.appendSpace,
      preserveOrder := current.preserveOrder || c.preserveOrder,
      insertionOrder := Earlier(current.insertionOrder, c.insertionOrder))
  }

  /** The candidates that are among the best `limit`. */
  ghost function Truncated(m: map<Text, Candidate>, limit: nat): map<Text, Candidate> {
    map v | v in m && v in Top(RanksOf(m), limit) :: m[v]
  }

  function Numbered(c: Candidate, next: nat): Candidate {
    if c.preserveOrder then c.(insertionOrder := Some(next)) else c
  }

  function Kept(s: State, tier: nat): map<Text, Candidate> {
    if tier > s.bestTier then map[] else s.candidates
  }

  function Placed(m: map<Text, Candidate>, c: Candidate): map<Text, Candidate> {
    m[c.value := if c.value in m then Merged(m[c.value], c) else c]
  }

  /** Only a new value or a better score can bring the sink to its bound. */
  predicate Reviews(m: map<Text, Candidate>, c: Candidate, limit: nat) {
    (c.value in m ==> c.score > m[c.value].score) && |Placed(m, c)| >= 2 * limit
  }

  ghost function Pushed(s: State, offered: Candidate): State {
    var c := Numbered(offered, s.next);
    var next := if c.preserveOrder then s.next + 1 else s.next;
    var tier := SetTier(c.matchClass);
    if tier < s.bestTier then s.(next := next)
    else
      var kept := Kept(s, tier);
      var placed := Placed(kept, c);
      State(s.limit, tier, if Reviews(kept, c, s.limit) then Truncated(placed, s.limit) else placed, next)
  }

  predicate Fresh(c: Candidate) { c.insertionOrder.None? }

  lemma PlacedIsStored(m: map<Text, Candidate>, c: Candidate, tier: nat, next: nat)
    requires Stored(m, tier, next) && Fresh(c) && SetTier(c.matchClass) == tier
    ensures var n := if c.preserveOrder then next + 1 else next;
      Stored(Placed(m, Numbered(c, next)), tier, n)
  {
  }

  lemma TruncatedIsStored(m: map<Text, Candidate>, limit: nat, tier: nat, next: nat)
    requires Stored(m, tier, next)
    ensures Stored(Truncated(m, limit), tier, next)
    ensures RanksOf(Truncated(m, limit)) == Top(RanksOf(m), limit)
    ensures |Truncated(m, limit)| == Min(limit, |m|)
  {
    hide *;
    StoredIsKeyed(m, tier, next);
    TopSize(RanksOf(m), limit);
    TruncatedKeepsSome(m, limit);
    SubmapIsStored(m, Truncated(m, limit), tier, next);
  }

  lemma SubmapIsStored(m: map<Text, Candidate>, kept: map<Text, Candidate>, tier: nat, next: nat)
    requires Stored(m, tier, next) && forall v :: v in kept ==> v in m && kept[v] == m[v]
    ensures Stored(kept, tier, next)
  {
  }

  /** Truncation keeps some candidates as they are, those with the best ranks. */
  lemma TruncatedKeepsSome(m: map<Text, Candidate>, limit: nat)
    ensures forall v :: v in Truncated(m, limit) ==> v in m && Truncated(m, limit)[v] == m[v]
    ensures RanksOf(Truncated(m, limit)) == Top(RanksOf(m), limit)
    ensures |Truncated(m, limit)| == |Top(RanksOf(m), limit)|
  {
    hide Before, Better;
    assert RanksOf(Truncated(m, limit)).Keys == Truncated(m, limit).Keys;
  }

  lemma PlacedSize(m: map<Text, Candidate>, c: Candidate)
    ensures |Placed(m, c)| == if c.value in m then |m| else |m| + 1
  {
    assert Placed(m, c).Keys == m.Keys + {c.value};
  }

  /** The three ways a push can end. */
  lemma PushedCases(s: State, offered: Candidate)
    requires s.limit >= 1
    ensures var c := Numbered(offered, s.next);
      var next := if c.preserveOrder then s.next + 1 else s.next;
      var tier := SetTier(c.matchClass);
      var kept := Kept(s, tier);
      && (tier < s.bestTier ==> Pushed(s, offered) == State(s.limit, s.bestTier, s.candidates, next))
      && (tier >= s.bestTier && Reviews(kept, c, s.limit) ==>
            Pushed(s, offered) == State(s.limit, tier, Truncated(Placed(kept, c), s.limit), next))
      && (tier >= s.bestTier && !Reviews(kept, c, s.limit) ==>
            Pushed(s, offered) == State(s.limit, tier, Placed(kept, c), next))
  {
  }

  lemma PlacedStep(m: map<Text, Candidate>, c: Candidate)
    ensures Placed(m, c) == if c.value in m then m[c.value := Merged(m[c.value], c)] else m[c.value := c]
  {
  }

  /** Every push keeps the sink within twice its limit, in one tier, with distinct insertion orders. */
  lemma PushedIsValid(s: State, c: Candidate)
    requires s.Valid() && Fresh(c)
    ensures Pushed(s, c).Valid()
  {
    hide Merged, Top, RanksOf, Truncated, Placed;
    var n := Numbered(c, s.next);
    var next := if c.preserveOrder then s.next + 1 else s.next;
    var tier := SetTier(c.matchClass);
    if tier >= s.bestTier {
      hide Stored, Kept;
      PlacedIsStored(Kept(s, tier), c, tier, s.next);
      PlacedSize(Kept(s, tier), n);
      TruncatedIsStored(Placed(Kept(s, tier), n), s.limit, tier, next);
    }
  }

  // ---------------------------------------------------------------------
  // The sink
  // ---------------------------------------------------------------------

  lemma NothingToTruncate(m: map<Text, Candidate>, limit: nat, tier: nat, next: nat)
    requires Stored(m, tier, next) && |m| <= limit
    ensures Truncated(m, limit) == m
  {
    hide Before, Better;
    TruncatedIsStored(m, limit, tier, next);
    var t := Truncated(m, limit);
    assert t.Keys <= m.Keys;
    SubsetOfSameSize(t.Keys, m.Keys);
    assert t.Keys == m.Keys;
  }

  lemma SubsetOfSameSize(a: set<Text>, b: set<Text>)
    requires a <= b && |a| == |b|
    ensures a == b
  {
    var d := b - a;
    assert b == a + d;
    assert |d| == 0;
  }

  lemma DistinctListing(m: Ranks)
    requires Keyed(m)
    ensures var s := Listing(m); forall i, j :: 0 <= i < j < |s| ==> s[i] != s[j]
  {
    ListingIsSorted(m);
    var s := Listing(m);
    hide Before, Listing;
    forall i, j | 0 <= i < j < |s| ensures s[i] != s[j] {
      BeforeIsAsymmetric(m[s[i]], m[s[j]]);
    }
  }

  function Elements(s: seq<Text>): set<Text> {
    set v | v in s
  }

  lemma RemoveNothing(m: map<Text, Candidate>, keys: seq<Text>)
    ensures m == m - Elements(keys[..0])
  {
  }

  lemma RemoveNext(m: map<Text, Candidate>, keys: seq<Text>, i: nat)
    requires i < |keys|
    ensures m - Elements(keys[..i]) - {keys[i]} == m - Elements(keys[..i + 1])
  {
    assert keys[..i + 1] == keys[..i] + [keys[i]];
    assert Elements(keys[..i + 1]) == Elements(keys[..i]) + {keys[i]};
  }

  /** Dropping everything the listing has beyond the limit leaves the best. */
  lemma TruncatedIsTaken(m: map<Text, Candidate>, limit: nat)
    requires Keyed(RanksOf(m)) && limit < |m|
    ensures |Listing(RanksOf(m))| == |m|
    ensures m - Elements(Listing(RanksOf(m))[limit..]) == Truncated(m, limit)
  {
    var ranks := RanksOf(m);
    assert ranks.Keys == m.Keys;
    var s := Listing(ranks);
    DistinctListing(ranks);
    TopIsTaken(ranks, limit);
    ListingIsSorted(ranks);
    hide Before, Better, Top, Listing, Keyed, Sorted, RanksOf;
    TakenOrRemoved(m, s, limit, Top(ranks, limit).Keys);
  }

  lemma TakenOrRemoved(m: map<Text, Candidate>, s: seq<Text>, limit: nat, top: set<Text>)
    requires limit < |s| && (forall i, j :: 0 <= i < j < |s| ==> s[i] != s[j])
    requires (forall v :: v in m ==> v in s) && (forall v :: v in top <==> v in Take(s, limit))
    ensures m - Elements(s[limit..]) == map v | v in m && v in top :: m[v]
  {
    assert Take(s, limit) == s[..limit];
  }

  class Sink {
    var limit: nat
    var bestTier: nat
    var candidates: map<Text, Candidate>
    var nextInsertionOrder: nat

    ghost function Value(): State
      reads this
    {
      State(limit, bestTier, candidates, nextInsertionOrder)
    }

    ghost predicate Valid()
      reads this
    {
      Value().Valid()
    }

    constructor (limit: nat)
      ensures Valid()
      ensures Value() == Empty(limit)
    {
      this.limit := if limit > 1 then limit else 1;
      bestTier := 0;
      candidates := map[];
      nextInsertionOrder := 0;
    }

    method Push(offered: Candidate)
      requires Valid() && Fresh(offered)
      modifies this
      ensures Valid()
      ensures Value() == Pushed(old(Value()), offered)
    {
      hide Stored, Merged, Placed, Truncated, Pushed;
      ghost var before := Value();
      PushedIsValid(before, offered);
      PushedCases(before, offered);
      var candidate := offered;
      if candidate.preserveOrder {
        candidate := candidate.(insertionOrder := Some(nextInsertionOrder));
        nextInsertionOrder := nextInsertionOrder + 1;
      }
      var tier := SetTier(candidate.matchClass);
      if tier < bestTier {
        return;
      }
      if tier > bestTier {
        candidates := map[];
        bestTier := tier;
      }
      ghost var kept := candidates;
      PlacedIsStored(kept, offered, tier, before.next);
      PlacedSize(kept, candidate);
      PlacedStep(kept, candidate);
      if candidate.value in candidates {
        var current := candidates[candidate.value];
        candidates := candidates[candidate.value := Merged(current, candidate)];
        if candidate.score <= current.score {
          return;
        }
      } else {
        candidates := candidates[candidate.value := candidate];
      }
      if |candidates| >= 2 * limit {
        Truncate();
      }
    }

    method Truncate()
      requires Stored(candidates, bestTier, nextInsertionOrder)
      modifies this`candidates
      ensures candidates == Truncated(old(candidates), limit)
    {
      hide Stored, Truncated, RanksOf, Listing, Keyed, Before, Elements;
      if |candidates| <= limit {
        NothingToTruncate(candidates, limit, bestTier, nextInsertionOrder);
        return;
      }
      var ranked := SortedValues(candidates, false, bestTier, nextInsertionOrder);
      StoredIsKeyed(candidates, bestTier, nextInsertionOrder);
      TruncatedIsTaken(candidates, limit);
      var remove := ranked[limit..];
      var i := 0;
      RemoveNothing(candidates, remove);
      ghost var all := candidates;
      while i < |remove|
        invariant 0 <= i <= |remove|
        invariant candidates == all - Elements(remove[..i])
      {
        RemoveNext(all, remove, i);
        candidates := candidates - {remove[i]};
        i := i + 1;
      }
      assert remove[..i] == remove;
    }

    method Finish() returns (values: seq<Candidate>)
      requires Valid()
      modifies this`candidates
      ensures values == Finished(old(Value()))
      ensures Arranged(values) && FirstOf(values, old(candidates), old(limit))
    {
      ghost var before := Value();
      assert before.Valid() && before == State(limit, bestTier, candidates, nextInsertionOrder);
      hide *;
      FinishReady(before);
      Truncate();
      var order := SortedValues(candidates, Uniform(candidates), bestTier, nextInsertionOrder);
      values := Lookup(order, candidates);
    }
  }

  function Lookup(order: seq<Text>, m: map<Text, Candidate>): (r: seq<Candidate>)
    requires forall i :: 0 <= i < |order| ==> order[i] in m
  {
    seq(|order|, i requires 0 <= i < |order| => m[order[i]])
  }

  lemma FinishedBody(s: State)
    requires s.Valid()
    ensures var t := Truncated(s.candidates, s.limit);
      && Stored(t, s.bestTier, s.next)
      && RanksOf(t) == Top(RanksOf(s.candidates), s.limit)
      && Keyed(RanksOf(s.candidates)) && Keyed(RanksOf(t))
      && Listing(RanksOf(t)) == Take(Listing(RanksOf(s.candidates)), s.limit)
  {
    hide Before, Truncated, Top, RanksOf;
    StoredIsKeyed(s.candidates, s.bestTier, s.next);
    TruncatedIsStored(s.candidates, s.limit, s.bestTier, s.next);
    StoredIsKeyed(Truncated(s.candidates, s.limit), s.bestTier, s.next);
    TopIsPrefix(RanksOf(s.candidates), s.limit);
  }

  // ---------------------------------------------------------------------
  // What a caller gets
  // ---------------------------------------------------------------------

  /** The sets that exclude one another: an exact word and its longer completions are shown together. */
  predicate StrongerSet(a: MatchClass, b: MatchClass) {
    Matcher.Stronger(a, b) && !(a.Exact? && b.Prefix?)
  }

  ghost predicate LexicallyBefore(a: Text, b: Text) {
    exists k: nat :: DiffersBelow(a, b, k)
  }

  /** Higher scores first, then shorter displays, then displays and values in lexicographic order. */
  ghost predicate ScoredBefore(a: Candidate, b: Candidate) {
    || a.score > b.score
    || (a.score == b.score && |a.display| < |b.display|)
    || (a.score == b.score && |a.display| == |b.display| && LexicallyBefore(a.display, b.display))
    || (a.score == b.score && a.display == b.display && LexicallyBefore(a.value, b.value))
  }

  /** Stronger classes first; within one those with an order of their own in that order, then the others. */
  ghost predicate InOrder(a: Candidate, b: Candidate) {
    || Matcher.Stronger(a.matchClass, b.matchClass)
    || (a.matchClass == b.matchClass &&
        if b.preserveOrder then
          a.preserveOrder && a.insertionOrder.Some? && b.insertionOrder.Some? && a.insertionOrder.value < b.insertionOrder.value
        else a.preserveOrder || ScoredBefore(a, b))
  }

  ghost predicate Arranged(values: seq<Candidate>) {
    forall i, j :: 0 <= i < j < |values| ==> InOrder(values[i], values[j]) && values[i].value != values[j].value
  }

  /** All candidates of `m`, or the `limit` that come before the others. */
  ghost predicate FirstOf(values: seq<Candidate>, m: map<Text, Candidate>, limit: nat) {
    && |values| == Min(limit, |m|)
    && (forall i :: 0 <= i < |values| ==> values[i].value in m && m[values[i].value] == values[i])
    && (forall v, i :: v in m && m[v] !in values && 0 <= i < |values| ==> InOrder(values[i], m[v]))
  }

  lemma SetTiersAreSets(a: MatchClass, b: MatchClass)
    ensures SetTier(a) > SetTier(b) <==> StrongerSet(a, b)
    ensures SortTier(a) > SortTier(b) <==> Matcher.Stronger(a, b)
    ensures SortTier(a) == SortTier(b) <==> a == b
  {
  }

  predicate OwnOrder(c: Candidate) { c.preserveOrder <==> c.insertionOrder.Some? }

  lemma BeforeIsInOrder(a: Candidate, b: Candidate)
    requires OwnOrder(a) && OwnOrder(b)
    ensures Before(RankOf(a), RankOf(b)) <==> InOrder(a, b)
  {
    SetTiersAreSets(a.matchClass, b.matchClass);
    SetTiersAreSets(b.matchClass, a.matchClass);
    LessIsLexicographic(a.display, b.display);
    LessIsLexicographic(a.value, b.value);
    assert !Less(a.display, a.display) by {
      if Less(a.display, a.display) {
        LessIsAsymmetric(a.display, a.display);
      }
    }
    hide Less, SortTier, Matcher.Stronger, DiffersBelow;
  }

  /** The values that are held, best first. */
  ghost function Order(s: State): (r: seq<Text>)
    requires s.Valid()
    ensures |r| == |s.candidates| && forall i :: 0 <= i < |r| ==> r[i] in s.candidates
  {
    StoredIsKeyed(s.candidates, s.bestTier, s.next);
    Listing(RanksOf(s.candidates))
  }

  lemma FinishedIsListed(s: State)
    requires s.Valid()
    ensures Finished(s) == Lookup(Take(Order(s), s.limit), s.candidates)
  {
    hide Before, Better, Top, RankOf, RanksOf, Listing, Keyed, Stored, Truncated, Take, Finished, Lookup;
    FinishedBody(s);
    FinishedParts(s);
    var t := Truncated(s.candidates, s.limit);
    TruncatedKeepsSome(s.candidates, s.limit);
    assert Listing(RanksOf(t)) == Take(Order(s), s.limit);
    LookupAgrees(Listing(RanksOf(t)), t, s.candidates);
  }

  lemma FinishedParts(s: State)
    requires s.Valid()
    ensures var t := Truncated(s.candidates, s.limit);
      && Keyed(RanksOf(t)) && (forall v :: v in Listing(RanksOf(t)) ==> v in t)
      && Finished(s) == Lookup(Listing(RanksOf(t)), t)
  {
    hide Before, Top, Truncated, Listing, Keyed, Stored;
    FinishedBody(s);
  }

  lemma FinishReady(s: State)
    requires s.Valid()
    ensures Stored(s.candidates, s.bestTier, s.next) && Arranged(Finished(s)) && FirstOf(Finished(s), s.candidates, s.limit)
    ensures var t := Truncated(s.candidates, s.limit);
      && Stored(t, s.bestTier, s.next) && Keyed(RanksOf(t)) && (forall v :: v in Listing(RanksOf(t)) ==> v in t)
      && Finished(s) == Lookup(Listing(RanksOf(t)), t)
  {
    assert Stored(s.candidates, s.bestTier, s.next);
    hide *;
    FinishedIsFirst(s);
    FinishedBody(s);
    FinishedParts(s);
  }

  lemma LookupAgrees(order: seq<Text>, t: map<Text, Candidate>, m: map<Text, Candidate>)
    requires forall i :: 0 <= i < |order| ==> order[i] in t
    requires forall v :: v in t ==> v in m && t[v] == m[v]
    ensures Lookup(order, t) == Lookup(order, m)
  {
  }

  lemma StoredIsOwnOrder(s: State, v: Text)
    requires s.Valid() && v in s.candidates
    ensures OwnOrder(s.candidates[v]) && s.candidates[v].value == v
  {
  }

  lemma OrderIsInOrder(s: State, i: nat, j: nat)
    requires s.Valid() && i < j < |s.candidates|
    ensures var order := Order(s);
      order[i] != order[j] && InOrder(s.candidates[order[i]], s.candidates[order[j]])
  {
    var m := RanksOf(s.candidates);
    var order := Order(s);
    StoredIsKeyed(s.candidates, s.bestTier, s.next);
    StoredIsOwnOrder(s, order[i]);
    StoredIsOwnOrder(s, order[j]);
    hide Before, Listing, Keyed, Stored, InOrder, RankOf;
    ListingOrder(m, i, j);
    DistinctListing(m);
    BeforeIsInOrder(s.candidates[order[i]], s.candidates[order[j]]);
  }

  lemma OrderIsComplete(s: State, v: Text)
    requires s.Valid() && v in s.candidates
    ensures v in Order(s)
  {
    StoredIsKeyed(s.candidates, s.bestTier, s.next);
    assert v in RanksOf(s.candidates);
    hide Before, Keyed, Stored, RankOf;
    ListingContains(RanksOf(s.candidates), v);
  }

  lemma FinishedIsFirst(s: State)
    requires s.Valid()
    ensures Arranged(Finished(s)) && FirstOf(Finished(s), s.candidates, s.limit)
  {
    FinishedIsListed(s);
    var order := Order(s);
    forall i, j | 0 <= i < j < |order|
      ensures order[i] != order[j] && InOrder(s.candidates[order[i]], s.candidates[order[j]])
    {
      OrderIsInOrder(s, i, j);
    }
    forall v | v in s.candidates ensures v in order && s.candidates[v].value == v {
      OrderIsComplete(s, v);
      StoredIsOwnOrder(s, v);
    }
    hide State.Valid, InOrder, Finished, Order;
    LookupIsFirst(order, s.candidates, s.limit);
  }

  lemma LookupIsFirst(order: seq<Text>, m: map<Text, Candidate>, limit: nat)
    requires |order| == |m| && (forall i :: 0 <= i < |order| ==> order[i] in m)
    requires forall v :: v in m ==> v in order && m[v].value == v
    requires forall i, j :: 0 <= i < j < |order| ==> order[i] != order[j] && InOrder(m[order[i]], m[order[j]])
    ensures Arranged(Lookup(Take(order, limit), m)) && FirstOf(Lookup(Take(order, limit), m), m, limit)
  {
    hide InOrder;
    var r := Lookup(Take(order, limit), m);
    assert forall k :: 0 <= k < |r| ==> r[k] == m[order[k]];
    hide Lookup, Take;
    forall v, i | v in m && m[v] !in r && 0 <= i < |r| ensures InOrder(r[i], m[v]) {
      ComesAfter(order, m, r, v, i);
    }
  }

  lemma ComesAfter(order: seq<Text>, m: map<Text, Candidate>, r: seq<Candidate>, v: Text, i: nat)
    requires |r| <= |order| && (forall k :: 0 <= k < |order| ==> order[k] in m)
    requires forall k :: 0 <= k < |r| ==> r[k] == m[order[k]]
    requires forall i, j :: 0 <= i < j < |order| ==> InOrder(m[order[i]], m[order[j]])
    requires v in order && v in m && m[v] !in r && i < |r|
    ensures InOrder(r[i], m[v])
  {
    hide InOrder;
    var k :| 0 <= k < |order| && order[k] == v;
    assert r[i] == m[order[i]];
  }

  // ---------------------------------------------------------------------
  // Streaming against batch
  // ---------------------------------------------------------------------

  function Empty(limit: nat): State {
    State(if limit > 1 then limit else 1, 0, map[], 0)
  }

  function Ranked(s: seq<Candidate>): seq<Rank> {
    seq(|s|, i requires 0 <= i < |s| => RankOf(s[i]))
  }

  /** The best candidates in order. */
  ghost function Finished(s: State): seq<Candidate>
    requires s.Valid()
  {
    FinishedBody(s);
    var t := Truncated(s.candidates, s.limit);
    var order := Listing(RanksOf(t));
    Lookup(order, t)
  }

  /** The sink after pushing a whole sequence. */
  ghost function Streamed(cs: seq<Candidate>, limit: nat): State {
    if cs == [] then Empty(limit) else Pushed(Streamed(cs[..|cs| - 1], limit), cs[|cs| - 1])
  }

  function TopTier(cs: seq<Candidate>): nat {
    if cs == [] then 0
    else
      var t, u := TopTier(cs[..|cs| - 1]), SetTier(cs[|cs| - 1].matchClass);
      if u > t then u else t
  }

  /** For each value of the given tier, the first of its candidates with the highest score. */
  function Best(cs: seq<Candidate>, tier: nat): Ranks {
    if cs == [] then map[]
    else
      var m, c := Best(cs[..|cs| - 1], tier), cs[|cs| - 1];
      if SetTier(c.matchClass) == tier then Offer(m, RankOf(c)) else m
  }

  predicate Plain(c: Candidate) {
    !c.preserveOrder && Fresh(c)
  }

  predicate AllPlain(cs: seq<Candidate>) {
    forall i :: 0 <= i < |cs| ==> Plain(cs[i])
  }

  predicate AllFresh(cs: seq<Candidate>) {
    forall i :: 0 <= i < |cs| ==> Fresh(cs[i])
  }

  lemma {:induction false} BestIsUnordered(cs: seq<Candidate>, tier: nat)
    requires AllPlain(cs)
    ensures AllUnordered(Best(cs, tier)) && Keyed(Best(cs, tier))
  {
    if cs != [] {
      BestIsUnordered(cs[..|cs| - 1], tier);
    }
  }

  /** Sort everything and take the first `limit`. */
  ghost function Picked(m: Ranks, limit: nat): seq<Rank>
    requires Keyed(m)
  {
    var order := Take(Listing(m), limit);
    seq(|order|, i requires 0 <= i < |order| => m[order[i]])
  }

  /** Keep the best tier, keep the best candidate of each value, sort, and take `limit`. */
  ghost function Batch(cs: seq<Candidate>, limit: nat): seq<Rank>
    requires AllPlain(cs)
  {
    BestIsUnordered(cs, TopTier(cs));
    Picked(Best(cs, TopTier(cs)), if limit > 1 then limit else 1)
  }

  /** What `finish` returns after a sequence of pushes. */
  ghost function Streaming(cs: seq<Candidate>, limit: nat): seq<Rank>
    requires AllFresh(cs)
  {
    StreamedIsValid(cs, limit);
    Ranked(Finished(Streamed(cs, limit)))
  }

  lemma {:induction false} StreamedIsValid(cs: seq<Candidate>, limit: nat)
    requires AllFresh(cs)
    ensures Streamed(cs, limit).Valid()
    ensures Streamed(cs, limit).limit == Empty(limit).limit
  {
    if cs != [] {
      StreamedIsValid(cs[..|cs| - 1], limit);
      PushedIsValid(Streamed(cs[..|cs| - 1], limit), cs[|cs| - 1]);
    }
  }

  predicate SourcesAgree(c: Candidate, d: Candidate) {
    c.sources == {} || d.sources == {} || c.sources == d.sources
  }

  /**
   Two candidates for one value in one tier: a better score must not come with a worse class,
   equal scores must come with the same class and display, and no source may earn the other a bonus.
   */
  predicate Coherent(c: Candidate, d: Candidate) {
    c.value == d.value && SetTier(c.matchClass) == SetTier(d.matchClass) ==>
      && (c.score > d.score ==> SortTier(c.matchClass) >= SortTier(d.matchClass))
      && (c.score < d.score ==> SortTier(c.matchClass) <= SortTier(d.matchClass))
      && (c.score == d.score ==> c.matchClass == d.matchClass && c.display == d.display)
      && SourcesAgree(c, d)
  }

  ghost predicate AllCoherent(cs: seq<Candidate>) {
    forall i, j :: 0 <= i < j < |cs| ==> Coherent(cs[i], cs[j])
  }

  lemma {:induction false} BestComesFromTheSequence(cs: seq<Candidate>, tier: nat, v: Text) returns (i: nat)
    requires v in Best(cs, tier)
    ensures i < |cs| && cs[i].value == v && SetTier(cs[i].matchClass) == tier && RankOf(cs[i]) == Best(cs, tier)[v]
  {
    var n := |cs| - 1;
    if v == cs[n].value && Best(cs, tier)[v] == RankOf(cs[n]) && SetTier(cs[n].matchClass) == tier {
      i := n;
    } else {
      i := BestComesFromTheSequence(cs[..n], tier, v);
    }
  }

  /** The batch really keeps the highest score of every value. */
  lemma {:induction false} BestIsHighest(cs: seq<Candidate>, tier: nat, i: nat)
    requires i < |cs| && SetTier(cs[i].matchClass) == tier
    ensures cs[i].value in Best(cs, tier) && Best(cs, tier)[cs[i].value].score >= cs[i].score
  {
    var n := |cs| - 1;
    if i < n {
      BestIsHighest(cs[..n], tier, i);
    }
  }

  lemma {:induction false} BestOfHigherTier(cs: seq<Candidate>, tier: nat)
    requires tier > TopTier(cs)
    ensures Best(cs, tier) == map[]
  {
    if cs != [] {
      BestOfHigherTier(cs[..|cs| - 1], tier);
    }
  }

  lemma CoherentIsComparable(c: Candidate, d: Candidate)
    requires Coherent(c, d) && c.value == d.value && SetTier(c.matchClass) == SetTier(d.matchClass)
    requires Plain(c) && Plain(d)
    ensures Comparable(RankOf(c), RankOf(d))
  {
  }

  // ---------------------------------------------------------------------
  // The invariant of a coherent stream
  // ---------------------------------------------------------------------

  /** What is stored for a value carries no source, or the one that all its candidates carry. */
  ghost predicate SourcesFit(m: map<Text, Candidate>, cs: seq<Candidate>, tier: nat) {
    forall v, i :: v in m && 0 <= i < |cs| && cs[i].value == v && SetTier(cs[i].matchClass) == tier
      ==> SourcesAgree(m[v], cs[i])
  }

  ghost predicate NoneOrdered(m: map<Text, Candidate>) {
    forall v :: v in m ==> Plain(m[v]) && m[v].value == v
  }

  ghost predicate Tracks(s: State, cs: seq<Candidate>, n: nat)
    requires n <= |cs|
  {
    && s.bestTier == TopTier(cs[..n])
    && NoneOrdered(s.candidates)
    && SourcesFit(s.candidates, cs, s.bestTier)
    && Shadow(RanksOf(s.candidates), Best(cs[..n], s.bestTier), s.limit)
  }

  lemma PlacedIsOffered(m: map<Text, Candidate>, c: Candidate)
    requires NoneOrdered(m) && Plain(c)
    requires c.value in m ==> SourcesAgree(m[c.value], c)
    ensures NoneOrdered(Placed(m, c))
    ensures RanksOf(Placed(m, c)) == Offer(RanksOf(m), RankOf(c))
  {
  }

  lemma PlacedSourcesFit(m: map<Text, Candidate>, cs: seq<Candidate>, k: nat, tier: nat)
    requires SourcesFit(m, cs, tier) && k < |cs| && SetTier(cs[k].matchClass) == tier
    requires AllCoherent(cs)
    ensures cs[k].value in m ==> SourcesAgree(m[cs[k].value], cs[k])
    ensures SourcesFit(Placed(m, cs[k]), cs, tier)
  {
    var c := cs[k];
    var placed := Placed(m, c);
    forall i | 0 <= i < |cs| && cs[i].value == c.value && SetTier(cs[i].matchClass) == tier
      ensures SourcesAgree(placed[c.value], cs[i])
    {
      assert i < k ==> Coherent(cs[i], cs[k]);
      assert k < i ==> Coherent(cs[k], cs[i]);
      assert SourcesAgree(cs[k], cs[i]);
      if c.value in m {
        assert SourcesAgree(m[c.value], cs[i]);
        assert SourcesAgree(m[c.value], c);
      }
    }
  }

  lemma BestComparable(cs: seq<Candidate>, n: nat, tier: nat)
    requires n < |cs| && AllPlain(cs) && AllCoherent(cs) && SetTier(cs[n].matchClass) == tier
    ensures var all := Best(cs[..n], tier); cs[n].value in all ==> Comparable(all[cs[n].value], RankOf(cs[n]))
  {
    hide Before, Best;
    var v := cs[n].value;
    if v in Best(cs[..n], tier) {
      var i := BestComesFromTheSequence(cs[..n], tier, v);
      assert Coherent(cs[i], cs[n]);
      CoherentIsComparable(cs[i], cs[n]);
    }
  }

  lemma PrefixGrows(cs: seq<Candidate>, n: nat)
    requires n < |cs|
    ensures cs[..n + 1][..n] == cs[..n] && cs[..n + 1][n] == cs[n] && |cs[..n + 1]| == n + 1
  {
  }

  /** One push of a coherent stream. */
  lemma PushTracks(s: State, cs: seq<Candidate>, n: nat)
    requires n < |cs| && AllPlain(cs) && AllCoherent(cs)
    requires s.Valid() && Tracks(s, cs, n)
    ensures Tracks(Pushed(s, cs[n]), cs, n + 1)
  {
    hide Before, Top, Better, Shadow, SourcesFit, Stored, NoneOrdered, Placed, RanksOf, Truncated, Offer;
    PrefixGrows(cs, n);
    var c := cs[n];
    var tier := SetTier(c.matchClass);
    if tier >= s.bestTier {
      var kept := Kept(s, tier);
      var all := Best(cs[..n], tier);
      KeptTracks(s, cs, n, tier);
      BestComparable(cs, n, tier);
      PlacedSourcesFit(kept, cs, n, tier);
      PlacedIsOffered(kept, c);
      ShadowOffer(RanksOf(kept), all, RankOf(c), s.limit);
      PlacedIsStored(kept, c, tier, s.next);
      TruncatedTracks(Placed(kept, c), cs, Offer(all, RankOf(c)), s.limit, tier, s.next);
    }
  }

  lemma KeptTracks(s: State, cs: seq<Candidate>, n: nat, tier: nat)
    requires n < |cs| && AllPlain(cs) && Tracks(s, cs, n) && tier >= s.bestTier
    ensures var kept := Kept(s, tier);
      && NoneOrdered(kept) && SourcesFit(kept, cs, tier)
      && Shadow(RanksOf(kept), Best(cs[..n], tier), s.limit)
  {
    if tier > s.bestTier {
      BestOfHigherTier(cs[..n], tier);
    }
  }

  lemma TruncatedTracks(m: map<Text, Candidate>, cs: seq<Candidate>, all: Ranks, limit: nat, tier: nat, next: nat)
    requires NoneOrdered(m) && SourcesFit(m, cs, tier) && Stored(m, tier, next)
    requires Shadow(RanksOf(m), all, limit)
    ensures var t := Truncated(m, limit);
      NoneOrdered(t) && SourcesFit(t, cs, tier) && Shadow(RanksOf(t), all, limit)
  {
    hide Before, Top, Better, Shadow;
    TruncatedIsStored(m, limit, tier, next);
    ShadowTruncate(RanksOf(m), all, limit);
  }

  lemma {:induction false} StreamTracks(cs: seq<Candidate>, n: nat, limit: nat)
    requires n <= |cs| && AllPlain(cs) && AllCoherent(cs)
    ensures Tracks(Streamed(cs[..n], limit), cs, n)
  {
    if n > 0 {
      StreamTracks(cs, n - 1, limit);
      StreamedIsValid(cs[..n - 1], limit);
      PrefixGrows(cs, n - 1);
      PushTracks(Streamed(cs[..n - 1], limit), cs, n - 1);
    }
  }

  /**
   The sink returns exactly what sorting the whole de-duplicated best tier would:
   the same values, displays and scores in the same order.
   */
  lemma StreamingEqualsBatch(cs: seq<Candidate>, limit: nat)
    requires AllPlain(cs) && AllCoherent(cs)
    ensures Streaming(cs, limit) == Batch(cs, limit)
  {
    var s := Streamed(cs, limit);
    StreamedIsValid(cs, limit);
    StreamTracks(cs, |cs|, limit);
    assert cs[..|cs|] == cs;
    var all := Best(cs, TopTier(cs));
    var m := RanksOf(s.candidates);
    assert Shadow(m, all, s.limit);
    hide Shadow, Streamed, Tracks, Best, TopTier, RanksOf, Picked, Ranked, Finished, Stored;
    BestIsUnordered(cs, TopTier(cs));
    FinishedIsPicked(s);
    ShadowPicked(m, all, s.limit);
  }

  // ---------------------------------------------------------------------
  // What a whole collection returns
  // ---------------------------------------------------------------------

  ghost predicate Strongest(cs: seq<Candidate>, c: Candidate) {
    forall i :: 0 <= i < |cs| ==> !StrongerSet(cs[i].matchClass, c.matchClass)
  }

  /** The values that have a candidate in the strongest set. */
  ghost function StrongestValues(cs: seq<Candidate>): set<Text> {
    set i | 0 <= i < |cs| && Strongest(cs, cs[i]) :: cs[i].value
  }

  /** The number of candidates with an order of their own. */
  function OrderedIn(cs: seq<Candidate>): nat {
    if cs == [] then 0 else OrderedIn(cs[..|cs| - 1]) + if cs[|cs| - 1].preserveOrder then 1 else 0
  }

  /** One offered candidate gave `c` its text and class; merging can only have raised the score. */
  ghost predicate Backed(cs: seq<Candidate>, c: Candidate) {
    exists i :: 0 <= i < |cs| && cs[i].value == c.value && cs[i].display == c.display
      && cs[i].matchClass == c.matchClass && cs[i].score <= c.score
  }

  ghost predicate OffersSource(cs: seq<Candidate>, v: Text, source: Source) {
    exists i :: 0 <= i < |cs| && cs[i].value == v && source in cs[i].sources
  }

  ghost predicate OffersDescription(cs: seq<Candidate>, v: Text, description: Option<Text>) {
    exists i :: 0 <= i < |cs| && cs[i].value == v && cs[i].description == description
  }

  ghost predicate OffersNoSpace(cs: seq<Candidate>, v: Text) {
    exists i :: 0 <= i < |cs| && cs[i].value == v && !cs[i].appendSpace
  }

  /** The `order`-th candidate with an order of its own was offered for this value. */
  ghost predicate OffersOrder(cs: seq<Candidate>, v: Text, order: nat) {
    exists i :: 0 <= i < |cs| && cs[i].value == v && cs[i].preserveOrder && OrderedIn(cs[..i]) == order
  }

  /** Whatever else `c` carries, an offered candidate for its value carried. */
  ghost predicate Drawn(cs: seq<Candidate>, c: Candidate) {
    && OwnOrder(c)
    && (forall source :: source in c.sources ==> OffersSource(cs, c.value, source))
    && OffersDescription(cs, c.value, c.description)
    && (!c.appendSpace ==> OffersNoSpace(cs, c.value))
    && (c.insertionOrder.Some? ==> OffersOrder(cs, c.value, c.insertionOrder.value))
  }

  lemma BackedGrows(cs: seq<Candidate>, o: Candidate, c: Candidate)
    requires Backed(cs, c)
    ensures Backed(cs + [o], c)
  {
    var i :| 0 <= i < |cs| && cs[i].value == c.value && cs[i].display == c.display
      && cs[i].matchClass == c.matchClass && cs[i].score <= c.score;
    assert (cs + [o])[i] == cs[i];
  }

  lemma OffersGrow(cs: seq<Candidate>, o: Candidate, v: Text)
    ensures forall source :: OffersSource(cs, v, source) ==> OffersSource(cs + [o], v, source)
    ensures forall d :: OffersDescription(cs, v, d) ==> OffersDescription(cs + [o], v, d)
    ensures OffersNoSpace(cs, v) ==> OffersNoSpace(cs + [o], v)
  {
    var all := cs + [o];
    assert forall i :: 0 <= i < |cs| ==> all[i] == cs[i];
  }

  lemma OffersOrderGrows(cs: seq<Candidate>, o: Candidate, v: Text, order: nat)
    requires OffersOrder(cs, v, order)
    ensures OffersOrder(cs + [o], v, order)
  {
    var i :| 0 <= i < |cs| && cs[i].value == v && cs[i].preserveOrder && OrderedIn(cs[..i]) == order;
    assert (cs + [o])[i] == cs[i] && (cs + [o])[..i] == cs[..i];
  }

  lemma DrawnGrows(cs: seq<Candidate>, o: Candidate, c: Candidate)
    requires Drawn(cs, c)
    ensures Drawn(cs + [o], c)
  {
    hide OffersSource, OffersDescription, OffersNoSpace, OffersOrder;
    OffersGrow(cs, o, c.value);
    if c.insertionOrder.Some? {
      OffersOrderGrows(cs, o, c.value, c.insertionOrder.value);
    }
  }

  lemma OfferedIsDrawn(cs: seq<Candidate>, o: Candidate)
    requires Fresh(o)
    ensures Backed(cs + [o], Numbered(o, OrderedIn(cs))) && Drawn(cs + [o], Numbered(o, OrderedIn(cs)))
  {
    var all := cs + [o];
    assert all[|cs|] == o && all[..|cs|] == cs;
  }

  /** How two candidates for one value combine. */
  lemma MergedCombines(current: Candidate, c: Candidate)
    ensures var r := Merged(current, c); var won := if c.score > current.score then c else current;
      && r.value == won.value && r.display == won.display && r.matchClass == won.matchClass
      && (won.description.Some? ==> r.description == won.description)
      && r.description in {current.description, c.description}
      && (r.description.None? ==> current.description.None? && c.description.None?)
    ensures var r := Merged(current, c);
      && (forall source :: source in r.sources <==> source in current.sources || source in c.sources)
      && r.score >= current.score && r.score >= c.score
      && (current.sources == {} || c.sources <= current.sources ==> r.score in {current.score, c.score})
      && (current.sources != {} && !(c.sources <= current.sources) ==> r.score in {current.score + 8, c.score + 8})
    ensures var r := Merged(current, c);
      && (r.appendSpace <==> current.appendSpace && c.appendSpace)
      && (r.preserveOrder <==> current.preserveOrder || c.preserveOrder)
      && r.insertionOrder in {current.insertionOrder, c.insertionOrder}
      && (forall order :: Some(order) in {current.insertionOrder, c.insertionOrder} ==>
            r.insertionOrder.Some? && r.insertionOrder.value <= order)
  {
    if !(c.sources <= current.sources) {
      var source :| source in c.sources && source !in current.sources;
      assert source in c.sources - current.sources;
    }
  }

  ghost predicate AllBacked(m: map<Text, Candidate>, cs: seq<Candidate>) {
    forall v :: v in m ==> m[v].value == v && Backed(cs, m[v]) && Drawn(cs, m[v])
  }

  lemma MergedIsBacked(cs: seq<Candidate>, current: Candidate, c: Candidate)
    requires current.value == c.value && Backed(cs, current) && Backed(cs, c) && Drawn(cs, current) && Drawn(cs, c)
    ensures Backed(cs, Merged(current, c)) && Drawn(cs, Merged(current, c))
  {
    MergedCombines(current, c);
    hide Merged, OffersSource, OffersDescription, OffersNoSpace, OffersOrder;
    var r := Merged(current, c);
    assert Backed(cs, r) by {
      var won := if c.score > current.score then c else current;
      var i :| 0 <= i < |cs| && cs[i].value == won.value && cs[i].display == won.display
        && cs[i].matchClass == won.matchClass && cs[i].score <= won.score;
    }
    hide Backed;
    assert r.preserveOrder <==> r.insertionOrder.Some? by {
      assert current.insertionOrder.Some? ==> current.insertionOrder == Some(current.insertionOrder.value);
      assert c.insertionOrder.Some? ==> c.insertionOrder == Some(c.insertionOrder.value);
    }
  }

  lemma BackedIsKept(m: map<Text, Candidate>, cs: seq<Candidate>, o: Candidate)
    requires AllBacked(m, cs)
    ensures AllBacked(m, cs + [o])
  {
    hide Backed, Drawn;
    forall v | v in m ensures Backed(cs + [o], m[v]) && Drawn(cs + [o], m[v]) {
      BackedGrows(cs, o, m[v]);
      DrawnGrows(cs, o, m[v]);
    }
  }

  lemma PlacedIsBacked(m: map<Text, Candidate>, cs: seq<Candidate>, o: Candidate)
    requires AllBacked(m, cs) && Fresh(o)
    ensures AllBacked(Placed(m, Numbered(o, OrderedIn(cs))), cs + [o])
  {
    var c := Numbered(o, OrderedIn(cs));
    OfferedIsDrawn(cs, o);
    BackedIsKept(m, cs, o);
    hide *;
    PlacedOneBacked(m, cs + [o], c);
  }

  lemma PlacedOneBacked(m: map<Text, Candidate>, cs: seq<Candidate>, c: Candidate)
    requires AllBacked(m, cs) && Backed(cs, c) && Drawn(cs, c)
    ensures AllBacked(Placed(m, c), cs)
  {
    hide Backed, Drawn, Merged;
    if c.value in m {
      MergedIsBacked(cs, m[c.value], c);
      MergedCombines(m[c.value], c);
    }
  }

  lemma OrderedInGrows(cs: seq<Candidate>, o: Candidate)
    ensures OrderedIn(cs + [o]) == OrderedIn(cs) + if o.preserveOrder then 1 else 0
  {
    assert (cs + [o])[..|cs|] == cs;
  }

  lemma KeptIsBacked(s: State, cs: seq<Candidate>, tier: nat)
    requires AllBacked(s.candidates, cs)
    ensures AllBacked(Kept(s, tier), cs)
  {
    hide Backed, Drawn;
  }

  lemma TruncatedIsBacked(m: map<Text, Candidate>, cs: seq<Candidate>, limit: nat)
    requires AllBacked(m, cs)
    ensures AllBacked(Truncated(m, limit), cs)
  {
    TruncatedKeepsSome(m, limit);
    hide Backed, Drawn, Truncated;
  }

  lemma PushedIsBacked(s: State, cs: seq<Candidate>, o: Candidate)
    requires s.Valid() && Fresh(o) && AllBacked(s.candidates, cs) && s.next == OrderedIn(cs)
    ensures AllBacked(Pushed(s, o).candidates, cs + [o]) && Pushed(s, o).next == OrderedIn(cs + [o])
  {
    var c := Numbered(o, s.next);
    var tier := SetTier(c.matchClass);
    var kept := Kept(s, tier);
    assert c.preserveOrder == o.preserveOrder && s.limit >= 1;
    hide *;
    PushedCases(s, o);
    OrderedInGrows(cs, o);
    BackedIsKept(s.candidates, cs, o);
    KeptIsBacked(s, cs, tier);
    PlacedIsBacked(kept, cs, o);
    TruncatedIsBacked(Placed(kept, c), cs + [o], s.limit);
  }

  ghost function ValuesIn(cs: seq<Candidate>, tier: nat): set<Text> {
    set i | 0 <= i < |cs| && SetTier(cs[i].matchClass) == tier :: cs[i].value
  }

  /** All values of the best tier are held, or at least as many as may be returned. */
  ghost predicate Holds(s: State, cs: seq<Candidate>) {
    && s.bestTier == TopTier(cs)
    && s.candidates.Keys <= ValuesIn(cs, s.bestTier)
    && (s.candidates.Keys == ValuesIn(cs, s.bestTier) || |s.candidates| >= s.limit)
  }

  lemma ValuesInGrow(cs: seq<Candidate>, o: Candidate, tier: nat)
    ensures ValuesIn(cs + [o], tier) == ValuesIn(cs, tier) + if SetTier(o.matchClass) == tier then {o.value} else {}
  {
    var all := cs + [o];
    hide SetTier;
    forall v | v in ValuesIn(cs, tier) ensures v in ValuesIn(all, tier) {
      var i :| 0 <= i < |cs| && SetTier(cs[i].matchClass) == tier && cs[i].value == v;
      assert all[i] == cs[i];
    }
    assert all[|cs|] == o;
  }

  lemma {:induction false} TopTierIsTop(cs: seq<Candidate>, i: nat)
    requires i < |cs|
    ensures SetTier(cs[i].matchClass) <= TopTier(cs)
  {
    if i < |cs| - 1 {
      TopTierIsTop(cs[..|cs| - 1], i);
    }
  }

  lemma {:induction false} TopTierIsReached(cs: seq<Candidate>) returns (i: nat)
    requires cs != []
    ensures i < |cs| && SetTier(cs[i].matchClass) == TopTier(cs)
  {
    var n := |cs| - 1;
    assert cs[..n] == [] ==> TopTier(cs[..n]) == 0;
    if SetTier(cs[n].matchClass) == TopTier(cs) {
      i := n;
    } else {
      i := TopTierIsReached(cs[..n]);
    }
  }

  lemma NothingAbove(cs: seq<Candidate>, tier: nat)
    requires tier > TopTier(cs)
    ensures ValuesIn(cs, tier) == {}
  {
    forall i | 0 <= i < |cs| ensures SetTier(cs[i].matchClass) != tier {
      TopTierIsTop(cs, i);
    }
  }

  lemma PlacedHolds(kept: map<Text, Candidate>, c: Candidate, all: set<Text>, limit: nat)
    requires kept.Keys <= all && (kept.Keys == all || |kept| >= limit)
    ensures var placed := Placed(kept, c);
      placed.Keys <= all + {c.value} && (placed.Keys == all + {c.value} || |placed| >= limit)
  {
    PlacedSize(kept, c);
    assert Placed(kept, c).Keys == kept.Keys + {c.value};
  }

  lemma TruncatedHolds(m: map<Text, Candidate>, all: set<Text>, limit: nat, tier: nat, next: nat)
    requires Stored(m, tier, next) && m.Keys <= all && limit <= |m|
    ensures Truncated(m, limit).Keys <= all && |Truncated(m, limit)| >= limit
  {
    TruncatedIsStored(m, limit, tier, next);
    TruncatedKeepsSome(m, limit);
    assert Truncated(m, limit).Keys <= m.Keys;
  }

  lemma KeptHolds(s: State, cs: seq<Candidate>, tier: nat)
    requires Holds(s, cs) && tier >= s.bestTier
    ensures var kept := Kept(s, tier); var all := ValuesIn(cs, tier);
      kept.Keys <= all && (kept.Keys == all || |kept| >= s.limit)
  {
    if tier > s.bestTier {
      NothingAbove(cs, tier);
      hide ValuesIn;
      assert Kept(s, tier).Keys == {};
    }
  }

  lemma HeldKeysHold(t: State, cs: seq<Candidate>, all: set<Text>)
    requires t.bestTier == TopTier(cs) && all == ValuesIn(cs, t.bestTier)
    requires t.candidates.Keys <= all && (t.candidates.Keys == all || |t.candidates| >= t.limit)
    ensures Holds(t, cs)
  {
    hide TopTier, ValuesIn;
  }

  lemma PushedHolds(s: State, cs: seq<Candidate>, o: Candidate)
    requires s.Valid() && Fresh(o) && Holds(s, cs)
    ensures Holds(Pushed(s, o), cs + [o])
  {
    var c := Numbered(o, s.next);
    var tier := SetTier(c.matchClass);
    var kept := Kept(s, tier);
    var next := if c.preserveOrder then s.next + 1 else s.next;
    var all := ValuesIn(cs + [o], if tier > s.bestTier then tier else s.bestTier);
    assert s.limit >= 1 && c.matchClass == o.matchClass && c.value == o.value;
    assert s.bestTier == TopTier(cs) && s.candidates.Keys <= ValuesIn(cs, s.bestTier)
      && (s.candidates.Keys == ValuesIn(cs, s.bestTier) || |s.candidates| >= s.limit);
    PlacedIsStoredAs(s, o);
    hide *;
    Snoc(cs, o, s.limit);
    ValuesInGrow(cs, o, s.bestTier);
    ValuesInGrow(cs, o, tier);
    PushedCases(s, o);
    if tier >= s.bestTier {
      KeptHolds(s, cs, tier);
      StepHolds(kept, c, ValuesIn(cs, tier), s.limit, tier, next);
    }
    HeldKeysHold(Pushed(s, o), cs + [o], all);
  }

  lemma StepHolds(kept: map<Text, Candidate>, c: Candidate, all: set<Text>, limit: nat, tier: nat, next: nat)
    requires Stored(Placed(kept, c), tier, next)
    requires kept.Keys <= all && (kept.Keys == all || |kept| >= limit)
    ensures var m := if Reviews(kept, c, limit) then Truncated(Placed(kept, c), limit) else Placed(kept, c);
      m.Keys <= all + {c.value} && (m.Keys == all + {c.value} || |m| >= limit)
  {
    var big := Reviews(kept, c, limit);
    assert big ==> |Placed(kept, c)| >= limit;
    hide *;
    PlacedHolds(kept, c, all, limit);
    if big {
      TruncatedHolds(Placed(kept, c), all + {c.value}, limit, tier, next);
    }
  }

  lemma PlacedIsStoredAs(s: State, o: Candidate)
    requires s.Valid() && Fresh(o)
    ensures var c := Numbered(o, s.next); var tier := SetTier(c.matchClass);
      tier >= s.bestTier ==>
        Stored(Placed(Kept(s, tier), c), tier, if c.preserveOrder then s.next + 1 else s.next)
  {
    var tier := SetTier(Numbered(o, s.next).matchClass);
    if tier >= s.bestTier {
      assert Stored(Kept(s, tier), tier, s.next);
      hide Stored, Kept, Placed;
      PlacedIsStored(Kept(s, tier), o, tier, s.next);
    }
  }

  lemma NothingStreamed(cs: seq<Candidate>, limit: nat)
    requires cs == []
    ensures var s := Streamed(cs, limit);
      Holds(s, cs) && AllBacked(s.candidates, cs) && s.next == OrderedIn(cs)
  {
  }

  lemma FreshPrefix(cs: seq<Candidate>, n: nat)
    requires AllFresh(cs) && n < |cs|
    ensures AllFresh(cs[..n]) && Fresh(cs[n])
  {
  }

  lemma {:induction false} StreamHolds(cs: seq<Candidate>, limit: nat)
    requires AllFresh(cs)
    ensures var s := Streamed(cs, limit);
      s.Valid() && Holds(s, cs) && AllBacked(s.candidates, cs) && s.next == OrderedIn(cs)
  {
    hide *;
    StreamedIsValid(cs, limit);
    if cs == [] {
      NothingStreamed(cs, limit);
    } else {
      var n := |cs| - 1;
      FreshPrefix(cs, n);
      StreamHolds(cs[..n], limit);
      StreamedIsValid(cs[..n], limit);
      assert cs == cs[..n] + [cs[n]];
      Snoc(cs[..n], cs[n], limit);
      PushedHolds(Streamed(cs[..n], limit), cs[..n], cs[n]);
      PushedIsBacked(Streamed(cs[..n], limit), cs[..n], cs[n]);
    }
  }

  lemma StrongestIsTopTier(cs: seq<Candidate>, c: Candidate)
    requires cs != [] && SetTier(c.matchClass) <= TopTier(cs)
    ensures Strongest(cs, c) <==> SetTier(c.matchClass) == TopTier(cs)
  {
    var top := TopTierIsReached(cs);
    SetTiersAreSets(cs[top].matchClass, c.matchClass);
    forall i | 0 <= i < |cs| ensures SetTier(cs[i].matchClass) <= TopTier(cs)
      && (StrongerSet(cs[i].matchClass, c.matchClass) <==> SetTier(cs[i].matchClass) > SetTier(c.matchClass))
    {
      TopTierIsTop(cs, i);
      SetTiersAreSets(cs[i].matchClass, c.matchClass);
    }
    hide SetTier, StrongerSet;
  }

  lemma StrongestValuesAreTop(cs: seq<Candidate>)
    ensures StrongestValues(cs) == ValuesIn(cs, TopTier(cs))
  {
    forall i | 0 <= i < |cs| ensures Strongest(cs, cs[i]) <==> SetTier(cs[i].matchClass) == TopTier(cs) {
      TopTierIsTop(cs, i);
      StrongestIsTopTier(cs, cs[i]);
    }
    hide SetTier, Strongest, TopTier;
  }

  /** What the sink promises of any collection. */
  ghost predicate Delivers(cs: seq<Candidate>, values: seq<Candidate>, limit: nat) {
    && Arranged(values)
    && |values| == Min(if limit > 1 then limit else 1, |StrongestValues(cs)|)
    && forall j :: 0 <= j < |values| ==> Strongest(cs, values[j]) && Backed(cs, values[j]) && Drawn(cs, values[j])
  }

  lemma HeldIsStrongest(cs: seq<Candidate>, s: State, v: Text)
    requires s.Valid() && Holds(s, cs) && v in s.candidates
    ensures Strongest(cs, s.candidates[v])
  {
    assert SetTier(s.candidates[v].matchClass) == s.bestTier;
    assert v in ValuesIn(cs, s.bestTier);
    StrongestIsTopTier(cs, s.candidates[v]);
  }

  lemma FirstOfDelivers(cs: seq<Candidate>, s: State, values: seq<Candidate>, limit: nat)
    requires Arranged(values) && FirstOf(values, s.candidates, s.limit) && AllBacked(s.candidates, cs)
    requires forall v :: v in s.candidates ==> Strongest(cs, s.candidates[v])
    requires s.limit == if limit > 1 then limit else 1
    requires Min(s.limit, |s.candidates|) == Min(s.limit, |StrongestValues(cs)|)
    ensures Delivers(cs, values, limit)
  {
    hide Strongest, Backed, Drawn, Arranged, InOrder, StrongestValues;
  }

  lemma FinishedDelivers(cs: seq<Candidate>, limit: nat)
    requires AllFresh(cs)
    ensures Streamed(cs, limit).Valid() && Delivers(cs, Finished(Streamed(cs, limit)), limit)
  {
    var s := Streamed(cs, limit);
    StreamHolds(cs, limit);
    StreamedIsValid(cs, limit);
    assert s.bestTier == TopTier(cs);
    assert Empty(limit).limit == if limit > 1 then limit else 1;
    hide *;
    FinishedIsFirst(s);
    StrongestValuesAreTop(cs);
    HeldEnough(s, cs);
    forall v | v in s.candidates ensures Strongest(cs, s.candidates[v]) {
      HeldIsStrongest(cs, s, v);
    }
    FirstOfDelivers(cs, s, Finished(s), limit);
  }

  lemma HeldEnough(s: State, cs: seq<Candidate>)
    requires Holds(s, cs)
    ensures Min(s.limit, |s.candidates|) == Min(s.limit, |ValuesIn(cs, s.bestTier)|)
  {
    SubsetSize(s.candidates.Keys, ValuesIn(cs, s.bestTier));
    assert |s.candidates.Keys| == |s.candidates|;
  }

  // ---------------------------------------------------------------------
  // Nothing better is left out
  // ---------------------------------------------------------------------

  ghost predicate Represented(values: seq<Candidate>, c: Candidate) {
    exists j :: 0 <= j < |values| && values[j].value == c.value && values[j].score >= c.score
  }

  /** Every candidate of the strongest set is represented, or the list is full of candidates that come before it. */
  ghost predicate Complete(cs: seq<Candidate>, values: seq<Candidate>, limit: nat) {
    forall i :: 0 <= i < |cs| && Strongest(cs, cs[i]) && !Represented(values, cs[i]) ==>
      |values| == (if limit > 1 then limit else 1) && forall j :: 0 <= j < |values| ==> InOrder(values[j], cs[i])
  }

  lemma PickedAt(m: Ranks, limit: nat, j: nat)
    requires Keyed(m)
    ensures var r := Picked(m, limit);
      |r| == Min(limit, |m|) && (j < |r| ==> r[j] == m[Listing(m)[j]])
  {
    hide Before, Keyed;
  }

  lemma PickedComesFirst(m: Ranks, limit: nat, v: Text)
    requires Keyed(m) && v in m
    ensures var r := Picked(m, limit);
      || (exists j :: 0 <= j < |r| && r[j] == m[v])
      || (|r| == limit && forall j :: 0 <= j < |r| ==> Before(r[j], m[v]))
  {
    var order := Listing(m);
    var r := Picked(m, limit);
    assert |order| == |m|;
    hide Before, Listing, Keyed, Picked;
    ListingContains(m, v);
    var k :| 0 <= k < |order| && order[k] == v;
    PickedAt(m, limit, k);
    if k >= limit {
      forall j | 0 <= j < |r| ensures Before(r[j], m[v]) {
        PickedAt(m, limit, j);
        ListingOrder(m, j, k);
      }
    }
  }

  lemma BatchIsComplete(cs: seq<Candidate>, limit: nat, i: nat)
    requires AllPlain(cs) && AllCoherent(cs) && i < |cs| && SetTier(cs[i].matchClass) == TopTier(cs)
    ensures var r := Batch(cs, limit);
      || (exists j :: 0 <= j < |r| && r[j].value == cs[i].value && r[j].score >= cs[i].score)
      || (|r| == (if limit > 1 then limit else 1) && forall j :: 0 <= j < |r| ==> Before(r[j], RankOf(cs[i])))
  {
    var all := Best(cs, TopTier(cs));
    var v := cs[i].value;
    BestIsHighest(cs, TopTier(cs), i);
    BestIsUnordered(cs, TopTier(cs));
    PickedComesFirst(all, if limit > 1 then limit else 1, v);
    BestComesBefore(cs, i);
    var r := Batch(cs, limit);
    hide Before, Best, Picked, RankOf, TopTier, SetTier, AllCoherent, AllPlain, Batch;
    if j :| 0 <= j < |r| && r[j] == all[v] {
      assert r[j].value == v;
    } else {
      forall j | 0 <= j < |r| ensures Before(r[j], RankOf(cs[i])) {
        if all[v] != RankOf(cs[i]) {
          BeforeIsTransitive(r[j], all[v], RankOf(cs[i]));
        }
      }
    }
  }

  lemma BestComesBefore(cs: seq<Candidate>, i: nat)
    requires AllPlain(cs) && AllCoherent(cs) && i < |cs| && SetTier(cs[i].matchClass) == TopTier(cs)
    requires cs[i].value in Best(cs, TopTier(cs)) && Best(cs, TopTier(cs))[cs[i].value].score >= cs[i].score
    ensures var b := Best(cs, TopTier(cs))[cs[i].value]; b == RankOf(cs[i]) || Before(b, RankOf(cs[i]))
  {
    var k := BestComesFromTheSequence(cs, TopTier(cs), cs[i].value);
    hide Before, Best, TopTier;
    if k != i {
      assert Coherent(cs[k], cs[i]) || Coherent(cs[i], cs[k]);
      hide SetTier;
      if Coherent(cs[k], cs[i]) {
        CoherentIsComparable(cs[k], cs[i]);
      } else {
        CoherentIsComparable(cs[i], cs[k]);
      }
    }
  }

  lemma CoherentIsComplete(cs: seq<Candidate>, values: seq<Candidate>, limit: nat)
    requires AllPlain(cs) && AllCoherent(cs) && Ranked(values) == Batch(cs, limit)
    requires forall j :: 0 <= j < |values| ==> OwnOrder(values[j])
    ensures Complete(cs, values, limit)
  {
    var r := Batch(cs, limit);
    forall i | 0 <= i < |cs| && Strongest(cs, cs[i]) && !Represented(values, cs[i])
      ensures |values| == (if limit > 1 then limit else 1) && forall j :: 0 <= j < |values| ==> InOrder(values[j], cs[i])
    {
      TopTierIsTop(cs, i);
      StrongestIsTopTier(cs, cs[i]);
      BatchIsComplete(cs, limit, i);
      hide Batch, Before, AllCoherent, Strongest, SetTier, TopTier, InOrder;
      assert forall j :: 0 <= j < |values| ==> r[j] == RankOf(values[j]);
      assert !(exists j :: 0 <= j < |r| && r[j].value == cs[i].value && r[j].score >= cs[i].score);
      forall j | 0 <= j < |values| ensures InOrder(values[j], cs[i]) {
        BeforeIsInOrder(values[j], cs[i]);
      }
    }
  }

  /** A whole collection through the sink. */
  method Collect(cs: seq<Candidate>, limit: nat) returns (values: seq<Candidate>)
    requires AllFresh(cs)
    ensures Delivers(cs, values, limit)
    ensures Ranked(values) == Streaming(cs, limit)
    ensures AllPlain(cs) && AllCoherent(cs) ==> Complete(cs, values, limit) && Ranked(values) == Batch(cs, limit)
  {
    hide Finished, Pushed, Batch, AllCoherent, Arranged, FirstOf, InOrder, State.Valid, Delivers, Complete;
    var sink := new Sink(limit);
    assert cs[..0] == [];
    for i := 0 to |cs|
      invariant sink.Valid() && sink.Value() == Streamed(cs[..i], limit)
    {
      assert cs[..i + 1][..i] == cs[..i];
      sink.Push(cs[i]);
    }
    assert cs[..|cs|] == cs;
    values := sink.Finish();
    FinishedDelivers(cs, limit);
    if AllPlain(cs) && AllCoherent(cs) {
      StreamingEqualsBatch(cs, limit);
      DeliversOwnOrder(cs, values, limit);
      CoherentIsComplete(cs, values, limit);
    }
  }

  lemma DeliversOwnOrder(cs: seq<Candidate>, values: seq<Candidate>, limit: nat)
    requires Delivers(cs, values, limit)
    ensures forall j :: 0 <= j < |values| ==> OwnOrder(values[j])
  {
  }

  lemma ShadowPicked(m: Ranks, all: Ranks, limit: nat)
    requires Shadow(m, all, limit)
    ensures Keyed(m) && Keyed(all) && Picked(m, limit) == Picked(all, limit)
  {
    UnorderedIsKeyed(m);
    UnorderedIsKeyed(all);
    ShadowTop(m, all, limit);
    TopIsPrefix(m, limit);
    TopIsPrefix(all, limit);
    TopIsTaken(m, limit);
    TopIsTaken(all, limit);
    hide Before, Better, Listing, Shadow, Keyed, Take;
  }

  lemma FinishedIsPicked(s: State)
    requires s.Valid()
    ensures Keyed(RanksOf(s.candidates))
    ensures Ranked(Finished(s)) == Picked(RanksOf(s.candidates), s.limit)
  {
    FinishedBody(s);
    FinishedRanks(s);
    hide Before, Better, Top, RankOf, Listing, Finished;
  }

  lemma FinishedRanks(s: State)
    requires s.Valid()
    ensures Keyed(RanksOf(s.candidates))
    ensures var m := RanksOf(s.candidates); var order := Take(Listing(m), s.limit);
      && |Finished(s)| == |order|
      && forall i :: 0 <= i < |order| ==> RankOf(Finished(s)[i]) == m[order[i]]
  {
    hide Before, Better, Top, RankOf;
    FinishedBody(s);
  }

  // ---------------------------------------------------------------------
  // Coherence is the exact condition
  // ---------------------------------------------------------------------

  lemma AloneOnTop(m: Ranks, r: Rank)
    requires m == map[r.value := r]
    ensures Keyed(m) && Picked(m, 1) == [r]
  {
    assert |m| == 1 by { assert m.Keys == {r.value}; }
    assert Listing(m)[0] == r.value;
  }

  lemma PickedOnlyTop(m: Ranks, limit: nat)
    requires Keyed(m)
    ensures Keyed(Top(m, limit)) && Picked(m, limit) == Picked(Top(m, limit), limit)
  {
    hide Before, Better, Listing, Keyed;
    TopIsPrefix(m, limit);
    TopIsTaken(m, limit);
    TopKeyed(m, limit);
    assert Take(Take(Listing(m), limit), limit) == Take(Listing(m), limit);
  }

  lemma TopOfTwo(m: Ranks, a: Rank, b: Rank)
    requires m == map[a.value := a, b.value := b] && a.value != b.value
    requires Unordered(a) && Unordered(b) && Before(a, b)
    ensures Keyed(m) && Top(m, 1) == map[a.value := a]
  {
    UnorderedIsKeyed(m);
    BeforeIsAsymmetric(a, b);
    BeforeIsIrreflexive(a);
    BeforeIsIrreflexive(b);
    hide Before;
    assert Better(m, a) == {};
    assert Better(m, b) == {a.value};
  }

  lemma FirstOfTwo(m: Ranks, a: Rank, b: Rank)
    requires m == map[a.value := a, b.value := b] && a.value != b.value
    requires Unordered(a) && Unordered(b) && Before(a, b)
    ensures Keyed(m) && Top(m, 1) == map[a.value := a] && Picked(m, 1) == [a]
  {
    hide Before, Top, Listing, Keyed, Picked;
    TopOfTwo(m, a, b);
    PickedOnlyTop(m, 1);
    AloneOnTop(Top(m, 1), a);
  }

  /** A value next to `c`: no candidate for the value of `c` fits between them. */
  function Neighbour(c: Candidate): Candidate {
    c.(value := c.value + [0], sources := {})
  }

  lemma NeighbourIsNext(c: Candidate, d: Candidate)
    requires Plain(c) && Plain(d) && d.value == c.value && Before(RankOf(c), RankOf(d))
    requires d.score > c.score ==> SortTier(d.matchClass) < SortTier(c.matchClass)
    ensures Before(RankOf(c), RankOf(Neighbour(c)))
    ensures Before(RankOf(Neighbour(c)), RankOf(d))
  {
    LessIsExtended(c.value);
    if Less(c.value, c.value) {
      LessIsAsymmetric(c.value, c.value);
    }
  }

  lemma {:induction false} LessIsExtended(v: Text)
    ensures Less(v, v + [0])
  {
    if v != [] {
      LessIsExtended(v[1..]);
      assert (v + [0])[1..] == v[1..] + [0];
    }
  }

  lemma Snoc(cs: seq<Candidate>, c: Candidate, limit: nat)
    ensures Streamed(cs + [c], limit) == Pushed(Streamed(cs, limit), c)
    ensures TopTier(cs + [c]) ==
      if SetTier(c.matchClass) > TopTier(cs) then SetTier(c.matchClass) else TopTier(cs)
    ensures Best(cs + [c], SetTier(c.matchClass)) == Offer(Best(cs, SetTier(c.matchClass)), RankOf(c))
  {
    hide Pushed, Offer, RankOf, SetTier;
    assert (cs + [c])[..|cs|] == cs;
  }

  /** A sink with limit 1 that holds one candidate. */
  function Holding(c: Candidate): State {
    State(1, SetTier(c.matchClass), map[c.value := c], 0)
  }

  lemma PushFirst(c: Candidate)
    requires Plain(c)
    ensures Streamed([c], 1) == Holding(c)
    ensures TopTier([c]) == SetTier(c.matchClass) && Best([c], SetTier(c.matchClass)) == map[c.value := RankOf(c)]
  {
    RankFields(c);
    hide RankOf;
    Snoc([], c, 1);
    assert [] + [c] == [c];
  }

  lemma PushOther(a: Candidate, b: Candidate)
    requires Plain(a) && Plain(b) && a.value != b.value && SetTier(a.matchClass) == SetTier(b.matchClass)
    ensures Pushed(Holding(a), b)
      == State(1, SetTier(a.matchClass), Truncated(map[a.value := a, b.value := b], 1), 0)
  {
    hide Truncated;
    var placed := Placed(map[a.value := a], b);
    assert placed == map[a.value := a, b.value := b];
    assert placed.Keys == {a.value, b.value};
  }

  lemma TruncatedToOne(a: Candidate, b: Candidate)
    requires Plain(a) && Plain(b) && a.value != b.value && Before(RankOf(a), RankOf(b))
    ensures Truncated(map[a.value := a, b.value := b], 1) == map[a.value := a]
  {
    var m := map[a.value := a, b.value := b];
    var ranks := RanksOf(m);
    hide Before, RankOf, Top;
    assert RankOf(a).value == a.value && RankOf(b).value == b.value && Unordered(RankOf(a)) && Unordered(RankOf(b)) by {
      RankFields(a);
      RankFields(b);
    }
    assert ranks == map[a.value := RankOf(a), b.value := RankOf(b)];
    FirstOfTwo(ranks, RankOf(a), RankOf(b));
  }

  lemma RankFields(c: Candidate)
    requires Plain(c)
    ensures RankOf(c).value == c.value && Unordered(RankOf(c)) && RankOf(c).score == c.score
  {
  }

  /** Pushing another value onto a full sink leaves the better of the two. */
  lemma PushSecond(a: Candidate, b: Candidate)
    requires Plain(a) && Plain(b) && a.value != b.value && SetTier(a.matchClass) == SetTier(b.matchClass)
    ensures Before(RankOf(a), RankOf(b)) ==> Pushed(Holding(a), b) == Holding(a)
    ensures Before(RankOf(b), RankOf(a)) ==> Pushed(Holding(a), b) == Holding(b)
  {
    hide Before, RankOf, Pushed, Truncated;
    PushOther(a, b);
    if Before(RankOf(a), RankOf(b)) {
      TruncatedToOne(a, b);
    }
    if Before(RankOf(b), RankOf(a)) {
      TruncatedToOne(b, a);
      assert map[a.value := a, b.value := b] == map[b.value := b, a.value := a];
    }
  }

  lemma StreamingOfOne(cs: seq<Candidate>, c: Candidate)
    requires AllPlain(cs) && Plain(c) && Streamed(cs, 1) == Holding(c)
    ensures Streaming(cs, 1) == [RankOf(c)]
  {
    StreamedIsValid(cs, 1);
    hide Before, Pushed, Top, Listing, Streamed, Picked, Finished, RankOf;
    RankFields(c);
    FinishedIsPicked(Holding(c));
    AloneOnTop(RanksOf(Holding(c).candidates), RankOf(c));
  }

  /** The batch of two candidates for one value with another one between. */
  lemma BatchOfThree(first: Candidate, w: Candidate, again: Candidate)
    requires Plain(first) && Plain(w) && Plain(again)
    requires first.value == again.value != w.value
    requires SetTier(first.matchClass) == SetTier(w.matchClass) == SetTier(again.matchClass)
    requires Before(RankOf(w), RankOf(if again.score > first.score then again else first))
    ensures Batch([first, w, again], 1) == [RankOf(w)]
  {
    var cs := [first, w, again];
    var tier := SetTier(first.matchClass);
    hide Before, Top, Listing, Picked, RankOf, Best;
    PushFirst(first);
    Snoc([first], w, 1);
    assert [first] + [w] == [first, w];
    Snoc([first, w], again, 1);
    assert [first, w] + [again] == cs;
    RankFields(first);
    RankFields(w);
    RankFields(again);
    var best := if again.score > first.score then RankOf(again) else RankOf(first);
    assert Best(cs, tier) == map[w.value := RankOf(w), first.value := best];
    FirstOfTwo(Best(cs, tier), RankOf(w), best);
  }

  lemma StreamOfThree(first: Candidate, w: Candidate, again: Candidate)
    requires Plain(first)
    ensures Streamed([first, w, again], 1) == Pushed(Pushed(Holding(first), w), again)
  {
    hide Pushed, Best, TopTier;
    PushFirst(first);
    Snoc([first], w, 1);
    assert [first] + [w] == [first, w];
    Snoc([first, w], again, 1);
    assert [first, w] + [again] == [first, w, again];
  }

  /** Truncation drops the first candidate of a value, and a later one takes the place of a better value. */
  lemma LaterCandidateReturns(first: Candidate, w: Candidate, again: Candidate)
    requires Plain(first) && Plain(w) && Plain(again)
    requires first.value == again.value != w.value && first.score == again.score
    requires SetTier(first.matchClass) == SetTier(w.matchClass) == SetTier(again.matchClass)
    requires Before(RankOf(again), RankOf(w)) && Before(RankOf(w), RankOf(first))
    ensures Streaming([first, w, again], 1) != Batch([first, w, again], 1)
  {
    hide Before, Pushed, Streamed, Streaming, Batch;
    StreamOfThree(first, w, again);
    PushSecond(first, w);
    PushSecond(w, again);
    StreamingOfOne([first, w, again], again);
    BatchOfThree(first, w, again);
  }

  /** A better score in a worse class inherits the place that the better class had won. */
  lemma WorseClassInherits(first: Candidate, w: Candidate, again: Candidate)
    requires Plain(first) && Plain(w) && Plain(again) && SourcesAgree(first, again)
    requires first.value == again.value != w.value && first.score < again.score
    requires SetTier(first.matchClass) == SetTier(w.matchClass) == SetTier(again.matchClass)
    requires Before(RankOf(first), RankOf(w)) && Before(RankOf(w), RankOf(again))
    ensures Streaming([first, w, again], 1) != Batch([first, w, again], 1)
  {
    var both := Merged(first, again);
    assert both.value == first.value;
    StreamedInherits(first, w, again, both);
    hide Before, Streaming, Batch, Merged, RankOf, SetTier;
    StreamingOfOne([first, w, again], both);
    BatchOfThree(first, w, again);
    RankFields(both);
    RankFields(w);
  }

  lemma StreamedInherits(first: Candidate, w: Candidate, again: Candidate, both: Candidate)
    requires Plain(first) && Plain(w)
    requires first.value != w.value && SetTier(first.matchClass) == SetTier(w.matchClass)
    requires Before(RankOf(first), RankOf(w)) && Pushed(Holding(first), again) == Holding(both)
    ensures Streamed([first, w, again], 1) == Holding(both)
  {
    hide Before, Pushed, Streamed, RankOf;
    StreamOfThree(first, w, again);
    PushSecond(first, w);
  }

  lemma BatchOfTwo(a: Candidate, b: Candidate)
    requires Plain(a) && Plain(b) && a.value == b.value && SetTier(a.matchClass) == SetTier(b.matchClass)
    ensures Batch([a, b], 1) == [RankOf(if b.score > a.score then b else a)]
  {
    hide Before, Top, Listing, Picked, RankOf, Best;
    PushFirst(a);
    Snoc([a], b, 1);
    assert [a] + [b] == [a, b];
    RankFields(a);
    RankFields(b);
    var best := if b.score > a.score then b else a;
    assert Best([a, b], SetTier(a.matchClass)) == map[a.value := RankOf(best)];
    AloneOnTop(Best([a, b], SetTier(a.matchClass)), RankOf(best));
  }

  /** Another source adds its bonus. */
  lemma SourceEarnsBonus(a: Candidate, b: Candidate)
    requires Plain(a) && Plain(b) && a.value == b.value && SetTier(a.matchClass) == SetTier(b.matchClass)
    requires a.sources != {} && b.sources - a.sources != {}
    ensures Streaming([a, b], 1) != Batch([a, b], 1)
  {
    var both := Merged(a, b);
    assert RankOf(both).score == RankOf(if b.score > a.score then b else a).score + 8;
    hide Before, Pushed, Streamed, RankOf, Merged, Streaming, Batch, Best;
    PushFirst(a);
    Snoc([a], b, 1);
    assert [a] + [b] == [a, b];
    StreamingOfOne([a, b], both);
    BatchOfTwo(a, b);
  }

  /** Two candidates may appear among others that are coherent with everything. */
  ghost predicate Among(cs: seq<Candidate>, c: Candidate, d: Candidate) {
    forall i, j :: 0 <= i < j < |cs| ==> Coherent(cs[i], cs[j]) || {cs[i], cs[j]} == {c, d}
  }

  lemma IncoherentPairsDiffer(c: Candidate, d: Candidate) returns (cs: seq<Candidate>)
    requires Plain(c) && Plain(d) && !Coherent(c, d)
    ensures AllPlain(cs) && Among(cs, c, d) && Streaming(cs, 1) != Batch(cs, 1)
  {
    if !SourcesAgree(c, d) {
      cs := SourcesDiffer(c, d);
    } else {
      IncoherentIsOrdered(c, d);
      hide RankOf, Streaming, Batch, Before, Coherent, SourcesAgree, AllPlain;
      if Before(RankOf(c), RankOf(d)) {
        cs := BetterRankFirst(c, d);
      } else {
        cs := BetterRankFirst(d, c);
      }
    }
  }

  lemma SourcesDiffer(c: Candidate, d: Candidate) returns (cs: seq<Candidate>)
    requires Plain(c) && Plain(d) && !SourcesAgree(c, d)
    requires c.value == d.value && SetTier(c.matchClass) == SetTier(d.matchClass)
    ensures AllPlain(cs) && Among(cs, c, d) && Streaming(cs, 1) != Batch(cs, 1)
  {
    AmongTwo(c, d);
    AmongTwo(d, c);
    hide Streaming, Batch, Among, SetTier;
    if d.sources - c.sources != {} {
      cs := [c, d];
      SourceEarnsBonus(c, d);
    } else {
      cs := [d, c];
      SourceEarnsBonus(d, c);
    }
  }

  lemma AmongTwo(a: Candidate, b: Candidate)
    ensures Among([a, b], a, b) && Among([a, b], b, a)
  {
    assert {b, a} == {a, b};
    hide Coherent;
  }

  lemma IncoherentIsOrdered(c: Candidate, d: Candidate)
    requires Plain(c) && Plain(d) && !Coherent(c, d) && SourcesAgree(c, d)
    ensures Before(RankOf(c), RankOf(d)) || Before(RankOf(d), RankOf(c))
    ensures !Coherent(d, c) && SourcesAgree(d, c)
  {
    LessIsTotal(c.display, d.display);
    hide Less;
  }

  lemma BetterRankFirst(x: Candidate, y: Candidate) returns (cs: seq<Candidate>)
    requires Plain(x) && Plain(y) && !Coherent(x, y) && SourcesAgree(x, y)
    requires Before(RankOf(x), RankOf(y))
    ensures AllPlain(cs) && Among(cs, x, y) && Streaming(cs, 1) != Batch(cs, 1)
  {
    var w := Neighbour(x);
    NeighbourIsNext(x, y);
    assert |w.value| == |x.value| + 1;
    assert w.matchClass == x.matchClass && Plain(w);
    AmongThree(x, w, y);
    AmongThree(y, w, x);
    assert AllPlain([y, w, x]) && AllPlain([x, w, y]);
    assert SetTier(y.matchClass) == SetTier(w.matchClass) == SetTier(x.matchClass);
    hide RankOf, Streaming, Batch, Before, Less, SetTier, SortTier, Neighbour, Among, Coherent, AllPlain, Plain;
    if x.score == y.score {
      cs := [y, w, x];
      LaterCandidateReturns(y, w, x);
    } else {
      cs := [x, w, y];
      WorseClassInherits(x, w, y);
    }
  }

  lemma AmongThree(a: Candidate, w: Candidate, b: Candidate)
    requires a.value != w.value && a.value == b.value
    ensures Among([a, w, b], a, b) && Among([a, w, b], b, a)
  {
    assert Coherent(a, w) && Coherent(w, b);
    hide Coherent;
    assert {b, a} == {a, b};
  }

  /** Exactly the coherent pairs may be streamed, whatever else and whatever limit. */
  lemma CoherenceIsExact(c: Candidate, d: Candidate)
    requires Plain(c) && Plain(d)
    ensures Coherent(c, d) <==>
      forall cs: seq<Candidate>, limit: nat :: AllPlain(cs) && Among(cs, c, d) ==> Streaming(cs, limit) == Batch(cs, limit)
  {
    if Coherent(c, d) {
      forall cs: seq<Candidate>, limit: nat | AllPlain(cs) && Among(cs, c, d)
        ensures Streaming(cs, limit) == Batch(cs, limit)
      {
        StreamingEqualsBatch(cs, limit);
      }
    } else {
      var cs := IncoherentPairsDiffer(c, d);
    }
  }

}
