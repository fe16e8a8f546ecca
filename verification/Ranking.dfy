/**
 The order in which completion candidates are ranked, and the best-`limit` part
 of a set of candidates with distinct values.
 */
module Ranking {
  import opened Wrappers
  import opened TextOrder

  /** Everything the comparison looks at; `order` is the insertion order of a candidate that preserves it. */
  datatype Rank = Rank(tier: nat, order: Option<nat>, score: int, display: Text, value: Text)

  type Ranks = map<Text, Rank>

  predicate RankedBefore(a: Rank, b: Rank) {
    if a.score != b.score then a.score > b.score
    else if |a.display| != |b.display| then |a.display| < |b.display|
    else if a.display != b.display then Less(a.display, b.display)
    else Less(a.value, b.value)
  }

  predicate Before(a: Rank, b: Rank) {
    if a.tier != b.tier then a.tier > b.tier
    else
      match (a.order, b.order)
      case (Some(i), Some(j)) => i < j
      case (Some(_), None) => true
      case (None, Some(_)) => false
      case (None, None) => RankedBefore(a, b)
  }

  lemma BeforeIsAsymmetric(a: Rank, b: Rank)
    requires Before(a, b)
    ensures !Before(b, a) && a != b
  {
    if a.display != b.display && Less(a.display, b.display) {
      LessIsAsymmetric(a.display, b.display);
    }
    if Less(a.value, b.value) {
      LessIsAsymmetric(a.value, b.value);
    }
  }

  lemma BeforeIsIrreflexive(a: Rank)
    ensures !Before(a, a)
  {
    if Before(a, a) {
      BeforeIsAsymmetric(a, a);
    }
  }

  lemma BeforeIsTransitive(a: Rank, b: Rank, c: Rank)
    requires Before(a, b) && Before(b, c)
    ensures Before(a, c)
  {
    if a.tier == b.tier == c.tier && a.order.None? && b.order.None? && c.order.None? &&
       a.score == b.score == c.score && |a.display| == |b.display| == |c.display|
    {
      if Less(a.display, b.display) && Less(b.display, c.display) {
        LessIsTransitive(a.display, b.display, c.display);
        LessIsAsymmetric(a.display, c.display);
      }
      if Less(a.value, b.value) && Less(b.value, c.value) {
        LessIsTransitive(a.value, b.value, c.value);
      }
    }
  }

  /** Entries are keyed by their value, and no two preserve the same insertion order. */
  ghost predicate Keyed(m: Ranks) {
    && (forall v :: v in m ==> m[v].value == v)
    && (forall v, w :: v in m && w in m && v != w && m[v].order.Some? ==> m[v].order != m[w].order)
  }

  lemma BeforeIsTotal(m: Ranks, v: Text, w: Text)
    requires Keyed(m) && v in m && w in m && v != w
    ensures Before(m[v], m[w]) || Before(m[w], m[v])
  {
    LessIsTotal(m[v].display, m[w].display);
    LessIsTotal(v, w);
  }

  ghost predicate IsLeast(m: Ranks, v: Text) {
    v in m && forall w :: w in m && w != v ==> Before(m[v], m[w])
  }

  lemma {:induction false} LeastExists(m: Ranks) returns (v: Text)
    requires Keyed(m) && m != map[]
    ensures IsLeast(m, v)
    decreases |m|
  {
    v :| v in m;
    var rest := m - {v};
    assert forall u :: u in m ==> u == v || u in rest;
    if rest != map[] {
      var w := LeastExists(rest);
      BeforeIsTotal(m, v, w);
      if Before(m[w], m[v]) {
        v := w;
      } else {
        forall u | u in m && u != v ensures Before(m[v], m[u]) {
          if u != w {
            assert Before(rest[w], rest[u]);
            BeforeIsTransitive(m[v], m[w], m[u]);
          }
        }
      }
    }
  }

  ghost function Least(m: Ranks): (v: Text)
    requires Keyed(m) && m != map[]
    ensures IsLeast(m, v)
  {
    assert exists v :: IsLeast(m, v) by {
      var v := LeastExists(m);
    }
    var v :| IsLeast(m, v);
    v
  }

  /** The values of all entries, best first. */
  ghost function Listing(m: Ranks): (r: seq<Text>)
    requires Keyed(m)
    ensures |r| == |m|
    ensures forall i :: 0 <= i < |r| ==> r[i] in m
    decreases |m|
  {
    if m == map[] then []
    else
      var v := Least(m);
      [v] + Listing(m - {v})
  }

  lemma ListingStep(m: Ranks)
    requires Keyed(m) && m != map[]
    ensures Keyed(m - {Least(m)})
    ensures IsLeast(m, Least(m))
    ensures Listing(m) == [Least(m)] + Listing(m - {Least(m)})
    ensures |m - {Least(m)}| == |m| - 1
  {
    hide Before;
  }

  ghost predicate Sorted(s: seq<Text>, m: Ranks) {
    && (forall i :: 0 <= i < |s| ==> s[i] in m)
    && (forall i, j :: 0 <= i < j < |s| ==> Before(m[s[i]], m[s[j]]))
  }

  lemma {:induction false} ListingContains(m: Ranks, w: Text)
    requires Keyed(m) && w in m
    ensures w in Listing(m)
    decreases |m|
  {
    hide Before;
    var v := Least(m);
    if w != v {
      ListingContains(m - {v}, w);
    }
  }

  lemma {:induction false} ListingOrder(m: Ranks, i: nat, j: nat)
    requires Keyed(m) && i < j < |m|
    ensures Before(m[Listing(m)[i]], m[Listing(m)[j]])
    decreases |m|
  {
    hide Before, Keyed, Listing, Least;
    ListingStep(m);
    var v := Least(m);
    var rest := m - {v};
    if i > 0 {
      ListingOrder(rest, i - 1, j - 1);
    }
  }

  lemma ListingIsSorted(m: Ranks)
    requires Keyed(m)
    ensures Sorted(Listing(m), m)
    ensures forall v :: v in m ==> v in Listing(m)
  {
    hide Before;
    forall i, j | 0 <= i < j < |m| ensures Before(m[Listing(m)[i]], m[Listing(m)[j]]) {
      ListingOrder(m, i, j);
    }
    forall v | v in m ensures v in Listing(m) {
      ListingContains(m, v);
    }
  }

  /** The first of a sorted sequence of all the values is the least. */
  lemma SortedHead(s: seq<Text>, m: Ranks)
    requires Keyed(m) && Sorted(s, m) && m != map[]
    requires forall v :: v in m ==> v in s
    ensures s != [] && s[0] == Least(m)
    ensures forall i :: 0 < i < |s| ==> s[i] != s[0]
  {
    hide Before;
    var v := Least(m);
    var k :| 0 <= k < |s| && s[k] == v;
    if k > 0 {
      BeforeIsAsymmetric(m[s[0]], m[v]);
    }
    forall i | 0 < i < |s| ensures s[i] != s[0] {
      BeforeIsAsymmetric(m[s[0]], m[s[i]]);
    }
  }

  /** A sorted sequence of all the values is the listing. */
  lemma {:induction false} SortedIsListing(s: seq<Text>, m: Ranks)
    requires Keyed(m) && Sorted(s, m)
    requires forall v :: v in m ==> v in s
    ensures s == Listing(m)
    decreases |m|
  {
    hide Before, Keyed, Listing, Least;
    if s == [] {
      assert m == map[];
    } else {
      SomethingToList(s, m);
      SortedHead(s, m);
      ListingStep(m);
      SortedTail(s, m);
      hide Sorted;
      SortedIsListing(s[1..], m - {s[0]});
      assert s == [s[0]] + s[1..];
    }
  }

  lemma SortedTail(s: seq<Text>, m: Ranks)
    requires s != [] && Sorted(s, m) && forall i :: 0 < i < |s| ==> s[i] != s[0]
    requires forall v :: v in m ==> v in s
    ensures Sorted(s[1..], m - {s[0]}) && forall v :: v in m - {s[0]} ==> v in s[1..]
  {
    hide Before;
  }

  lemma SomethingToList(s: seq<Text>, m: Ranks)
    requires Sorted(s, m) && s != []
    ensures m != map[]
  {
    assert s[0] in m;
  }

  // ---------------------------------------------------------------------
  // Sorting
  // ---------------------------------------------------------------------

  lemma InsertionKeepsSorted(s: seq<Text>, k: nat, v: Text, m: Ranks)
    requires Keyed(m) && Sorted(s, m) && v in m && v !in s && k <= |s|
    requires forall i :: 0 <= i < k ==> Before(m[s[i]], m[v])
    requires k < |s| ==> !Before(m[s[k]], m[v])
    ensures Sorted(s[..k] + [v] + s[k..], m)
  {
    hide Before;
    forall i | k <= i < |s| ensures Before(m[v], m[s[i]]) {
      BeforeIsTotal(m, v, s[k]);
      if i > k {
        BeforeIsTransitive(m[v], m[s[k]], m[s[i]]);
      }
    }
  }

  method Inserted(ghost m: Ranks, before: (Text, Text) -> bool, s: seq<Text>, v: Text) returns (r: seq<Text>)
    requires Keyed(m) && Sorted(s, m) && v in m && v !in s
    requires forall u, w :: u in m && w in m ==> (before(u, w) <==> Before(m[u], m[w]))
    ensures Sorted(r, m)
    ensures forall w :: w in r <==> w in s || w == v
  {
    hide Before, Keyed;
    var k := 0;
    while k < |s| && before(s[k], v)
      invariant 0 <= k <= |s|
      invariant forall i :: 0 <= i < k ==> Before(m[s[i]], m[v])
    {
      k := k + 1;
    }
    InsertionKeepsSorted(s, k, v, m);
    assert s == s[..k] + s[k..];
    r := s[..k] + [v] + s[k..];
  }

  /** Stands for the library's sort with a comparison that decides the order of ranks; its result is determined. */
  method SortBy(ghost m: Ranks, values: set<Text>, before: (Text, Text) -> bool) returns (s: seq<Text>)
    requires Keyed(m) && values == m.Keys
    requires forall v, w :: v in m && w in m ==> (before(v, w) <==> Before(m[v], m[w]))
    ensures s == Listing(m)
  {
    hide Before, Keyed, Listing;
    s := [];
    var rest := values;
    while rest != {}
      invariant rest <= m.Keys
      invariant Sorted(s, m)
      invariant forall v :: v in s <==> v in m && v !in rest
      decreases |rest|
    {
      var v :| v in rest;
      s := Inserted(m, before, s, v);
      rest := rest - {v};
    }
    SortedIsListing(s, m);
  }

  ghost function Better(m: Ranks, r: Rank): set<Text> {
    set w | w in m && Before(m[w], r)
  }

  /** The entries with fewer than `limit` better ones. */
  ghost function Top(m: Ranks, limit: nat): Ranks {
    map v | v in m && |Better(m, m[v])| < limit :: m[v]
  }

  function Min(a: nat, b: nat): nat { if a <= b then a else b }

  lemma BetterWithoutLeast(m: Ranks, w: Text)
    requires Keyed(m) && w in m
    ensures var v := Least(m);
      |Better(m, m[w])| == if w == v then 0 else 1 + |Better(m - {v}, m[w])|
  {
    hide Before;
    var v := Least(m);
    if w == v {
      forall u | u in m ensures !Before(m[u], m[v]) {
        if Before(m[u], m[v]) {
          BeforeIsAsymmetric(m[u], m[v]);
        }
      }
      assert Better(m, m[v]) == {};
    } else {
      assert Better(m, m[w]) == Better(m - {v}, m[w]) + {v};
    }
  }

  lemma TopWithoutLeast(m: Ranks, limit: nat)
    requires Keyed(m) && m != map[] && limit > 0
    ensures var v := Least(m);
      v in Top(m, limit) && Top(m, limit) - {v} == Top(m - {v}, limit - 1)
  {
    hide Before;
    forall w | w in m {
      BetterWithoutLeast(m, w);
    }
  }

  lemma LeastIsUnique(m: Ranks, v: Text, w: Text)
    requires IsLeast(m, v) && IsLeast(m, w)
    ensures v == w
  {
    if v != w {
      BeforeIsAsymmetric(m[v], m[w]);
    }
  }

  lemma TopKeyed(m: Ranks, limit: nat)
    requires Keyed(m)
    ensures Keyed(Top(m, limit))
  {
    hide Before, Better;
  }

  lemma LeastOfTop(m: Ranks, limit: nat)
    requires Keyed(m) && m != map[] && limit > 0
    ensures Keyed(Top(m, limit)) && Top(m, limit) != map[]
    ensures Least(Top(m, limit)) == Least(m)
  {
    hide Before, Better;
    TopKeyed(m, limit);
    TopWithoutLeast(m, limit);
    LeastIsUnique(Top(m, limit), Least(m), Least(Top(m, limit)));
  }

  lemma ListingOfTop(m: Ranks, limit: nat)
    requires Keyed(m) && m != map[] && limit > 0
    ensures var v := Least(m);
      && Keyed(Top(m, limit)) && Keyed(m - {v}) && Keyed(Top(m - {v}, limit - 1))
      && Listing(Top(m, limit)) == [v] + Listing(Top(m - {v}, limit - 1))
  {
    hide Before, Keyed, Listing, Least, Top, IsLeast;
    ListingStep(m);
    LeastOfTop(m, limit);
    TopWithoutLeast(m, limit);
    ListingStep(Top(m, limit));
  }

  lemma NothingOnTop(m: Ranks, limit: nat)
    requires Keyed(m) && (m == map[] || limit == 0)
    ensures Top(m, limit) == map[] && Keyed(map[])
    ensures Listing(map[]) == [] == Take(Listing(m), limit)
  {
    hide Before;
  }

  /** The first `limit` elements, or all of them. */
  function Take(s: seq<Text>, limit: nat): (r: seq<Text>) {
    s[..Min(limit, |s|)]
  }

  lemma TakeMore(v: Text, s: seq<Text>, limit: nat)
    requires limit > 0
    ensures Take([v] + s, limit) == [v] + Take(s, limit - 1)
  {
  }

  /** Selecting the top entries and listing them is listing everything and taking a prefix. */
  lemma {:induction false} TopIsPrefix(m: Ranks, limit: nat)
    requires Keyed(m)
    ensures Keyed(Top(m, limit))
    ensures Listing(Top(m, limit)) == Take(Listing(m), limit)
    decreases |m|
  {
    hide Before, Keyed, Listing, Least, Top, IsLeast, Take;
    if m == map[] || limit == 0 {
      NothingOnTop(m, limit);
    } else {
      var v := Least(m);
      ListingStep(m);
      TopIsPrefix(m - {v}, limit - 1);
      ListingOfTop(m, limit);
      TakeMore(v, Listing(m - {v}), limit);
    }
  }

  lemma TopIsTaken(m: Ranks, limit: nat)
    requires Keyed(m)
    ensures forall v :: v in Top(m, limit) <==> v in Take(Listing(m), limit)
  {
    hide Before, Better, Listing, Top, Keyed, Take;
    TopIsPrefix(m, limit);
    forall v | v in Top(m, limit) ensures v in Take(Listing(m), limit) {
      ListingContains(Top(m, limit), v);
    }
  }

  lemma TopSize(m: Ranks, limit: nat)
    requires Keyed(m)
    ensures |Top(m, limit)| == Min(limit, |m|)
  {
    TopIsPrefix(m, limit);
  }

  // ---------------------------------------------------------------------
  // Keeping only the best of a growing set
  // ---------------------------------------------------------------------

  /** The higher score wins; at equal scores the one already there stays. */
  function Offer(m: Ranks, r: Rank): Ranks {
    if r.value in m && r.score <= m[r.value].score then m else m[r.value := r]
  }

  predicate Dominates(a: Rank, b: Rank) {
    a.score > b.score && Before(a, b)
  }

  predicate Comparable(a: Rank, b: Rank) {
    a == b || Dominates(a, b) || Dominates(b, a)
  }

  predicate Unordered(r: Rank) { r.order.None? }

  ghost predicate AllUnordered(m: Ranks) {
    forall v :: v in m ==> m[v].value == v && Unordered(m[v])
  }

  /** What remains of `all` after discarding entries outside the best `limit`, some of them possibly offered again. */
  ghost predicate Shadow(m: Ranks, all: Ranks, limit: nat) {
    && AllUnordered(m) && AllUnordered(all)
    && (forall v :: v in m ==> v in all && (m[v] == all[v] || Dominates(all[v], m[v])))
    && (forall v :: v in Top(all, limit) ==> v in m && m[v] == all[v])
  }

  lemma UnorderedIsKeyed(m: Ranks)
    requires AllUnordered(m)
    ensures Keyed(m)
  {
  }

  lemma ShadowBetter(m: Ranks, all: Ranks, limit: nat, v: Text)
    requires Shadow(m, all, limit) && v in Top(all, limit)
    ensures |Better(m, m[v])| <= |Better(all, all[v])| < limit
  {
    hide Before;
    assert v in all;
    forall w | w in Better(m, m[v]) ensures w in Better(all, all[v]) {
      if m[w] != all[w] {
        BeforeIsTransitive(all[w], m[w], m[v]);
      }
    }
    SubsetSize(Better(m, m[v]), Better(all, all[v]));
  }

  lemma SubsetSize(a: set<Text>, b: set<Text>)
    requires a <= b
    ensures |a| <= |b|
    ensures |a| == |b| ==> a == b
  {
    var d := b - a;
    assert b == a + d;
  }

  lemma ShadowTopKeys(m: Ranks, all: Ranks, limit: nat)
    requires Shadow(m, all, limit)
    ensures Top(all, limit).Keys == Top(m, limit).Keys
  {
    hide Before, Better;
    UnorderedIsKeyed(m);
    UnorderedIsKeyed(all);
    forall v | v in Top(all, limit) ensures v in Top(m, limit) {
      ShadowBetter(m, all, limit, v);
    }
    assert m.Keys <= all.Keys;
    SubsetSize(m.Keys, all.Keys);
    TopSize(m, limit);
    TopSize(all, limit);
    SubsetSize(Top(all, limit).Keys, Top(m, limit).Keys);
  }

  /** Nothing that was discarded can matter: the best entries are the same. */
  lemma ShadowTop(m: Ranks, all: Ranks, limit: nat)
    requires Shadow(m, all, limit)
    ensures Top(m, limit) == Top(all, limit)
  {
    hide Before, Better;
    ShadowTopKeys(m, all, limit);
  }

  lemma ShadowTruncate(m: Ranks, all: Ranks, limit: nat)
    requires Shadow(m, all, limit)
    ensures Shadow(Top(m, limit), all, limit)
  {
    hide Before, Better;
    ShadowTop(m, all, limit);
  }

  lemma TopBeforeOffer(all: Ranks, r: Rank, limit: nat, w: Text)
    requires AllUnordered(all) && Unordered(r)
    requires r.value in all ==> Comparable(all[r.value], r)
    requires w != r.value && w in Top(Offer(all, r), limit)
    ensures w in Top(all, limit) && Offer(all, r)[w] == all[w]
  {
    hide Before;
    var next := Offer(all, r);
    forall u | u in Better(all, all[w]) ensures u in Better(next, next[w]) {
      if u == r.value && next[u] != all[u] {
        BeforeIsTransitive(next[u], all[u], all[w]);
      }
    }
    SubsetSize(Better(all, all[w]), Better(next, next[w]));
  }

  lemma ShadowOffer(m: Ranks, all: Ranks, r: Rank, limit: nat)
    requires Shadow(m, all, limit) && Unordered(r)
    requires r.value in all ==> Comparable(all[r.value], r)
    ensures Shadow(Offer(m, r), Offer(all, r), limit)
  {
    hide Before, Better;
    forall w | w in Top(Offer(all, r), limit) ensures w in Offer(m, r) && Offer(m, r)[w] == Offer(all, r)[w] {
      if w != r.value {
        TopBeforeOffer(all, r, limit, w);
      } else if Offer(all, r) == all {
        assert w in Top(all, limit);
      }
    }
  }
}
