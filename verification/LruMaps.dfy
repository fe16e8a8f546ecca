/**
 Maps of sized, time-stamped entries: what they weigh, and evicting the least
 recently used entries that are not protected.
 */
module LruMaps {
  import opened Wrappers

  /** `bytes` is the approximate size, `items` the number of things the entry holds. */
  datatype Entry = Entry(bytes: nat, lastUsed: nat, items: nat)

  // ---------------------------------------------------------------------
  // Sums
  // ---------------------------------------------------------------------

  ghost function Sum<K(!new)>(m: map<K, nat>): nat
    decreases |m|
  {
    if m == map[] then 0
    else
      var k :| k in m;
      m[k] + Sum(m - {k})
  }

  lemma {:induction false} SumWithout<K(!new)>(m: map<K, nat>, k: K)
    requires k in m
    ensures Sum(m) == m[k] + Sum(m - {k})
    decreases |m|
  {
    var first :| first in m && Sum(m) == m[first] + Sum(m - {first});
    if first != k {
      SumWithout(m - {first}, k);
      SumWithout(m - {k}, first);
      assert m - {first} - {k} == m - {k} - {first};
    }
  }

  lemma SumWith<K(!new)>(m: map<K, nat>, k: K, n: nat)
    ensures Sum(m[k := n]) == n + Sum(m - {k})
  {
    SumWithout(m[k := n], k);
    assert m[k := n] - {k} == m - {k};
  }

  /** Replacing or adding one summand. */
  lemma SumUpdated<K(!new)>(m: map<K, nat>, k: K, n: nat)
    ensures Sum(m[k := n]) + (if k in m then m[k] else 0) == Sum(m) + n
    ensures k in m ==> m[k] <= Sum(m)
  {
    SumWith(m, k, n);
    if k in m {
      SumWithout(m, k);
    } else {
      assert m - {k} == m;
    }
  }

  lemma SumOfNothing<K(!new)>(m: map<K, nat>)
    requires m == map[]
    ensures Sum(m) == 0
  {
  }

  method Added<K(!new, ==)>(m: map<K, nat>) returns (total: nat)
    ensures total == Sum(m)
  {
    total := 0;
    var rest := m;
    while rest != map[]
      invariant total + Sum(rest) == Sum(m)
      decreases |rest|
    {
      var k :| k in rest;
      SumWithout(rest, k);
      total := total + rest[k];
      rest := rest - {k};
    }
  }

  function Sizes<K(!new, ==)>(m: map<K, Entry>): map<K, nat> {
    map k | k in m :: m[k].bytes
  }

  ghost function Total<K(!new)>(m: map<K, Entry>): nat {
    Sum(Sizes(m))
  }

  lemma TotalWithout<K(!new)>(m: map<K, Entry>, k: K)
    requires k in m
    ensures Total(m) == m[k].bytes + Total(m - {k})
  {
    SumWithout(Sizes(m), k);
    assert Sizes(m) - {k} == Sizes(m - {k});
  }

  lemma TotalUpdated<K(!new)>(m: map<K, Entry>, k: K, e: Entry)
    ensures Total(m[k := e]) + (if k in m then m[k].bytes else 0) == Total(m) + e.bytes
    ensures k in m ==> m[k].bytes <= Total(m)
  {
    SumUpdated(Sizes(m), k, e.bytes);
    assert Sizes(m)[k := e.bytes] == Sizes(m[k := e]);
  }

  /** Using an entry changes no size. */
  lemma TotalTouched<K(!new)>(m: map<K, Entry>, k: K, clock: nat)
    requires k in m
    ensures Total(m[k := m[k].(lastUsed := clock)]) == Total(m)
  {
    TotalUpdated(m, k, m[k].(lastUsed := clock));
  }

  // ---------------------------------------------------------------------
  // Protected entries
  // ---------------------------------------------------------------------

  ghost function Pinned<K(!new)>(m: map<K, Entry>, protected: set<K>): map<K, Entry> {
    map k | k in m && k in protected :: m[k]
  }

  lemma {:induction false} PinnedTotal<K(!new)>(m: map<K, Entry>, protected: set<K>)
    ensures Total(Pinned(m, protected)) <= Total(m)
    ensures m.Keys <= protected ==> Total(Pinned(m, protected)) == Total(m)
    decreases |m|
  {
    if m.Keys <= protected {
      assert Pinned(m, protected) == m;
    } else {
      var k :| k in m && k !in protected;
      TotalWithout(m, k);
      PinnedTotal(m - {k}, protected);
      assert Pinned(m - {k}, protected) == Pinned(m, protected);
    }
  }

  /** A new unprotected entry adds nothing that is pinned. */
  lemma PinnedAfterUpdate<K(!new)>(m: map<K, Entry>, protected: set<K>, k: K, e: Entry)
    requires k !in protected
    ensures Pinned(m[k := e], protected) == Pinned(m, protected)
  {
  }

  /** No entry was used after `clock`. */
  ghost predicate UsedBy<K(!new)>(m: map<K, Entry>, clock: nat) {
    forall k :: k in m ==> m[k].lastUsed <= clock
  }

  lemma UsedWithout<K(!new)>(m: map<K, Entry>, k: K, clock: nat)
    requires UsedBy(m, clock)
    ensures UsedBy(m - {k}, clock)
  {
  }

  lemma UsedLater<K(!new)>(m: map<K, Entry>, k: K, e: Entry, clock: nat)
    requires UsedBy(m, clock) && e.lastUsed == clock + 1
    ensures UsedBy(m, clock + 1) && UsedBy(m[k := e], clock + 1)
  {
  }

  /** What eviction up to time `t` may do: it removes only unprotected entries, none used after `t`, all used before. */
  ghost predicate EvictedUpTo<K(!new)>(m: map<K, Entry>, kept: map<K, Entry>, protected: set<K>, t: nat) {
    && (forall k :: k in kept ==> k in m && kept[k] == m[k])
    && (forall k :: k in m && k !in kept ==> k !in protected && m[k].lastUsed <= t)
    && (forall k :: k in kept && k !in protected ==> kept[k].lastUsed >= t)
  }

  /** Within one map: only unprotected entries go, and never one used more recently than an unprotected one that stays. */
  ghost predicate OldestEvicted<K(!new)>(m: map<K, Entry>, kept: map<K, Entry>, protected: set<K>) {
    && (forall k :: k in kept ==> k in m && kept[k] == m[k])
    && (forall k :: k in m && k !in kept ==> k !in protected)
    && (forall k, l :: k in m && k !in kept && l in kept && l !in protected ==> m[k].lastUsed <= m[l].lastUsed)
  }

  lemma OldestEvictedTwice<K(!new)>(m: map<K, Entry>, mid: map<K, Entry>, kept: map<K, Entry>, protected: set<K>, later: set<K>)
    requires OldestEvicted(m, mid, protected) && OldestEvicted(mid, kept, later)
    requires forall k :: k in mid ==> (k in protected <==> k in later)
    ensures OldestEvicted(m, kept, protected)
  {
    forall k, l | k in m && k !in kept && l in kept && l !in protected ensures m[k].lastUsed <= m[l].lastUsed {
      assert l in mid;
    }
  }

  lemma EvictionKeepsPinned<K(!new)>(m: map<K, Entry>, kept: map<K, Entry>, protected: set<K>)
    requires OldestEvicted(m, kept, protected)
    ensures Pinned(kept, protected) == Pinned(m, protected)
  {
  }

  lemma EvictionKeepsUses<K(!new)>(m: map<K, Entry>, kept: map<K, Entry>, protected: set<K>, clock: nat)
    requires OldestEvicted(m, kept, protected) && UsedBy(m, clock)
    ensures UsedBy(kept, clock)
  {
  }

  predicate IsOldest<K(!new, ==)>(m: map<K, Entry>, protected: set<K>, k: K) {
    && k in m && k !in protected
    && forall l :: l in m && l !in protected ==> m[k].lastUsed <= m[l].lastUsed
  }

  /** The least recently used unprotected entry. */
  method Oldest<K(!new, ==)>(m: map<K, Entry>, protected: set<K>) returns (r: Option<K>)
    ensures r.None? <==> m.Keys <= protected
    ensures r.Some? ==> IsOldest(m, protected, r.value)
  {
    r := None;
    var rest := m.Keys;
    while rest != {}
      invariant rest <= m.Keys
      invariant r.None? <==> m.Keys - rest <= protected
      invariant r.Some? ==> r.value in m && r.value !in protected
      invariant r.Some? ==> forall l :: l in m && l !in protected && l !in rest ==> m[r.value].lastUsed <= m[l].lastUsed
      decreases |rest|
    {
      var k :| k in rest;
      if k !in protected && (r.None? || m[k].lastUsed < m[r.value].lastUsed) {
        r := Some(k);
      }
      rest := rest - {k};
    }
  }

  /** Brings a map within its count limit, as far as its protected entries allow. */
  method EvictExcess<K(!new, ==)>(m: map<K, Entry>, protected: set<K>, cap: nat) returns (kept: map<K, Entry>, freed: nat)
    ensures OldestEvicted(m, kept, protected)
    ensures freed + Total(kept) == Total(m)
    ensures |kept| <= cap || kept.Keys <= protected
    ensures |m| <= cap ==> kept == m
    ensures |m| > cap ==> |kept| >= cap
  {
    kept, freed := m, 0;
    while |kept| > cap
      invariant OldestEvicted(m, kept, protected)
      invariant freed + Total(kept) == Total(m)
      invariant |m| <= cap ==> kept == m
      invariant |m| > cap ==> |kept| >= cap
      decreases |kept|
    {
      var k := Oldest(kept, protected);
      if k.None? {
        break;
      }
      TotalWithout(kept, k.value);
      freed := freed + kept[k.value].bytes;
      kept := kept - {k.value};
    }
  }

  function ClockOf<K(!new, ==)>(m: map<K, Entry>, k: Option<K>): Option<nat>
    requires k.Some? ==> k.value in m
  {
    if k.Some? then Some(m[k.value].lastUsed) else None
  }

  function Earliest(a: Option<nat>, b: Option<nat>): Option<nat> {
    if a.None? then b else if b.None? then a else if b.value < a.value then b else a
  }
}
