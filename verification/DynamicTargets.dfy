/**
 The data flow that finds which functions a script may call through variables.
 Rounds propagate assignments from callers to callees and back. What they reach
 is never more than the least fixpoint; without calls through variables the
 bounded loop always reaches it, and with them the bound can be too small.
 */
module DynamicTargets {
  import ShellWords

  /** A variable and one value that it may be assigned. */
  type Fact = (string, string)

  /** `own` are a function's assignments, `returned` those that outlive it, `invoked` the variables it calls through. */
  datatype Function = Function(own: set<Fact>, returned: set<Fact>, calls: set<string>, invoked: set<string>)

  type Program = map<string, Function>

  type Incoming = map<string, set<Fact>>

  // ---------------------------------------------------------------------
  // Calls
  // ---------------------------------------------------------------------

  predicate StartsWith(name: string, prefix: string) {
    |prefix| <= |name| && name[..|prefix|] == prefix
  }

  predicate DynamicTargetMatches(name: string, prefix: string) {
    if prefix != "" && prefix[0] == '_' && ShellWords.Utf8Size(prefix) >= 4 then StartsWith(name, prefix) else name == prefix
  }

  /** Characters that no function name may hold. */
  predicate Excluded(c: char) {
    c == '/' || c <= 0x20 as char || 0x7F as char <= c <= 0xA0 as char || c == 0x1680 as char
    || 0x2000 as char <= c <= 0x200A as char || c in {0x2028 as char, 0x2029 as char, 0x202F as char, 0x205F as char, 0x3000 as char}
  }

  predicate UsablePrefix(value: string) {
    value != "" && forall i :: 0 <= i < |value| ==> !Excluded(value[i])
  }

  /** Two dispatchers whose generator variable is collected elsewhere. */
  function InvokedBy(name: string, f: Function): set<string> {
    if name == "_comp_compgen" || name == "_comp_compgen__call_generator" then f.invoked - {"_generator"} else f.invoked
  }

  predicate Resolves(visible: set<Fact>, invoked: set<string>, target: string) {
    exists fact :: fact in visible && fact.0 in invoked && UsablePrefix(fact.1) && DynamicTargetMatches(target, fact.1)
  }

  function Visible(p: Program, incoming: Incoming, f: string): set<Fact>
    requires f in p && f in incoming
  {
    incoming[f] + p[f].own
  }

  /** The analysed functions that `f` calls, by name or through a variable. */
  function Callees(p: Program, candidates: set<string>, incoming: Incoming, f: string): set<string>
    requires f in p && f in incoming
  {
    set c | c in p && (c in p[f].calls
      || (c in candidates && Resolves(Visible(p, incoming, f), InvokedBy(f, p[f]), c)))
  }

  // ---------------------------------------------------------------------
  // Rounds
  // ---------------------------------------------------------------------

  /** What the calls of `f` add to `t`: the callee sees what the caller sees, the caller gets what outlives the callee. */
  predicate Adds(p: Program, candidates: set<string>, incoming: Incoming, f: string, t: string, fact: Fact)
    requires f in p && f in incoming
  {
    var callees := Callees(p, candidates, incoming, f);
    || (t in callees && fact in Visible(p, incoming, f))
    || (t == f && exists c :: c in callees && fact in p[c].returned)
  }

  ghost predicate Reaches(p: Program, candidates: set<string>, incoming: Incoming, t: string, fact: Fact)
    requires incoming.Keys == p.Keys
  {
    exists f :: f in p && Adds(p, candidates, incoming, f, t, fact)
  }

  /** All updates of a round are computed from the state before it. */
  ghost predicate IsRound(p: Program, candidates: set<string>, incoming: Incoming, next: Incoming)
    requires incoming.Keys == p.Keys
  {
    && next.Keys == p.Keys
    && forall t, fact :: t in p ==> (fact in next[t] <==> fact in incoming[t] || Reaches(p, candidates, incoming, t, fact))
  }

  function Merged(incoming: Incoming, target: string, values: set<Fact>): Incoming {
    incoming[target := (if target in incoming then incoming[target] else {}) + values]
  }

  /** Whether merging finds anything new. */
  predicate IsNew(incoming: Incoming, target: string, values: set<Fact>) {
    if target in incoming then !(values <= incoming[target]) else values != {}
  }

  ghost predicate Updates(updates: seq<(string, set<Fact>)>, t: string, fact: Fact) {
    exists i :: 0 <= i < |updates| && updates[i].0 == t && fact in updates[i].1
  }

  lemma UpdatesAppend(a: seq<(string, set<Fact>)>, b: seq<(string, set<Fact>)>, t: string, fact: Fact)
    ensures Updates(a + b, t, fact) <==> Updates(a, t, fact) || Updates(b, t, fact)
  {
    if Updates(a + b, t, fact) {
      var i :| 0 <= i < |a + b| && (a + b)[i].0 == t && fact in (a + b)[i].1;
      if i < |a| {
        assert a[i].0 == t && fact in a[i].1;
      } else {
        assert b[i - |a|].0 == t && fact in b[i - |a|].1;
      }
    }
    if Updates(a, t, fact) {
      var i :| 0 <= i < |a| && a[i].0 == t && fact in a[i].1;
      assert (a + b)[i] == a[i];
    }
    if Updates(b, t, fact) {
      var i :| 0 <= i < |b| && b[i].0 == t && fact in b[i].1;
      assert (a + b)[|a| + i] == b[i];
    }
  }

  /** The updates that one function's calls cause. */
  method FunctionUpdates(p: Program, candidates: set<string>, incoming: Incoming, f: string)
    returns (updates: seq<(string, set<Fact>)>)
    requires f in p && f in incoming
    ensures forall i :: 0 <= i < |updates| ==> updates[i].0 in p
    ensures forall t, fact :: Updates(updates, t, fact) <==> Adds(p, candidates, incoming, f, t, fact)
  {
    updates := [];
    var visible := Visible(p, incoming, f);
    var callees := Callees(p, candidates, incoming, f);
    var rest := callees;
    while rest != {}
      invariant rest <= callees
      invariant forall i :: 0 <= i < |updates| ==> updates[i].0 in p
      invariant forall t, fact :: Updates(updates, t, fact) <==>
        (t in callees && t !in rest && fact in visible) || (t == f && exists c :: c in callees && c !in rest && fact in p[c].returned)
      decreases |rest|
    {
      var c :| c in rest;
      ghost var before := updates;
      var more := [(c, visible), (f, p[c].returned)];
      forall t, fact ensures Updates(before + more, t, fact) <==>
        Updates(before, t, fact) || (t == c && fact in visible) || (t == f && fact in p[c].returned)
      {
        UpdatesAppend(before, more, t, fact);
        assert more[0] == (c, visible) && more[1] == (f, p[c].returned);
      }
      updates := updates + more;
      rest := rest - {c};
    }
  }

  method MergeUpdates(incoming: Incoming, updates: seq<(string, set<Fact>)>) returns (next: Incoming, changed: bool)
    requires forall i :: 0 <= i < |updates| ==> updates[i].0 in incoming
    ensures next.Keys == incoming.Keys
    ensures forall t, fact :: t in incoming ==> (fact in next[t] <==> fact in incoming[t] || Updates(updates, t, fact))
    ensures changed <==> next != incoming
  {
    next, changed := incoming, false;
    for n := 0 to |updates|
      invariant next.Keys == incoming.Keys
      invariant forall t, fact :: t in incoming ==> (fact in next[t] <==> fact in incoming[t] || Updates(updates[..n], t, fact))
      invariant forall t :: t in incoming ==> incoming[t] <= next[t]
      invariant changed <==> next != incoming
    {
      var (target, values) := updates[n];
      forall t, fact ensures Updates(updates[..n + 1], t, fact) <==> Updates(updates[..n], t, fact) || (t == target && fact in values) {
        assert updates[..n + 1] == updates[..n] + [updates[n]];
        UpdatesAppend(updates[..n], [updates[n]], t, fact);
        assert [updates[n]][0] == updates[n];
      }
      MergeIsNew(incoming, next, target, values);
      changed := changed || IsNew(next, target, values);
      next := Merged(next, target, values);
    }
    assert updates[..|updates|] == updates;
  }

  lemma MergeIsNew(incoming: Incoming, next: Incoming, target: string, values: set<Fact>)
    requires next.Keys == incoming.Keys && target in incoming
    requires forall t :: t in incoming ==> incoming[t] <= next[t]
    ensures Merged(next, target, values) != incoming <==> next != incoming || IsNew(next, target, values)
  {
    if next == incoming && !IsNew(next, target, values) {
      assert Merged(next, target, values)[target] == next[target];
      assert Merged(next, target, values) == next;
    } else if next == incoming {
      assert Merged(next, target, values)[target] != incoming[target];
    } else {
      var t :| t in incoming && next[t] != incoming[t];
      assert Merged(next, target, values)[t] != incoming[t];
    }
  }

  method OneRound(p: Program, candidates: set<string>, incoming: Incoming) returns (next: Incoming, changed: bool)
    requires incoming.Keys == p.Keys
    ensures IsRound(p, candidates, incoming, next)
    ensures changed <==> next != incoming
  {
    var updates: seq<(string, set<Fact>)> := [];
    var rest := p.Keys;
    while rest != {}
      invariant rest <= p.Keys
      invariant forall i :: 0 <= i < |updates| ==> updates[i].0 in p
      invariant forall t, fact :: Updates(updates, t, fact) <==>
        exists f :: f in p && f !in rest && Adds(p, candidates, incoming, f, t, fact)
      decreases |rest|
    {
      var f :| f in rest;
      var more := FunctionUpdates(p, candidates, incoming, f);
      forall t, fact ensures Updates(updates + more, t, fact) <==> Updates(updates, t, fact) || Adds(p, candidates, incoming, f, t, fact) {
        UpdatesAppend(updates, more, t, fact);
      }
      updates := updates + more;
      rest := rest - {f};
    }
    next, changed := MergeUpdates(incoming, updates);
  }

  // ---------------------------------------------------------------------
  // Fixpoints
  // ---------------------------------------------------------------------

  ghost predicate Below(a: Incoming, b: Incoming) {
    a.Keys == b.Keys && forall t :: t in a ==> a[t] <= b[t]
  }

  /** Every caller's facts are in its callees' incoming sets, and what callees leave behind is in their callers'. */
  ghost predicate Closed(p: Program, candidates: set<string>, x: Incoming) {
    && x.Keys == p.Keys
    && forall t, fact :: t in p && Reaches(p, candidates, x, t, fact) ==> fact in x[t]
  }

  function Start(p: Program, globals: set<Fact>): Incoming {
    map f | f in p :: globals
  }

  /** Closed, holds the global facts, and holds nothing that any such assignment of facts does not. */
  ghost predicate LeastFixpoint(p: Program, candidates: set<string>, globals: set<Fact>, x: Incoming) {
    && Closed(p, candidates, x) && Below(Start(p, globals), x)
    && forall y :: Closed(p, candidates, y) && Below(Start(p, globals), y) ==> Below(x, y)
  }

  lemma RoundGrows(p: Program, candidates: set<string>, a: Incoming, next: Incoming)
    requires a.Keys == p.Keys && IsRound(p, candidates, a, next)
    ensures Below(a, next)
  {
  }

  // ---------------------------------------------------------------------
  // Without calls through variables, facts travel on their own
  // ---------------------------------------------------------------------

  predicate NoDynamicCalls(p: Program) {
    forall f :: f in p ==> InvokedBy(f, p[f]) == {}
  }

  ghost function Holders(x: Incoming, fact: Fact): set<string> {
    set t | t in x && fact in x[t]
  }

  lemma ReachIsFixed(p: Program, candidates: set<string>, a: Incoming, b: Incoming, t: string, fact: Fact)
    requires NoDynamicCalls(p) && a.Keys == p.Keys == b.Keys
    requires Holders(a, fact) == Holders(b, fact)
    requires Reaches(p, candidates, a, t, fact)
    ensures Reaches(p, candidates, b, t, fact)
  {
    var f :| f in p && Adds(p, candidates, a, f, t, fact);
    hide Callees;
    assert f in Holders(a, fact) <==> fact in a[f];
    assert f in Holders(b, fact) <==> fact in b[f];
    assert Adds(p, candidates, b, f, t, fact);
  }

  /** Who holds a fact next depends only on who holds it now. */
  lemma HoldersStep(p: Program, candidates: set<string>, a: Incoming, a': Incoming, b: Incoming, b': Incoming, fact: Fact)
    requires NoDynamicCalls(p) && a.Keys == p.Keys == b.Keys
    requires IsRound(p, candidates, a, a') && IsRound(p, candidates, b, b')
    requires Holders(a, fact) == Holders(b, fact)
    ensures Holders(a', fact) == Holders(b', fact)
  {
    hide Reaches;
    forall t | t in p ensures t in Holders(a', fact) <==> t in Holders(b', fact) {
      assert t in Holders(a, fact) <==> t in Holders(b, fact);
      if Reaches(p, candidates, a, t, fact) {
        ReachIsFixed(p, candidates, a, b, t, fact);
      }
      if Reaches(p, candidates, b, t, fact) {
        ReachIsFixed(p, candidates, b, a, t, fact);
      }
    }
  }

  /** The states of successive rounds. */
  ghost predicate Rounds(p: Program, candidates: set<string>, h: seq<Incoming>) {
    && h != [] && h[0].Keys == p.Keys
    && (forall k :: 0 <= k < |h| ==> h[k].Keys == p.Keys)
    && (forall k :: 0 <= k < |h| - 1 ==> RoundAt(p, candidates, h, k))
  }

  ghost predicate RoundAt(p: Program, candidates: set<string>, h: seq<Incoming>, k: nat)
    requires k + 1 < |h|
  {
    h[k].Keys == p.Keys && IsRound(p, candidates, h[k], h[k + 1])
  }

  lemma StrictSubset(a: set<string>, b: set<string>)
    requires a <= b && a != b
    ensures |a| < |b|
  {
    var d := b - a;
    assert b == a + d;
    assert d != {};
  }

  /** Each fact gains a holder in every round until it has settled for good. */
  lemma {:induction false} HoldersGrow(p: Program, candidates: set<string>, h: seq<Incoming>, k: nat, fact: Fact)
    requires NoDynamicCalls(p) && Rounds(p, candidates, h) && k + 1 < |h|
    ensures Holders(h[k], fact) == Holders(h[k + 1], fact) || |Holders(h[k + 1], fact)| >= k + 1
  {
    hide IsRound, NoDynamicCalls;
    assert RoundAt(p, candidates, h, k);
    if Holders(h[k], fact) != Holders(h[k + 1], fact) {
      RoundGrows(p, candidates, h[k], h[k + 1]);
      assert Holders(h[k], fact) <= Holders(h[k + 1], fact);
      StrictSubset(Holders(h[k], fact), Holders(h[k + 1], fact));
      if k > 0 {
        assert RoundAt(p, candidates, h, k - 1);
        HoldersGrow(p, candidates, h, k - 1, fact);
        if Holders(h[k - 1], fact) == Holders(h[k], fact) {
          HoldersStep(p, candidates, h[k - 1], h[k], h[k], h[k + 1], fact);
        }
      }
    }
  }

  lemma HoldersAreFew(p: Program, x: Incoming, fact: Fact)
    requires x.Keys == p.Keys
    ensures |Holders(x, fact)| <= |p|
  {
    var d := p.Keys - Holders(x, fact);
    assert p.Keys == Holders(x, fact) + d;
  }

  /** So as many rounds as there are functions settle everything. */
  lemma RoundsSettle(p: Program, candidates: set<string>, h: seq<Incoming>)
    requires NoDynamicCalls(p) && Rounds(p, candidates, h) && |h| == |p| + 2
    ensures h[|p|] == h[|p| + 1]
  {
    var n := |p|;
    hide NoDynamicCalls, RoundAt;
    forall fact ensures Holders(h[n], fact) == Holders(h[n + 1], fact) {
      HoldersGrow(p, candidates, h, n, fact);
      HoldersAreFew(p, h[n + 1], fact);
    }
    forall t | t in p ensures h[n][t] == h[n + 1][t] {
      forall fact ensures fact in h[n][t] <==> fact in h[n + 1][t] {
        assert t in Holders(h[n], fact) <==> t in Holders(h[n + 1], fact);
      }
    }
  }

  // ---------------------------------------------------------------------
  // The bounded loop
  // ---------------------------------------------------------------------

  /**
   At most `2n + 1` rounds. The result is never more than the least fixpoint; it is the least fixpoint when the
   loop ends because nothing changed, and without calls through variables it always does, in at most `n + 1` rounds.
   */
  method PropagateAssignments(p: Program, candidates: set<string>, globals: set<Fact>)
    returns (incoming: Incoming, settled: bool, rounds: nat)
    ensures UnderEveryFixpoint(p, candidates, globals, incoming)
    ensures settled ==> LeastFixpoint(p, candidates, globals, incoming)
    ensures NoDynamicCalls(p) ==> settled && rounds <= |p| + 1
    ensures !settled ==> rounds == 2 * |p| + 1 && HeldAfter(p, candidates, globals, incoming, rounds)
    ensures settled ==> 1 <= rounds <= 2 * |p| + 1
    ensures settled ==> IsRound(p, candidates, incoming, incoming) && HeldAfter(p, candidates, globals, incoming, rounds - 1)
  {
    hide IsRound, NoDynamicCalls, UnderEveryFixpoint, LeastFixpoint, HeldAfter, Progress;
    incoming, settled, rounds := Start(p, globals), false, 0;
    ghost var h := [incoming];
    NothingDone(p, candidates, globals);
    while rounds < 2 * |p| + 1
      invariant rounds <= 2 * |p| + 1 && incoming.Keys == p.Keys
      invariant Progress(p, candidates, globals, h, incoming, rounds)
      decreases 2 * |p| + 1 - rounds
    {
      hide IsRound, NoDynamicCalls, UnderEveryFixpoint, LeastFixpoint, HeldAfter, Progress;
      var next, changed := OneRound(p, candidates, incoming);
      if !changed {
        settled, rounds := true, rounds + 1;
        break;
      }
      ProgressGrows(p, candidates, globals, h, incoming, next, rounds);
      h := h + [next];
      incoming, rounds := next, rounds + 1;
    }
    ProgressShows(p, candidates, globals, h, incoming, if settled then rounds - 1 else rounds);
  }

  /** Every round so far has changed something, and nothing is held that a fixpoint would not hold. */
  ghost predicate Progress(
    p: Program, candidates: set<string>, globals: set<Fact>, h: seq<Incoming>, x: Incoming, rounds: nat)
  {
    && x.Keys == p.Keys
    && Unsettled(p, candidates, h, x, rounds) && h[0] == Start(p, globals)
    && UnderEveryFixpoint(p, candidates, globals, x)
    && (NoDynamicCalls(p) ==> rounds <= |p|)
  }

  lemma ProgressGrows(
    p: Program, candidates: set<string>, globals: set<Fact>, h: seq<Incoming>, x: Incoming, next: Incoming, rounds: nat)
    requires Progress(p, candidates, globals, h, x, rounds) && IsRound(p, candidates, x, next) && next != x
    ensures Progress(p, candidates, globals, h + [next], next, rounds + 1)
  {
    StillUnsettled(p, candidates, h, x, next, rounds);
    RoundIsUnder(p, candidates, globals, x, next);
    hide IsRound, NoDynamicCalls, UnderEveryFixpoint, Unsettled, Start;
    assert |h| > 0;
  }

  lemma ProgressShows(
    p: Program, candidates: set<string>, globals: set<Fact>, h: seq<Incoming>, x: Incoming, rounds: nat)
    requires Progress(p, candidates, globals, h, x, rounds)
    ensures UnderEveryFixpoint(p, candidates, globals, x) && HeldAfter(p, candidates, globals, x, rounds)
    ensures IsRound(p, candidates, x, x) ==> LeastFixpoint(p, candidates, globals, x)
    ensures NoDynamicCalls(p) ==> rounds <= |p|
  {
    HistoryIsHeld(p, candidates, globals, h, x, rounds);
    if IsRound(p, candidates, x, x) {
      UnchangedIsLeast(p, candidates, globals, x);
    }
    hide *;
  }

  lemma NothingDone(p: Program, candidates: set<string>, globals: set<Fact>)
    ensures var x := Start(p, globals); x.Keys == p.Keys && Progress(p, candidates, globals, [x], x, 0)
  {
  }

  /** Whoever holds more calls no less and passes on no less. */
  lemma ReachGrows(p: Program, candidates: set<string>, x: Incoming, y: Incoming, t: string, fact: Fact)
    requires x.Keys == p.Keys && Below(x, y) && Reaches(p, candidates, x, t, fact)
    ensures Reaches(p, candidates, y, t, fact)
  {
    var f :| f in p && Adds(p, candidates, x, f, t, fact);
    assert Visible(p, x, f) <= Visible(p, y, f);
    forall c | c in Callees(p, candidates, x, f) ensures c in Callees(p, candidates, y, f) {
    }
    hide Callees;
    assert Adds(p, candidates, y, f, t, fact);
  }

  lemma RoundStaysBelow(p: Program, candidates: set<string>, x: Incoming, next: Incoming, y: Incoming)
    requires x.Keys == p.Keys && IsRound(p, candidates, x, next) && Below(x, y) && Closed(p, candidates, y)
    ensures Below(next, y)
  {
    hide Reaches;
    forall t, fact | t in p && fact in next[t] ensures fact in y[t] {
      if fact !in x[t] {
        ReachGrows(p, candidates, x, y, t, fact);
      }
    }
  }

  lemma RoundIsUnder(p: Program, candidates: set<string>, globals: set<Fact>, x: Incoming, next: Incoming)
    requires x.Keys == p.Keys && IsRound(p, candidates, x, next) && UnderEveryFixpoint(p, candidates, globals, x)
    ensures UnderEveryFixpoint(p, candidates, globals, next)
  {
    RoundGrows(p, candidates, x, next);
    forall y | Closed(p, candidates, y) && Below(Start(p, globals), y) ensures Below(next, y) {
      RoundStaysBelow(p, candidates, x, next, y);
    }
  }

  lemma UnchangedIsLeast(p: Program, candidates: set<string>, globals: set<Fact>, x: Incoming)
    requires x.Keys == p.Keys && IsRound(p, candidates, x, x) && UnderEveryFixpoint(p, candidates, globals, x)
    ensures LeastFixpoint(p, candidates, globals, x)
  {
  }

  // ---------------------------------------------------------------------
  // What a least fixpoint holds
  // ---------------------------------------------------------------------

  /** Unicode's control characters. */
  predicate IsControl(c: char) {
    c as int <= 0x1F || 0x7F <= c as int <= 0x9F
  }

  /** What a variable may stand for: a whole name, or, with an underscore first and four bytes or more, the start of names. */
  ghost predicate Selects(value: string, name: string) {
    && value != "" && (forall c :: c in value ==> c != '/' && !IsControl(c) && !ShellWords.IsWhitespace(c))
    && (name == value || (value[0] == '_' && ShellWords.Utf8Size(value) > 3 && exists rest: string :: name == value + rest))
  }

  lemma SelectsResolved(value: string, name: string)
    ensures Selects(value, name) <==> UsablePrefix(value) && DynamicTargetMatches(name, value)
  {
    forall c: char ensures Excluded(c) <==> c == '/' || IsControl(c) || ShellWords.IsWhitespace(c) {
      ExcludedCharacter(c);
    }
    StartsWithRest(name, value);
    hide Excluded, IsControl, ShellWords.IsWhitespace, StartsWith;
    assert StartsWith(value, value) by {
      StartsWithRest(value, value);
      assert value == value + "";
    }
    assert UsablePrefix(value) <==> value != "" && forall c :: c in value ==> !Excluded(c);
  }

  lemma ExcludedCharacter(c: char)
    ensures Excluded(c) <==> c == '/' || IsControl(c) || ShellWords.IsWhitespace(c)
  {
  }

  lemma StartsWithRest(name: string, prefix: string)
    ensures StartsWith(name, prefix) <==> exists rest: string :: name == prefix + rest
  {
    if StartsWith(name, prefix) {
      assert name == prefix + name[|prefix|..];
    }
  }

  /** `f` may call `c`: by name, or through a variable that one of the facts it sees assigns. */
  ghost predicate MayCall(p: Program, candidates: set<string>, sees: set<Fact>, f: string, c: string)
    requires f in p
  {
    || c in p[f].calls
    || (c in candidates && exists fact :: fact in sees && CallsThrough(p, f, fact.0) && Selects(fact.1, c))
  }

  /** Two dispatchers name their generator in a variable that is collected elsewhere. */
  predicate CallsThrough(p: Program, f: string, variable: string)
    requires f in p
  {
    variable in p[f].invoked && (f in {"_comp_compgen", "_comp_compgen__call_generator"} ==> variable != "_generator")
  }

  lemma CalleesMayBeCalled(p: Program, candidates: set<string>, x: Incoming, f: string, c: string)
    requires f in p && f in x && c in p
    ensures c in Callees(p, candidates, x, f) <==> MayCall(p, candidates, x[f] + p[f].own, f, c)
  {
    forall value: string ensures Selects(value, c) <==> UsablePrefix(value) && DynamicTargetMatches(c, value) {
      SelectsResolved(value, c);
    }
    hide Selects, UsablePrefix, DynamicTargetMatches;
    forall fact: Fact ensures fact.0 in InvokedBy(f, p[f]) <==> CallsThrough(p, f, fact.0) {
    }
    hide InvokedBy, CallsThrough;
  }

  /** No target is missed: what a caller sees its callees see, and what outlives a callee its caller sees. */
  lemma CallsAreFollowed(p: Program, candidates: set<string>, globals: set<Fact>, x: Incoming, f: string, c: string)
    requires LeastFixpoint(p, candidates, globals, x) && f in p && c in p
    requires MayCall(p, candidates, x[f] + p[f].own, f, c)
    ensures globals <= x[c] && x[f] + p[f].own <= x[c] && p[c].returned <= x[f]
  {
    CalleesMayBeCalled(p, candidates, x, f, c);
    hide MayCall, Callees;
    forall fact | fact in x[f] + p[f].own ensures fact in x[c] {
      assert Adds(p, candidates, x, f, c, fact);
      assert Reaches(p, candidates, x, c, fact);
    }
    forall fact | fact in p[c].returned ensures fact in x[f] {
      assert Adds(p, candidates, x, f, f, fact);
      assert Reaches(p, candidates, x, f, fact);
    }
  }

  /** A chain of calls by name hands a function's own facts to its end. */
  lemma {:induction false} ChainsAreFollowed(
    p: Program, candidates: set<string>, globals: set<Fact>, x: Incoming, path: seq<string>, fact: Fact)
    requires LeastFixpoint(p, candidates, globals, x) && |path| >= 2 && (forall i :: 0 <= i < |path| ==> path[i] in p)
    requires forall i :: 0 <= i < |path| - 1 ==> path[i + 1] in p[path[i]].calls
    requires fact in p[path[0]].own
    ensures fact in x[path[|path| - 1]]
  {
    hide LeastFixpoint;
    if |path| > 2 {
      ChainsAreFollowed(p, candidates, globals, x, path[..|path| - 1], fact);
    }
    SameKeys(p, candidates, globals, x);
    CallsAreFollowed(p, candidates, globals, x, path[|path| - 2], path[|path| - 1]);
  }

  lemma SameKeys(p: Program, candidates: set<string>, globals: set<Fact>, x: Incoming)
    requires LeastFixpoint(p, candidates, globals, x)
    ensures x.Keys == p.Keys
  {
  }

  /** A fact at a function is global, or some function that may call it sees it, or it outlives one that it may call. */
  ghost predicate Justified(p: Program, candidates: set<string>, globals: set<Fact>, x: Incoming, t: string, fact: Fact)
    requires x.Keys == p.Keys && t in p
  {
    || fact in globals
    || (exists f :: f in p && MayCall(p, candidates, x[f] + p[f].own, f, t) && fact in x[f] + p[f].own)
    || (exists c :: c in p && MayCall(p, candidates, x[t] + p[t].own, t, c) && fact in p[c].returned)
  }

  /** Nothing is invented: every fact at a function has a reason to be there. */
  lemma FactsAreJustified(p: Program, candidates: set<string>, globals: set<Fact>, x: Incoming, t: string, fact: Fact)
    requires LeastFixpoint(p, candidates, globals, x) && t in p && fact in x[t]
    ensures x.Keys == p.Keys && Justified(p, candidates, globals, x, t, fact)
  {
    if fact !in globals {
      ReasonExists(p, candidates, globals, x, t, fact);
      var f :| f in p && Adds(p, candidates, x, f, t, fact);
      CalleesMayBeCalled(p, candidates, x, f, t);
      if t == f && !(t in Callees(p, candidates, x, f) && fact in Visible(p, x, f)) {
        var c :| c in Callees(p, candidates, x, f) && fact in p[c].returned;
        CalleesMayBeCalled(p, candidates, x, f, c);
      }
    }
  }

  lemma ReasonExists(p: Program, candidates: set<string>, globals: set<Fact>, x: Incoming, t: string, fact: Fact)
    requires LeastFixpoint(p, candidates, globals, x) && t in p && fact in x[t] && fact !in globals
    ensures x.Keys == p.Keys && Reaches(p, candidates, x, t, fact)
  {
    if !Reaches(p, candidates, x, t, fact) {
      WithoutReason(p, candidates, globals, x, t, fact);
    }
  }

  /** Without a reason the fact could be taken away. */
  lemma WithoutReason(p: Program, candidates: set<string>, globals: set<Fact>, x: Incoming, t: string, fact: Fact)
    requires Closed(p, candidates, x) && Below(Start(p, globals), x) && t in p && fact in x[t] && fact !in globals
    requires !Reaches(p, candidates, x, t, fact)
    ensures var y := x[t := x[t] - {fact}];
      Closed(p, candidates, y) && Below(Start(p, globals), y) && !Below(x, y)
  {
    var y := x[t := x[t] - {fact}];
    assert Below(Start(p, globals), y) && Below(y, x);
    forall u, other | u in p && Reaches(p, candidates, y, u, other) ensures other in y[u] {
      ReachGrows(p, candidates, y, x, u, other);
    }
    assert fact in x[t] && fact !in y[t];
  }

  /** What the functions hold after `n` rounds. */
  ghost predicate HeldAfter(p: Program, candidates: set<string>, globals: set<Fact>, x: Incoming, n: nat) {
    exists h :: Rounds(p, candidates, h) && |h| == n + 1 && h[0] == Start(p, globals) && h[n] == x
  }

  lemma HistoryIsHeld(p: Program, candidates: set<string>, globals: set<Fact>, h: seq<Incoming>, x: Incoming, n: nat)
    requires Unsettled(p, candidates, h, x, n) && h[0] == Start(p, globals)
    ensures HeldAfter(p, candidates, globals, x, n)
  {
  }

  /** At least the global facts, and no more than any closed assignment of facts that has them. */
  ghost predicate UnderEveryFixpoint(p: Program, candidates: set<string>, globals: set<Fact>, x: Incoming) {
    && Below(Start(p, globals), x)
    && forall y :: Closed(p, candidates, y) && Below(Start(p, globals), y) ==> Below(x, y)
  }

  /** The history of a loop in which every round has changed something. */
  ghost predicate Unsettled(p: Program, candidates: set<string>, h: seq<Incoming>, x: Incoming, rounds: nat) {
    && |h| == rounds + 1 && h[rounds] == x && Rounds(p, candidates, h)
    && forall k: nat :: k < rounds ==> h[k] != h[k + 1]
  }

  /** Without calls through variables there are at most as many changing rounds as functions. */
  lemma StillUnsettled(p: Program, candidates: set<string>, h: seq<Incoming>, x: Incoming, next: Incoming, rounds: nat)
    requires Unsettled(p, candidates, h, x, rounds) && x.Keys == p.Keys
    requires IsRound(p, candidates, x, next) && next != x
    ensures next.Keys == p.Keys && Unsettled(p, candidates, h + [next], next, rounds + 1)
    ensures NoDynamicCalls(p) && rounds <= |p| ==> rounds + 1 <= |p|
  {
    RoundsAppend(p, candidates, h, next);
    hide Rounds, NoDynamicCalls;
    var all := h + [next];
    assert forall k: nat :: k <= rounds ==> all[k] == h[k];
    if NoDynamicCalls(p) && rounds == |p| {
      RoundsSettle(p, candidates, all);
    }
  }

  lemma RoundsAppend(p: Program, candidates: set<string>, h: seq<Incoming>, next: Incoming)
    requires Rounds(p, candidates, h) && IsRound(p, candidates, h[|h| - 1], next)
    ensures Rounds(p, candidates, h + [next])
  {
    var all := h + [next];
    forall k | 0 <= k < |all| - 1 ensures all[k].Keys == p.Keys && RoundAt(p, candidates, all, k) {
      if k < |h| - 1 {
        assert RoundAt(p, candidates, h, k);
      }
    }
  }

  // ---------------------------------------------------------------------
  // With calls through variables the bound may be too small
  // ---------------------------------------------------------------------

  /** There is one next round. */
  lemma RoundIsUnique(p: Program, candidates: set<string>, a: Incoming, b: Incoming, c: Incoming)
    requires a.Keys == p.Keys && IsRound(p, candidates, a, b) && IsRound(p, candidates, a, c)
    ensures b == c
  {
    forall t | t in p ensures b[t] == c[t] {
      forall fact ensures fact in b[t] <==> fact in c[t] {
      }
    }
  }

  lemma {:induction false} RoundsAgree(p: Program, candidates: set<string>, h: seq<Incoming>, k: seq<Incoming>, n: nat)
    requires Rounds(p, candidates, h) && Rounds(p, candidates, k) && h[0] == k[0] && n < |h| && n < |k|
    ensures h[n] == k[n]
  {
    if n > 0 {
      RoundsAgree(p, candidates, h, k, n - 1);
      assert RoundAt(p, candidates, h, n - 1) && RoundAt(p, candidates, k, n - 1);
      hide IsRound;
      RoundIsUnique(p, candidates, h[n - 1], h[n], k[n]);
    }
  }

  /** Three functions, three variables that they call through, and a value that names none of the functions. */
  datatype Names = Names(f: string, g: string, h: string, x: string, y: string, w: string, z: string) {
    predicate Valid() {
      && f != g && f != h && g != h && z != f && z != g && z != h && x != y && x != w && y != w
      && PlainName(f) && PlainName(g) && PlainName(h) && PlainName(z)
    }

    function Facts(): set<Fact> { {(y, h), (w, f), (y, z), (y, g), (x, h)} }

    function Functions(): set<string> { {f, g, h} }

    /** No function is called by its name. */
    function Delayed(): Program {
      map[
        f := Function({(y, h)}, {}, {}, {y}),
        g := Function({(w, f), (y, z)}, {(w, f)}, {}, {x}),
        h := Function({(y, g), (x, h)}, {(y, g)}, {}, {w})]
    }
  }

  /** Such a name matches itself alone, and is no dispatcher's. */
  predicate PlainName(name: string) {
    UsablePrefix(name) && name[0] != '_'
  }

  ghost predicate IsDelayed(p: Program, n: Names) {
    && p.Keys == n.Functions()
    && p[n.f] == Function({(n.y, n.h)}, {}, {}, {n.y})
    && p[n.g] == Function({(n.w, n.f), (n.y, n.z)}, {(n.w, n.f)}, {}, {n.x})
    && p[n.h] == Function({(n.y, n.g), (n.x, n.h)}, {(n.y, n.g)}, {}, {n.w})
  }

  lemma DelayedIsDelayed(n: Names)
    requires n.Valid()
    ensures IsDelayed(n.Delayed(), n)
  {
    hide PlainName;
  }

  lemma ResolvesByName(n: Names, visible: set<Fact>, variable: string, target: string)
    requires n.Valid() && visible <= n.Facts()
    ensures Resolves(visible, {variable}, target) <==> (variable, target) in visible
  {
    if Resolves(visible, {variable}, target) {
      var fact :| fact in visible && fact.0 in {variable} && UsablePrefix(fact.1) && DynamicTargetMatches(target, fact.1);
      assert PlainName(fact.1);
      assert fact == (variable, target);
    }
    if (variable, target) in visible {
      var fact := (variable, target);
      assert PlainName(fact.1) && fact.0 in {variable} && DynamicTargetMatches(target, fact.1);
    }
  }

  /** What each of the three functions calls, given what they hold. */
  lemma DelayedCalls(n: Names, p: Program, incoming: Incoming, name: string, variable: string)
    requires n.Valid() && p.Keys == n.Functions() == incoming.Keys && name in p
    requires p[name].calls == {} && p[name].invoked == {variable}
    requires Visible(p, incoming, name) <= n.Facts()
    ensures forall t :: t in Callees(p, n.Functions(), incoming, name) <==>
      t in p && (variable, t) in Visible(p, incoming, name)
  {
    assert InvokedBy(name, p[name]) == {variable};
    forall t ensures t in Callees(p, n.Functions(), incoming, name) <==> t in p && (variable, t) in Visible(p, incoming, name) {
      ResolvesByName(n, Visible(p, incoming, name), variable, t);
      hide Resolves;
    }
  }

  /** What the three functions hold. */
  ghost predicate Holding(n: Names, incoming: Incoming, f: set<Fact>, g: set<Fact>, h: set<Fact>) {
    && incoming.Keys == n.Functions() && incoming[n.f] == f && incoming[n.g] == g && incoming[n.h] == h
    && f <= n.Facts() && g <= n.Facts() && h <= n.Facts()
  }

  function Held(n: Names, f: set<Fact>, g: set<Fact>, h: set<Fact>): Incoming {
    map[n.f := f, n.g := g, n.h := h]
  }

  function NextF(n: Names, f: set<Fact>, g: set<Fact>, h: set<Fact>): set<Fact> {
    f + {(n.y, n.g)} + (if (n.y, n.g) in f then {(n.w, n.f)} else {})
    + (if (n.w, n.f) in h then h + {(n.y, n.g), (n.x, n.h)} else {})
  }

  function NextG(n: Names, f: set<Fact>, g: set<Fact>, h: set<Fact>): set<Fact> {
    g + (if (n.y, n.g) in f then f + {(n.y, n.h)} else {}) + (if (n.x, n.h) in g then {(n.y, n.g)} else {})
  }

  function NextH(n: Names, f: set<Fact>, g: set<Fact>, h: set<Fact>): set<Fact> {
    h + f + {(n.y, n.h)} + (if (n.x, n.h) in g then g + {(n.w, n.f), (n.y, n.z)} else {})
  }

  /** Who calls whom: `f` always calls `h`, and each other call waits for one fact. */
  ghost predicate Calling(n: Names, p: Program, incoming: Incoming)
    requires incoming.Keys == p.Keys
  {
    && p.Keys == n.Functions()
    && (forall t :: t in Callees(p, n.Functions(), incoming, n.f) <==>
          t == n.h || (t == n.g && (n.y, n.g) in incoming[n.f]))
    && (forall t :: t in Callees(p, n.Functions(), incoming, n.g) <==> t == n.h && (n.x, n.h) in incoming[n.g])
    && (forall t :: t in Callees(p, n.Functions(), incoming, n.h) <==> t == n.f && (n.w, n.f) in incoming[n.h])
  }

  lemma DelayedCalling(n: Names, p: Program, incoming: Incoming, f: set<Fact>, g: set<Fact>, h: set<Fact>)
    requires n.Valid() && IsDelayed(p, n) && Holding(n, incoming, f, g, h)
    ensures Calling(n, p, incoming)
  {
    hide Callees, PlainName;
    DelayedCalls(n, p, incoming, n.f, n.y);
    DelayedCalls(n, p, incoming, n.g, n.x);
    DelayedCalls(n, p, incoming, n.h, n.w);
  }

  lemma ThreeReach(n: Names, p: Program, incoming: Incoming, t: string, fact: Fact)
    requires p.Keys == n.Functions() == incoming.Keys
    ensures Reaches(p, n.Functions(), incoming, t, fact) <==>
      || Adds(p, n.Functions(), incoming, n.f, t, fact)
      || Adds(p, n.Functions(), incoming, n.g, t, fact)
      || Adds(p, n.Functions(), incoming, n.h, t, fact)
  {
    hide Adds;
  }

  lemma DelayedRound(n: Names, p: Program, incoming: Incoming, f: set<Fact>, g: set<Fact>, h: set<Fact>, next: Incoming)
    requires n.Valid() && IsDelayed(p, n) && Holding(n, incoming, f, g, h)
    requires Holding(n, next, NextF(n, f, g, h), NextG(n, f, g, h), NextH(n, f, g, h))
    ensures IsRound(p, n.Functions(), incoming, next)
  {
    DelayedCalling(n, p, incoming, f, g, h);
    hide Callees, PlainName;
    forall t, fact | t in p
      ensures fact in next[t] <==> fact in incoming[t] || Reaches(p, n.Functions(), incoming, t, fact)
    {
      ThreeReach(n, p, incoming, t, fact);
      hide Reaches;
      if t == n.f {
        FGains(n, p, incoming, f, g, h, fact);
      } else if t == n.g {
        GGains(n, p, incoming, f, g, h, fact);
      } else {
        HGains(n, p, incoming, f, g, h, fact);
      }
    }
  }

  lemma FGains(n: Names, p: Program, incoming: Incoming, f: set<Fact>, g: set<Fact>, h: set<Fact>, fact: Fact)
    requires n.Valid() && IsDelayed(p, n) && Holding(n, incoming, f, g, h) && Calling(n, p, incoming)
    ensures fact in NextF(n, f, g, h) <==>
      || fact in f
      || Adds(p, n.Functions(), incoming, n.f, n.f, fact)
      || Adds(p, n.Functions(), incoming, n.g, n.f, fact)
      || Adds(p, n.Functions(), incoming, n.h, n.f, fact)
  {
    hide Callees, PlainName;
    assert n.h in Callees(p, n.Functions(), incoming, n.f);
    assert n.g in Callees(p, n.Functions(), incoming, n.f) <==> (n.y, n.g) in f;
  }

  lemma GGains(n: Names, p: Program, incoming: Incoming, f: set<Fact>, g: set<Fact>, h: set<Fact>, fact: Fact)
    requires n.Valid() && IsDelayed(p, n) && Holding(n, incoming, f, g, h) && Calling(n, p, incoming)
    ensures fact in NextG(n, f, g, h) <==>
      || fact in g
      || Adds(p, n.Functions(), incoming, n.f, n.g, fact)
      || Adds(p, n.Functions(), incoming, n.g, n.g, fact)
      || Adds(p, n.Functions(), incoming, n.h, n.g, fact)
  {
    hide Callees, PlainName;
    assert n.h in Callees(p, n.Functions(), incoming, n.g) <==> (n.x, n.h) in g;
  }

  lemma HGains(n: Names, p: Program, incoming: Incoming, f: set<Fact>, g: set<Fact>, h: set<Fact>, fact: Fact)
    requires n.Valid() && IsDelayed(p, n) && Holding(n, incoming, f, g, h) && Calling(n, p, incoming)
    ensures fact in NextH(n, f, g, h) <==>
      || fact in h
      || Adds(p, n.Functions(), incoming, n.f, n.h, fact)
      || Adds(p, n.Functions(), incoming, n.g, n.h, fact)
      || Adds(p, n.Functions(), incoming, n.h, n.h, fact)
  {
    hide Callees, PlainName;
    assert n.f in Callees(p, n.Functions(), incoming, n.h) <==> (n.w, n.f) in h;
  }

  /** The first rounds of the three functions, from nothing at all. */
  function DelayedHistory(n: Names): seq<Incoming> {
    var start, fewer := {(n.y, n.g), (n.w, n.f)}, {(n.y, n.g), (n.y, n.h), (n.w, n.f)};
    var most, all := n.Facts() - {(n.y, n.z)}, n.Facts();
    [Held(n, {}, {}, {}),
     Held(n, {(n.y, n.g)}, {}, {(n.y, n.h)}),
     Held(n, start, {(n.y, n.g), (n.y, n.h)}, {(n.y, n.g), (n.y, n.h)}),
     Held(n, start, fewer, fewer),
     Held(n, most, fewer, fewer),
     Held(n, most, most, most),
     Held(n, most, most, all),
     Held(n, all, most, all),
     Held(n, all, all, all)]
  }

  lemma HeldStep(n: Names, p: Program, f: set<Fact>, g: set<Fact>, h: set<Fact>, f': set<Fact>, g': set<Fact>, h': set<Fact>)
    requires n.Valid() && IsDelayed(p, n)
    requires f <= n.Facts() && g <= n.Facts() && h <= n.Facts() && f' <= n.Facts() && g' <= n.Facts() && h' <= n.Facts()
    requires f' == NextF(n, f, g, h) && g' == NextG(n, f, g, h) && h' == NextH(n, f, g, h)
    ensures IsRound(p, n.Functions(), Held(n, f, g, h), Held(n, f', g', h'))
  {
    hide IsDelayed, IsRound, PlainName, NextF, NextG, NextH, Names.Facts;
    DelayedRound(n, p, Held(n, f, g, h), f, g, h, Held(n, f', g', h'));
  }

  lemma EarlyRounds(n: Names, p: Program, k: nat)
    requires n.Valid() && IsDelayed(p, n) && k < 4
    ensures IsRound(p, n.Functions(), DelayedHistory(n)[k], DelayedHistory(n)[k + 1])
  {
    var start, fewer := {(n.y, n.g), (n.w, n.f)}, {(n.y, n.g), (n.y, n.h), (n.w, n.f)};
    var most := n.Facts() - {(n.y, n.z)};
    hide IsDelayed, IsRound, PlainName;
    match k {
      case 0 => HeldStep(n, p, {}, {}, {}, {(n.y, n.g)}, {}, {(n.y, n.h)});
      case 1 => HeldStep(n, p, {(n.y, n.g)}, {}, {(n.y, n.h)}, start, {(n.y, n.g), (n.y, n.h)}, {(n.y, n.g), (n.y, n.h)});
      case 2 => HeldStep(n, p, start, {(n.y, n.g), (n.y, n.h)}, {(n.y, n.g), (n.y, n.h)}, start, fewer, fewer);
      case 3 => HeldStep(n, p, start, fewer, fewer, most, fewer, fewer);
    }
  }

  lemma LateRounds(n: Names, p: Program, k: nat)
    requires n.Valid() && IsDelayed(p, n) && 4 <= k < 8
    ensures IsRound(p, n.Functions(), DelayedHistory(n)[k], DelayedHistory(n)[k + 1])
  {
    var fewer := {(n.y, n.g), (n.y, n.h), (n.w, n.f)};
    var most, all := n.Facts() - {(n.y, n.z)}, n.Facts();
    hide IsDelayed, IsRound, PlainName;
    match k {
      case 4 => HeldStep(n, p, most, fewer, fewer, most, most, most);
      case 5 => HeldStep(n, p, most, most, most, most, most, all);
      case 6 => HeldStep(n, p, most, most, all, all, most, all);
      case 7 => HeldStep(n, p, all, most, all, all, all, all);
    }
  }

  lemma DelayedRounds(n: Names, p: Program)
    requires n.Valid() && IsDelayed(p, n)
    ensures var h := DelayedHistory(n);
      && |h| == 9 && Rounds(p, n.Functions(), h) && h[0] == Start(p, {})
      && forall k :: 0 <= k < 8 ==> h[k] != h[k + 1]
  {
    var h := DelayedHistory(n);
    HistoryChanges(n);
    assert h[0] == Start(p, {});
    assert forall k :: 0 <= k < 9 ==> h[k].Keys == n.Functions();
    hide IsRound, PlainName, DelayedHistory;
    forall k | 0 <= k < 8 ensures RoundAt(p, n.Functions(), h, k) {
      if k < 4 {
        EarlyRounds(n, p, k);
      } else {
        LateRounds(n, p, k);
      }
    }
  }

  /** Every one of these rounds finds something new. */
  lemma HistoryChanges(n: Names)
    requires n.Valid()
    ensures forall k :: 0 <= k < 8 ==> DelayedHistory(n)[k] != DelayedHistory(n)[k + 1]
  {
    forall k | 0 <= k < 8 ensures DelayedHistory(n)[k] != DelayedHistory(n)[k + 1] {
      NewFact(n, k);
    }
  }

  lemma NewFact(n: Names, k: nat)
    requires n.Valid() && k < 8
    ensures DelayedHistory(n)[k] != DelayedHistory(n)[k + 1]
  {
    hide PlainName;
    var a, b := DelayedHistory(n)[k], DelayedHistory(n)[k + 1];
    var (name, fact) := [
      (n.f, (n.y, n.g)), (n.f, (n.w, n.f)), (n.g, (n.w, n.f)), (n.f, (n.x, n.h)),
      (n.g, (n.x, n.h)), (n.h, (n.y, n.z)), (n.f, (n.y, n.z)), (n.g, (n.y, n.z))][k];
    assert fact !in a[name] && fact in b[name];
  }

  /** There are such names. */
  lemma SomeNamesAreValid()
    ensures Names("f", "g", "h", "x", "y", "w", "z").Valid()
  {
    assert "f"[0] == 'f' && "g"[0] == 'g' && "h"[0] == 'h' && "z"[0] == 'z';
    assert "x"[0] == 'x' && "y"[0] == 'y' && "w"[0] == 'w';
  }

  lemma DelayedSize(n: Names, p: Program)
    requires n.Valid() && IsDelayed(p, n)
    ensures |p| == 3 && p.Keys == n.Functions()
    ensures forall f :: f in p ==> p[f].returned <= p[f].own && p[f].calls == {}
  {
    hide PlainName;
    assert |n.Functions()| == 3;
    assert |p| == |p.Keys|;
  }

  /**
   Three functions that call each other through variables, whatever their names: the bounded loop ends while facts
   are still on their way, and what it has found is not the least fixpoint.
   */
  method BoundIsTooSmall(n: Names) returns (p: Program, incoming: Incoming, settled: bool, rounds: nat)
    requires n.Valid()
    ensures |p| == 3 && !settled && rounds == 7
    ensures forall f :: f in p ==> p[f].returned <= p[f].own && p[f].calls == {}
    ensures !LeastFixpoint(p, p.Keys, {}, incoming)
  {
    hide Names.Valid, Names.Delayed, Names.Functions, IsDelayed, IsRound, Rounds, LeastFixpoint, HeldAfter, UnderEveryFixpoint,
      NoDynamicCalls, DelayedHistory;
    p := n.Delayed();
    DelayedIsDelayed(n);
    DelayedSize(n, p);
    DelayedRounds(n, p);
    incoming, settled, rounds := PropagateAssignments(p, n.Functions(), {});
    HistoryDiffers(p, n.Functions(), DelayedHistory(n), incoming, if settled then rounds - 1 else rounds);
  }

  /** What is held after a round that is not the last of a changing history is not closed. */
  lemma HistoryDiffers(p: Program, candidates: set<string>, h: seq<Incoming>, x: Incoming, k: nat)
    requires Rounds(p, candidates, h) && h[0] == Start(p, {}) && k + 1 < |h| && h[k] != h[k + 1]
    requires HeldAfter(p, candidates, {}, x, k)
    ensures x.Keys == p.Keys && !IsRound(p, candidates, x, x) && !LeastFixpoint(p, candidates, {}, x)
  {
    var other :| Rounds(p, candidates, other) && |other| == k + 1 && other[0] == Start(p, {}) && other[k] == x;
    RoundsAgree(p, candidates, h, other, k);
    assert RoundAt(p, candidates, h, k);
    RoundGrows(p, candidates, h[k], h[k + 1]);
    if IsRound(p, candidates, x, x) {
      RoundIsUnique(p, candidates, x, x, h[k + 1]);
    }
    if Closed(p, candidates, x) {
      ClosedIsRound(p, candidates, x);
    }
    hide IsRound, Closed;
  }

  lemma ClosedIsRound(p: Program, candidates: set<string>, x: Incoming)
    requires Closed(p, candidates, x)
    ensures IsRound(p, candidates, x, x)
  {
  }
}
