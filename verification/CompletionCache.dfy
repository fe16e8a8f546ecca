/**
 The byte accounting of the completion cache. One counter, `used`, carries four
 kinds of cached entries, a snapshot, the rule store and configuration, rule
 admissions, staged rule chunks, probe admissions and diagnostics; reservations
 for work in flight are accounted beside it. Every step keeps the counter equal
 to the sum of what it stands for, and keeps the accounted bytes within the
 limit, with one exception that `ReceiveFilesystem` states exactly.
 */
module CompletionCache {
  import opened Wrappers
  import opened LruMaps
  import opened CacheState
  import opened CacheSteps
  import TextOrder

  // ---------------------------------------------------------------------
  // Parts of the steps
  // ---------------------------------------------------------------------

  lemma LimitIsFree(s: State, limit: nat)
    requires s.Valid()
    ensures s.(limit := limit).Valid()
    ensures s.(limit := limit, rules := s.rules.(rejected := {}, saturated := false),
      probes := s.probes.(rejected := {}, saturated := false)).Valid()
    ensures s.(limit := limit).Floor() == s.Floor()
    ensures s.(limit := limit, rules := s.rules.(rejected := {}, saturated := false),
      probes := s.probes.(rejected := {}, saturated := false)).Floor() == s.Floor()
  {
    RuleMarksAreFree(s, s.rules.(rejected := {}, saturated := false));
    hide Total, Sum, Owned, Rules.Bytes;
  }

  lemma ConfigurationFits(s: State)
    requires s.Valid()
    ensures s.rules.configuration <= MAX_RULE_CONFIGURATION_ACCOUNTED_BYTES
  {
  }

  /** A rule boundary may only give up the snapshot's reservation. */
  predicate SnapshotKept(x: Snapshot, y: Snapshot) {
    y.bytes == x.bytes && y.unavailable == x.unavailable && (y.reservation == x.reservation || y.reservation.None?)
  }

  predicate SnapshotGone(x: Snapshot) {
    x.reservation.None? && x.bytes == 0 && x.unavailable
  }

  lemma StoppingIsFree(s: State)
    requires s.Valid()
    ensures s.(replay := 0, files := s.files.(exceeded := false)).Valid()
  {
    hide Total, Sum, Owned;
  }

  const MAX_RULE_CONFIGURATION_PATHS: nat := 128
  const MAX_RULE_CONFIGURATION_BYTES: nat := 512 * 1024
  const MAX_PATH_COMPONENT_BYTES: nat := 4096

  function Lengths(paths: seq<nat>): nat {
    if paths == [] then 0 else Lengths(paths[..|paths| - 1]) + paths[|paths| - 1]
  }

  lemma {:induction false} LengthsOfPrefix(paths: seq<nat>, n: nat)
    requires n <= |paths|
    ensures Lengths(paths[..n]) <= Lengths(paths)
  {
    if n < |paths| {
      LengthsOfPrefix(paths[..|paths| - 1], n);
      assert paths[..|paths| - 1][..n] == paths[..n];
    } else {
      assert paths[..n] == paths;
    }
  }

  function Selected(paths: seq<nat>, taken: seq<bool>): seq<nat>
    requires |paths| == |taken|
  {
    if paths == [] then []
    else
      var n := |paths| - 1;
      Selected(paths[..n], taken[..n]) + if taken[n] then [paths[n]] else []
  }

  /** Whether path `i` still fits beside the earlier ones that were taken. */
  predicate StillFits(paths: seq<nat>, taken: seq<bool>, i: nat, count: nat, room: nat)
    requires |paths| == |taken| && i < |paths|
  {
    var before := Selected(paths[..i], taken[..i]);
    |before| < count && paths[i] <= MAX_PATH_COMPONENT_BYTES && Lengths(before) + paths[i] <= room
  }

  predicate TakesWhatFits(paths: seq<nat>, taken: seq<bool>, count: nat, room: nat) {
    && |taken| == |paths|
    && forall i :: 0 <= i < |paths| ==> (taken[i] <==> StillFits(paths, taken, i, count, room))
  }

  /** Keeps every path that still fits the count and the bytes that are left; others are skipped, not an end. */
  method BoundedPaths(paths: seq<nat>, count: nat, room: nat)
    returns (kept: seq<nat>, truncated: bool, countLeft: nat, roomLeft: nat, ghost taken: seq<bool>)
    ensures TakesWhatFits(paths, taken, count, room) && kept == Selected(paths, taken)
    ensures |kept| + countLeft == count && Lengths(kept) + roomLeft == room
    ensures truncated <==> false in taken
  {
    hide StillFits, TakesWhatFits;
    kept, truncated, countLeft, roomLeft, taken := [], false, count, room, [];
    assert TakesWhatFits([], [], count, room) by { TakesNothing(count, room); }
    for i := 0 to |paths|
      invariant |taken| == i && TakesWhatFits(paths[..i], taken, count, room) && kept == Selected(paths[..i], taken)
      invariant |kept| + countLeft == count && Lengths(kept) + roomLeft == room
      invariant truncated <==> false in taken
    {
      ghost var fits := countLeft != 0 && paths[i] <= MAX_PATH_COMPONENT_BYTES && paths[i] <= roomLeft;
      SelectionGrows(paths, i, taken, fits, count, room);
      assert (kept + [paths[i]])[..|kept|] == kept;
      taken := taken + [fits];
      if countLeft == 0 || paths[i] > MAX_PATH_COMPONENT_BYTES || paths[i] > roomLeft {
        truncated := true;
      } else {
        countLeft := countLeft - 1;
        roomLeft := roomLeft - paths[i];
        kept := kept + [paths[i]];
      }
    }
    assert paths[..|paths|] == paths;
  }

  lemma TakesNothing(count: nat, room: nat)
    ensures TakesWhatFits([], [], count, room)
  {
  }

  lemma SelectionGrows(paths: seq<nat>, i: nat, taken: seq<bool>, more: bool, count: nat, room: nat)
    requires i < |paths| && |taken| == i && TakesWhatFits(paths[..i], taken, count, room)
    requires var before := Selected(paths[..i], taken);
      more <==> |before| < count && paths[i] <= MAX_PATH_COMPONENT_BYTES && Lengths(before) + paths[i] <= room
    ensures Selected(paths[..i + 1], taken + [more]) == Selected(paths[..i], taken) + if more then [paths[i]] else []
    ensures TakesWhatFits(paths[..i + 1], taken + [more], count, room)
  {
    assert paths[..i + 1][..i] == paths[..i] && (taken + [more])[..i] == taken;
    forall j | 0 <= j < i
      ensures StillFits(paths[..i + 1], taken + [more], j, count, room) == StillFits(paths[..i], taken, j, count, room)
    {
      assert paths[..i + 1][..j] == paths[..i][..j] && (taken + [more])[..j] == taken[..j];
    }
  }

  lemma NextFits(paths: seq<nat>, taken: seq<bool>, count: nat, room: nat, i: nat)
    requires i < |paths| == |taken| && Selected(paths[..i], taken[..i]) == paths[..i]
    requires i < count && paths[i] <= MAX_PATH_COMPONENT_BYTES && Lengths(paths[..i + 1]) <= room
    ensures StillFits(paths, taken, i, count, room)
  {
    LengthsStep(paths, i);
    hide Selected, Lengths;
  }

  lemma {:induction false} PrefixFits(paths: seq<nat>, taken: seq<bool>, count: nat, room: nat, n: nat)
    requires TakesWhatFits(paths, taken, count, room) && n <= |paths| <= count && Lengths(paths) <= room
    requires forall i :: 0 <= i < |paths| ==> paths[i] <= MAX_PATH_COMPONENT_BYTES
    ensures Selected(paths[..n], taken[..n]) == paths[..n]
  {
    if n > 0 {
      hide Selected, Lengths, StillFits;
      PrefixFits(paths, taken, count, room, n - 1);
      LengthsOfPrefix(paths, n);
      NextFits(paths, taken, count, room, n - 1);
      NextSelected(paths, taken, n - 1);
      assert paths[..n] == paths[..n - 1] + [paths[n - 1]];
    }
  }

  /** Paths that fit together are all taken. */
  lemma AllFit(paths: seq<nat>, taken: seq<bool>, count: nat, room: nat)
    requires TakesWhatFits(paths, taken, count, room) && |paths| <= count && Lengths(paths) <= room
    requires forall i :: 0 <= i < |paths| ==> paths[i] <= MAX_PATH_COMPONENT_BYTES
    ensures Selected(paths, taken) == paths
  {
    PrefixFits(paths, taken, count, room, |paths|);
    hide Selected, Lengths, StillFits;
    assert paths[..|paths|] == paths && taken[..|paths|] == taken;
  }

  lemma NextSelected(paths: seq<nat>, taken: seq<bool>, i: nat)
    requires i < |paths| == |taken|
    ensures Selected(paths[..i + 1], taken[..i + 1]) ==
            Selected(paths[..i], taken[..i]) + if taken[i] then [paths[i]] else []
  {
    assert paths[..i + 1][..i] == paths[..i] && taken[..i + 1][..i] == taken[..i];
  }

  lemma LengthsStep(paths: seq<nat>, i: nat)
    requires i < |paths|
    ensures Lengths(paths[..i + 1]) == Lengths(paths[..i]) + paths[i]
  {
    assert paths[..i + 1][..i] == paths[..i];
  }

  function ConfigurationBytes(paths: seq<nat>, keys: seq<nat>): nat {
    2 * OWNED_SIZE + (|paths| + |keys|) * OWNED_SIZE + Lengths(paths) + Lengths(keys)
  }

  /** Nothing needs to be evicted. */
  predicate FitsAsItIs(s: State) {
    s.WithinCounts() && s.Capacity() <= s.limit
  }

  predicate RefusedProbe(p: Probes, k: nat) {
    p.saturated || k in p.rejected
  }

  lemma StartingIsFree(s: State, started: bool)
    requires s.Valid()
    ensures !s.probeWorker ==> s.(probeWorker := started).Valid()
  {
    hide Total, Sum, Owned;
  }

  lemma DetachingIsFree(s: State, detached: nat)
    requires s.Valid()
    ensures s.(detached := detached).Valid()
  {
    hide Total, Sum, Owned;
  }

  function ReplayLimit(s: State): nat {
    Minus(Minus(Minus(s.limit, s.Base()), s.GrowthReserve()), MAX_RULE_ADMISSION_BYTES)
  }

  /** No more rule diagnostics were dropped than had to be. */
  predicate TrimmedByNeed(s: State, errors: seq<Message>) {
    errors != s.rules.errors ==>
      |errors| < |s.rules.errors| &&
      WithRuleErrors(s, s.rules.errors[|s.rules.errors| - |errors| - 1..]).Capacity() > s.limit
  }

  lemma NothingTrimmed(s: State)
    ensures TrimmedByNeed(s, s.rules.errors)
  {
  }

  lemma TrimmedOnce(s: State, errors: seq<Message>)
    requires errors != [] && Suffix(errors, s.rules.errors) && WithRuleErrors(s, errors).Capacity() > s.limit
    ensures TrimmedByNeed(s, errors[1..])
  {
    hide WithRuleErrors, State.Capacity;
    assert s.rules.errors[|s.rules.errors| - |errors[1..]| - 1..] == errors;
  }

  lemma PendingHasWorker(s: State)
    requires s.Valid() && s.probes.pending != {}
    ensures s.probeWorker
  {
  }

  lemma LossMarksAreFree(s: State, unavailable: bool)
    requires s.Valid()
    ensures s.(snapshot := s.snapshot.(unavailable := unavailable, deferred := false),
      files := s.files.(exceeded := false),
      rules := s.rules.(acknowledge := false, catalogDeferred := false, ready := true)).Valid()
  {
    RuleMarksAreFree(s, s.rules.(acknowledge := false, catalogDeferred := false, ready := true));
    hide Total, Sum, Owned, Rules.Bytes;
  }

  /** The new diagnostic comes last, behind as many of the latest earlier ones as fit; alone too large, it leaves none. */
  predicate KeepsLatest(errors: seq<Message>, m: Message, kept: seq<Message>) {
    && |kept| <= MAX_DIAGNOSTICS && Owned(kept) <= MAX_PROBE_DIAGNOSTIC_BYTES
    && if OWNED_SIZE + m.capacity > MAX_PROBE_DIAGNOSTIC_BYTES then kept == []
       else
         && kept != [] && kept[|kept| - 1] == m
         && var n := |kept| - 1;
         && Suffix(kept[..n], errors)
         && (n < |errors| ==>
               n + 1 >= MAX_DIAGNOSTICS ||
               Owned(errors[|errors| - n - 1..]) + OWNED_SIZE + m.capacity > MAX_PROBE_DIAGNOSTIC_BYTES)
  }

  /** Drops the oldest diagnostics until the new one fits, and appends it if it fits at all. */
  method RoomForDiagnostic(errors: seq<Message>, m: Message) returns (kept: seq<Message>)
    ensures KeepsLatest(errors, m, kept)
    ensures |kept| <= MAX_DIAGNOSTICS && Owned(kept) <= MAX_PROBE_DIAGNOSTIC_BYTES
  {
    kept := errors;
    hide Owned, Suffix, KeepsLatest, DroppedByNeed;
    WholeIsSuffix(errors, m);
    while kept != [] && (|kept| >= MAX_DIAGNOSTICS || Owned(kept) + OWNED_SIZE + m.capacity > MAX_PROBE_DIAGNOSTIC_BYTES)
      invariant Suffix(kept, errors) && DroppedByNeed(errors, m, kept)
      decreases |kept|
    {
      SuffixStep(kept, errors);
      DroppedOnce(errors, m, kept);
      kept := kept[1..];
    }
    OwnedNothing();
    LatestAreKept(errors, m, kept);
    if OWNED_SIZE + m.capacity <= MAX_PROBE_DIAGNOSTIC_BYTES {
      kept := kept + [m];
    }
  }

  predicate Distinct(errors: seq<Message>) {
    forall i, j :: 0 <= i < j < |errors| ==> errors[i].text != errors[j].text
  }

  lemma DistinctSuffix(errors: seq<Message>, later: seq<Message>)
    requires Distinct(errors) && Suffix(later, errors)
    ensures Distinct(later)
  {
    var n := |errors| - |later|;
    assert forall i :: 0 <= i < |later| ==> later[i] == errors[n + i];
  }

  lemma DistinctWithLast(errors: seq<Message>, m: Message)
    requires Distinct(errors) && !Mentions(errors, m.text)
    ensures Distinct(errors + [m])
  {
  }

  lemma LastOfIsSuffix(errors: seq<Message>, n: nat)
    ensures Suffix(LastOf(errors, n), errors)
  {
  }

  lemma LatestAreDistinct(errors: seq<Message>, m: Message, kept: seq<Message>)
    requires KeepsLatest(errors, m, kept) && Distinct(errors) && !Mentions(errors, m.text)
    ensures Distinct(kept)
  {
    hide Owned;
    if kept != [] {
      var n := |kept| - 1;
      var start := |errors| - n;
      assert start >= 0 && kept[n] == m;
      forall i | 0 <= i < n ensures kept[i] == errors[start + i] {
        assert kept[..n][i] == errors[start..][i];
      }
      hide KeepsLatest, Suffix;
    }
  }

  predicate DroppedByNeed(errors: seq<Message>, m: Message, kept: seq<Message>) {
    |kept| < |errors| ==>
      |kept| + 1 >= MAX_DIAGNOSTICS ||
      Owned(errors[|errors| - |kept| - 1..]) + OWNED_SIZE + m.capacity > MAX_PROBE_DIAGNOSTIC_BYTES
  }

  lemma WholeIsSuffix(errors: seq<Message>, m: Message)
    ensures Suffix(errors, errors) && DroppedByNeed(errors, m, errors)
  {
  }

  lemma DroppedOnce(errors: seq<Message>, m: Message, kept: seq<Message>)
    requires kept != [] && Suffix(kept, errors)
    requires |kept| >= MAX_DIAGNOSTICS || Owned(kept) + OWNED_SIZE + m.capacity > MAX_PROBE_DIAGNOSTIC_BYTES
    ensures DroppedByNeed(errors, m, kept[1..])
  {
    hide Owned;
    assert errors[|errors| - |kept[1..]| - 1..] == kept;
  }

  lemma LatestAreKept(errors: seq<Message>, m: Message, kept: seq<Message>)
    requires Suffix(kept, errors) && DroppedByNeed(errors, m, kept)
    requires kept == [] || (|kept| < MAX_DIAGNOSTICS && Owned(kept) + OWNED_SIZE + m.capacity <= MAX_PROBE_DIAGNOSTIC_BYTES)
    ensures var all := if OWNED_SIZE + m.capacity <= MAX_PROBE_DIAGNOSTIC_BYTES then kept + [m] else kept;
      KeepsLatest(errors, m, all) && |all| <= MAX_DIAGNOSTICS && Owned(all) <= MAX_PROBE_DIAGNOSTIC_BYTES
  {
    OwnedAppend(kept, m);
    OwnedNothing();
    hide Owned, Suffix;
    assert (kept + [m])[..|kept|] == kept;
  }

  lemma PublishedFits(s: State, c: Command, bytes: nat, items: nat)
    requires s.Valid() && Minus(s.Capacity(), SizeAt(s.rules.entries, c)) + bytes <= s.limit
    ensures var t := Published(s, c, bytes, items);
      && t.Capacity() <= s.limit
      && t.rules == s.rules.(entries := t.rules.entries)
      && c in t.rules.entries && t.rules.entries[c].bytes == bytes && t.rules.entries[c].items == items
  {
    PublishedIsValid(s, c, bytes, items);
    hide State.Valid;
  }

  function TooManyRules(c: Command): string {
    c + ": decoded rules exceed the bounded rule limit"
  }

  function TooLargeRules(c: Command): string {
    c + ": decoded rules exceed the configured cache limit"
  }

  /** Why a program list may not be published, if it may not. */
  function WhyUnpublishable(s: State, c: Command, bytes: nat, items: nat): (error: Option<string>)
    ensures error.None? ==> Minus(s.Capacity(), SizeAt(s.rules.entries, c)) + bytes <= s.limit
  {
    if items > MAX_RULE_CACHE_ENTRIES then Some(TooManyRules(c))
    else if bytes > Min(s.limit, MAX_RULE_BYTES) || Minus(s.Capacity(), SizeAt(s.rules.entries, c)) + bytes > s.limit then
      Some(TooLargeRules(c))
    else None
  }

  datatype RulesReply = RulesReply(
    command: Command, programs: nat, errors: seq<Message>, bytes: nat, generation: nat, complete: bool, rejected: bool)

  datatype RulesOutcome = StaleReply | RefusedReply | StagedReply | PublishedReply

  function StagedFor(r: Rules, c: Command): Chunks {
    if c in r.chunks then r.chunks[c] else Chunks(0, 0, 0, [])
  }

  function StagedBytes(r: Rules, c: Command): nat {
    if c in r.chunks then r.chunks[c].Bytes(c) else 0
  }

  function ItemsOf(m: map<Command, Entry>, c: Command): nat {
    if c in m then m[c].items else 0
  }

  /** `spareBytes` is what the grown buffers hold beyond their contents. */
  function Extended(staged: Chunks, reply: RulesReply, spareBytes: nat): Chunks {
    Chunks(staged.programs + reply.programs, staged.programBytes + reply.bytes, spareBytes, staged.errors + reply.errors)
  }

  /** What the last reply of a load gives back. */
  function LoadBytes(r: Rules, reply: RulesReply): nat {
    if reply.complete && r.load.Some? && r.load.value.generation == reply.generation then r.load.value.bytes else 0
  }

  /** The reply's part fits beside everything else, together with the parts before it. */
  predicate PartsFit(s: State, reply: RulesReply, spareBytes: nat) {
    var c, staged := reply.command, StagedFor(s.rules, reply.command);
    var bytes := Extended(staged, reply, spareBytes).Bytes(c);
    && staged.programs + reply.programs <= MAX_RULE_CACHE_ENTRIES
    && |staged.errors| + |reply.errors| <= MAX_RULE_REJECTIONS
    && bytes <= s.limit && bytes <= MAX_RULE_BYTES
    && s.Capacity() + bytes <= s.limit + LoadBytes(s.rules, reply) + StagedBytes(s.rules, c)
  }

  /** What the command holds besides its staged parts: its request and the programs it had. */
  function OwnBytes(r: Rules, c: Command): nat {
    SizeAt(r.entries, c) + if c in r.pending then AdmissionBytes(c) else 0
  }

  /** The joined programs fit in place of what the command holds, with the reserve for the next request kept. */
  predicate WholeFits(s: State, reply: RulesReply, combinedBytes: nat) {
    var c := reply.command;
    && ItemsOf(s.rules.entries, c) + StagedFor(s.rules, c).programs + reply.programs <= MAX_RULE_CACHE_ENTRIES
    && combinedBytes <= s.limit && combinedBytes <= MAX_RULE_BYTES
    && s.Accounted() + s.GrowthReserve() + (if s.rules.pending <= {c} then MAX_RULE_ADMISSION_BYTES else 0) + combinedBytes
       <= s.limit + LoadBytes(s.rules, reply) + StagedBytes(s.rules, c) + OwnBytes(s.rules, c)
  }

  /** What must come of a current reply for a command that is not refused. */
  function Verdict(s: State, reply: RulesReply, spareBytes: nat, combinedBytes: nat): RulesOutcome {
    if !PartsFit(s, reply, spareBytes) then RefusedReply
    else if !reply.complete then StagedReply
    else if WholeFits(s, reply, combinedBytes) then PublishedReply
    else RefusedReply
  }

  lemma VerdictCases(s: State, reply: RulesReply, spareBytes: nat, combinedBytes: nat)
    ensures var v := Verdict(s, reply, spareBytes, combinedBytes);
      && v != StaleReply
      && (v == StagedReply <==> PartsFit(s, reply, spareBytes) && !reply.complete)
      && (v == PublishedReply <==> PartsFit(s, reply, spareBytes) && reply.complete && WholeFits(s, reply, combinedBytes))
  {
    hide PartsFit, WholeFits;
  }

  lemma VerdictAfterTaking(s: State, t: State, reply: RulesReply, spareBytes: nat, combinedBytes: nat)
    requires s.Valid() && t == s.(rules := s.rules.(acknowledge := true, load := t.rules.load))
    requires t.rules.load == if reply.complete then LoadReleased(s.rules, reply.generation).load else s.rules.load
    ensures Verdict(t, reply, spareBytes, combinedBytes) == Verdict(s, reply, spareBytes, combinedBytes)
  {
    hide State.Valid, StagedFor, StagedBytes, Extended, Chunks.Bytes, ItemsOf, OwnBytes, Verdict, PartsFit, WholeFits;
    assert t.Accounted() + LoadBytes(s.rules, reply) == s.Accounted();
    assert t.Capacity() + LoadBytes(s.rules, reply) == s.Capacity();
    assert LoadBytes(t.rules, reply) == 0;
    hide State.Accounted, State.Capacity, LoadBytes;
    SameVerdict(s, t, reply, spareBytes, combinedBytes);
  }

  lemma SameVerdict(s: State, t: State, reply: RulesReply, spareBytes: nat, combinedBytes: nat)
    requires t == s.(rules := s.rules.(acknowledge := true, load := t.rules.load))
    requires t.Accounted() + LoadBytes(s.rules, reply) == s.Accounted() && LoadBytes(t.rules, reply) == 0
    requires t.Capacity() + LoadBytes(s.rules, reply) == s.Capacity()
    ensures Verdict(t, reply, spareBytes, combinedBytes) == Verdict(s, reply, spareBytes, combinedBytes)
  {
    hide State.Accounted, State.Capacity, LoadBytes, Extended, Chunks.Bytes;
    var c := reply.command;
    assert StagedFor(t.rules, c) == StagedFor(s.rules, c) && StagedBytes(t.rules, c) == StagedBytes(s.rules, c);
    assert OwnBytes(t.rules, c) == OwnBytes(s.rules, c) && t.GrowthReserve() == s.GrowthReserve();
    hide StagedFor, StagedBytes, OwnBytes, State.GrowthReserve;
    assert PartsFit(t, reply, spareBytes) == PartsFit(s, reply, spareBytes);
    assert WholeFits(t, reply, combinedBytes) == WholeFits(s, reply, combinedBytes);
  }

  /** The request of a command has ended and its staged parts are gone. */
  lemma RoomAfterFinishing(s: State, t: State, u: State, reply: RulesReply, combinedBytes: nat)
    requires LoadBytes(s.rules, reply) == 0
    requires t.rules == s.rules.(chunks := s.rules.chunks - {reply.command}) && t.limit == s.limit
    requires t.Accounted() + StagedBytes(s.rules, reply.command) == s.Accounted()
    requires u == RequestFinished(t, reply.command)
    requires reply.command in t.rules.pending ==> AdmissionBytes(reply.command) <= t.used
    requires SizeAt(u.rules.entries, reply.command) <= u.used
    ensures WholeFits(s, reply, combinedBytes) <==>
      WhyUnpublishable(u, reply.command, combinedBytes,
        ItemsOf(u.rules.entries, reply.command) + StagedFor(s.rules, reply.command).programs + reply.programs).None?
  {
    var c := reply.command;
    assert u.Accounted() + (if c in t.rules.pending then AdmissionBytes(c) else 0) == t.Accounted();
    assert u.rules.pending == {} <==> s.rules.pending <= {c};
    assert u.Capacity() == u.Accounted() + s.GrowthReserve() + if s.rules.pending <= {c} then MAX_RULE_ADMISSION_BYTES else 0;
    assert SizeAt(u.rules.entries, c) <= u.Accounted();
    hide State.Accounted, State.Capacity, RequestFinished;
  }

  /** A reply for one command changes nothing of another, but that its entry may be evicted. */
  predicate OthersUntouched(r: Rules, t: Rules, c: Command) {
    && t.chunks - {c} == r.chunks - {c} && t.pending - {c} == r.pending - {c} && t.deferred - {c} == r.deferred - {c}
    && t.rejected - {c} == r.rejected - {c}
    && t.generation == r.generation && t.ready == r.ready && t.store == r.store && t.catalog == r.catalog
    && forall d :: d in t.entries && d != c ==> d in r.entries && t.entries[d] == r.entries[d]
  }

  lemma OthersAreUntouched(r: Rules, t: Rules, c: Command)
    requires t == r.(load := t.load, acknowledge := t.acknowledge, pending := t.pending, deferred := t.deferred)
    requires t.pending - {c} == r.pending - {c} && t.deferred - {c} == r.deferred - {c}
    ensures OthersUntouched(r, t, c)
  {
  }

  lemma OthersMayFail(r: Rules, t: Rules, c: Command)
    requires t == r.(errors := t.errors)
    ensures OthersUntouched(r, t, c)
  {
  }

  lemma PartsDecided(s: State, t: State, reply: RulesReply, spareBytes: nat)
    requires LoadBytes(s.rules, reply) == 0 && t.limit == s.limit
    requires t.rules == s.rules.(chunks := s.rules.chunks - {reply.command})
    requires t.Accounted() + StagedBytes(s.rules, reply.command) == s.Accounted()
    ensures var staged := StagedFor(s.rules, reply.command);
      var bytes := Extended(staged, reply, spareBytes).Bytes(reply.command);
      PartsFit(s, reply, spareBytes) <==>
        && staged.programs + reply.programs <= MAX_RULE_CACHE_ENTRIES
        && |staged.errors| + |reply.errors| <= MAX_RULE_REJECTIONS
        && bytes <= Min(s.limit, MAX_RULE_BYTES) && t.Capacity() + bytes <= s.limit
  {
    assert t.Capacity() + StagedBytes(s.rules, reply.command) == s.Capacity();
    hide State.Capacity, State.Accounted, Extended, StagedFor, StagedBytes;
  }

  lemma OthersTwice(r: Rules, t: Rules, u: Rules, c: Command)
    requires OthersUntouched(r, t, c) && OthersUntouched(t, u, c)
    ensures OthersUntouched(r, u, c)
  {
  }

  predicate NothingLoaded(r: Rules) {
    r.pending == {} && r.deferred == {} && r.chunks == map[] && r.entries == map[]
  }

  ghost predicate IsLeast(c: Command, commands: set<Command>) {
    c in commands && forall d :: d in commands ==> d == c || TextOrder.Precedes(c, d)
  }

  method LeastCommand(commands: set<Command>) returns (c: Command)
    requires commands != {}
    ensures IsLeast(c, commands)
  {
    c :| c in commands;
    var rest := commands - {c};
    while rest != {}
      invariant rest <= commands && IsLeast(c, commands - rest)
      decreases |rest|
    {
      var d :| d in rest;
      LeastOfMore(c, d, commands - rest);
      assert commands - (rest - {d}) == commands - rest + {d};
      if TextOrder.Precedes(d, c) {
        c := d;
      }
      rest := rest - {d};
    }
    assert commands - rest == commands;
  }

  lemma LeastOfMore(c: Command, d: Command, commands: set<Command>)
    requires IsLeast(c, commands)
    ensures IsLeast(if TextOrder.Precedes(d, c) then d else c, commands + {d})
  {
    hide TextOrder.Precedes;
    TextOrder.PrecedesIsTotal(c, d);
    if TextOrder.Precedes(d, c) {
      forall e | e in commands ensures e == d || TextOrder.Precedes(d, e) {
        if e != c {
          TextOrder.PrecedesIsTransitive(d, c, e);
        }
      }
    }
  }

  /** The admission may use the reserve that is kept for it. */
  predicate RoomForRequest(s: State, c: Command) {
    Minus(s.Capacity(), s.AdmissionReserve()) + AdmissionBytes(c) <= s.limit
  }

  /** Nothing has to be evicted to admit the command. */
  predicate AdmittedAsIs(s: State, c: Command) {
    && FitsAsItIs(s) && RoomForRequest(s, c)
    && AdmissionBytes(c) + MAX_RULE_CONFIGURATION_ACCOUNTED_BYTES <= s.limit
  }

  lemma RoomIsEnough(s: State, c: Command)
    ensures RoomForRequest(s, c) <==> s.Accounted() + s.GrowthReserve() + AdmissionBytes(c) <= s.limit
  {
  }

  /** Nothing else is under way and something waits. */
  predicate LoadIsDue(r: Rules, x: Snapshot) {
    r.ready && r.load.None? && x.reservation.None? && r.deferred != {}
  }

  /** Nothing is in the way of a first request. */
  predicate NewRequest(r: Rules, x: Snapshot, c: Command) {
    && c !in r.pending && c !in r.deferred && |r.pending| < MAX_PENDING_RULE_REQUESTS
    && r.load.None? && x.reservation.None?
  }

  predicate Refused(r: Rules, c: Command) {
    r.saturated || c in r.rejected
  }

  lemma DeferredIsPending(s: State)
    requires s.Valid()
    ensures s.rules.deferred <= s.rules.pending
  {
  }

  lemma OwnedNothing()
    ensures Owned([]) == 0
  {
  }

  lemma WithinIsBounded(s: State, t: State)
    requires t.limit == s.limit && t.Accounted() <= s.limit
    ensures Bounded(s, t)
  {
  }

  /** Nothing is in the way of discovery. */
  predicate MayDiscover(s: State) {
    s.worker && s.rules.configured && s.rules.load.None? && s.rules.catalog.None?
  }

  /** Discovery needs no eviction. */
  predicate DiscoversAtOnce(s: State) {
    FitsAsItIs(s) && MayDiscover(s) && s.Capacity() + s.rules.configuration <= s.limit
  }

  lemma StoreFitsBudget(s: State)
    requires s.Valid() && s.Capacity() + s.rules.configuration <= s.limit
    ensures Minus(DiscoveryBudget(s), s.rules.configuration) >= s.rules.store
  {
    StoreReplacedIsValid(s, 0);
    hide State.Valid;
  }

  /** A load is free to start, and needs no eviction. */
  predicate SnapshotLoads(s: State) {
    && s.worker && !s.snapshot.pending && s.snapshot.reservation.None?
    && FitsAsItIs(s) && s.Capacity() + MAX_SNAPSHOT_LOAD_RESERVATION_BYTES <= s.limit
    && MAX_SNAPSHOT_LOAD_RESERVATION_BYTES + MAX_RULE_CONFIGURATION_ACCOUNTED_BYTES + MAX_RULE_ADMISSION_BYTES <= s.limit
  }

  /** A snapshot fits if all else that may go leaves it room. */
  ghost predicate SnapshotFits(s: State, bytes: nat) {
    s.Least() - s.snapshot.bytes + bytes <= s.limit
  }

  /** What may not be evicted fits, and the protected results are within their count. */
  ghost predicate ResultFits(s: State) {
    s.Least() <= s.limit && |Pinned(s.probes.entries, s.ProtectedProbes())| <= MAX_PROBE_CACHE_ENTRIES
  }

  lemma ErrorsChangeNoFloor(s: State, errors: seq<Message>)
    requires s.Valid()
    ensures WithProbeErrors(s, errors).Least() == s.Least()
  {
    WithProbeErrorsIsValid(s, errors);
    hide State.Valid, Total, Owned, Pinned;
  }

  lemma ErrorsApart(s: State, errors: seq<Message>, k: nat, bytes: nat, items: nat, failed: bool)
    requires s.Valid()
    ensures OutcomeInstalled(WithProbeErrors(s, errors), k, bytes, items, failed)
         == WithProbeErrors(OutcomeInstalled(s, k, bytes, items, failed), errors)
  {
    WithProbeErrorsIsValid(s, errors);
    OutcomeInstalledIsValid(s, k, bytes, items, failed);
    OutcomeInstalledIsValid(WithProbeErrors(s, errors), k, bytes, items, failed);
    WithProbeErrorsIsValid(OutcomeInstalled(s, k, bytes, items, failed), errors);
    hide State.Valid, Owned;
  }

  /** Diagnostics may go, so they do not decide whether a result fits. */
  lemma ErrorsTakeNoRoom(s: State, errors: seq<Message>, k: nat, bytes: nat, items: nat, failed: bool)
    requires s.Valid()
    ensures ResultFits(OutcomeInstalled(WithProbeErrors(s, errors), k, bytes, items, failed))
       <==> ResultFits(OutcomeInstalled(s, k, bytes, items, failed))
  {
    var t := OutcomeInstalled(s, k, bytes, items, failed);
    ErrorsApart(s, errors, k, bytes, items, failed);
    OutcomeInstalledIsValid(s, k, bytes, items, failed);
    ErrorsChangeNoFloor(t, errors);
    assert WithProbeErrors(t, errors).limit == t.limit
      && WithProbeErrors(t, errors).probes.entries == t.probes.entries
      && WithProbeErrors(t, errors).ProtectedProbes() == t.ProtectedProbes();
    hide WithProbeErrors, OutcomeInstalled, State.Least, State.Valid, State.ProtectedProbes;
  }

  /** Room for an admission without evicting anything. */
  predicate ProbeFits(s: State, bytes: nat) {
    bytes + MAX_RULE_CONFIGURATION_ACCOUNTED_BYTES <= s.limit && s.Capacity() + bytes <= s.limit
  }

  lemma SnapshotLeast(s: State, bytes: nat)
    requires s.Valid()
    ensures SnapshotInstalled(s, bytes).Least() == s.Least() - s.snapshot.bytes + bytes
  {
    SnapshotChanges(s, bytes);
    hide State.Valid, Total, Owned;
  }

  /** Nothing is held for, or owed by, the worker. */
  predicate WorkGone(s: State) {
    && s.rules.store == 0 && s.rules.load.None? && s.rules.catalog.None? && s.snapshot.reservation.None?
    && s.rules.pending == {} && s.rules.deferred == {} && s.rules.chunks == map[] && s.files.pins == {} && s.files.pending == {}
  }

  function CutMessage(): string {
    "rule configuration paths exceed the bounded limit"
  }

  lemma CutIsShort()
    ensures CutMessage()[..Min(|CutMessage()|, MAX_RULE_LOOKUP_BYTES)] == CutMessage()
  {
  }

  lemma ReconfiguredRules(s: State, bytes: nat)
    ensures var r := Reconfigured(s, bytes).rules;
      && r.configured && r.configuration == bytes && r.generation == s.rules.generation + 1 && NothingLoaded(r)
      && !r.ready && !r.catalogDeferred && r.errors == s.rules.errors
    ensures Reconfigured(s, bytes).limit == s.limit && Reconfigured(s, bytes).snapshot == s.snapshot
  {
  }

  lemma InstallationIsBounded(s: State, t: State, u: State, bytes: nat)
    requires t.limit == s.limit == u.limit && t.rules.configuration == bytes
    requires t.Accounted() + s.rules.configuration <= s.Accounted() + bytes
    requires u.Accounted() <= t.limit || u.Accounted() + t.rules.configuration <= t.Accounted()
    ensures Bounded(s, u)
  {
    hide State.Accounted;
  }

  /** Work sized for another limit no longer fits: as it is, or with a discovery beside it. */
  predicate MustRestart(s: State) {
    HoldsWork(s) && (s.Capacity() > s.limit || (s.rules.store > 0 && s.Capacity() + s.rules.configuration > s.limit))
  }

  lemma RetainedStore(s: State)
    requires s.Valid()
    ensures s.rules.store > Minus(DiscoveryBudget(s), s.rules.configuration) <==>
      s.rules.store > 0 && s.Capacity() + s.rules.configuration > s.limit
  {
    StoreReplacedIsValid(s, 0);
    assert s.rules.store <= s.Capacity();
    hide State.Valid, State.Capacity;
  }

  /** A new configuration is being discovered, or waits for room, or has no worker to wait for. */
  predicate UnderDiscovery(r: Rules, worker: bool) {
    || (r.catalogDeferred == worker && r.ready == !worker)
    || (worker && r.catalog.Some? && r.catalog.value.generation == r.generation && !r.ready && !r.catalogDeferred)
  }

  /** That paths were cut is the latest diagnostic, unless it was there before or no diagnostic fits. */
  predicate ReportsCut(before: seq<Message>, after: seq<Message>) {
    Mentions(before, CutMessage()) || after == [] || after[|after| - 1].text == CutMessage()
  }

  lemma CutIsReported(before: seq<Message>, after: seq<Message>)
    requires !Mentions(before, CutMessage()) ==>
      Suffix(after, LastOf(before + [Message(CutMessage(), |CutMessage()|)], MAX_DIAGNOSTICS))
    ensures ReportsCut(before, after)
  {
    hide CutMessage, Mentions, Suffix;
    var all := LastOf(before + [Message(CutMessage(), |CutMessage()|)], MAX_DIAGNOSTICS);
    if !Mentions(before, CutMessage()) && after != [] {
      SuffixLast(all, after);
    }
  }

  lemma StillReported(before: seq<Message>, after: seq<Message>, later: seq<Message>)
    requires ReportsCut(before, after) && Suffix(later, after)
    ensures ReportsCut(before, later)
  {
    hide CutMessage, Mentions, Suffix;
    if later != [] {
      SuffixLast(after, later);
    }
  }

  /** A kept configuration is being discovered, or waits for room, or has no worker to wait for. */
  predicate Discovering(r: Rules, t: Rules, worker: bool) {
    || (t.catalogDeferred == worker && t.ready == !worker)
    || (worker && t.catalog.Some? && t.catalog.value.generation == t.generation
        && t.ready == r.ready && t.catalogDeferred == r.catalogDeferred)
  }

  /** No command is refused, and the worker has its credit back. */
  predicate NothingRefused(r: Rules) {
    r.rejected == {} && !r.saturated && !r.acknowledge
  }

  lemma DiscoveringAlike(r: Rules, s: Rules, t: Rules, worker: bool)
    requires s.ready == r.ready && s.catalogDeferred == r.catalogDeferred
    ensures Discovering(s, t, worker) <==> Discovering(r, t, worker)
  {
  }

  lemma SameConfiguration(s: State, t: State)
    requires t.limit == s.limit && t.rules.configuration == s.rules.configuration
    ensures ConfigurationNeverFits(t) == ConfigurationNeverFits(s)
  {
  }

  lemma SentFits(s: State)
    requires s.Valid() && s.rules.pending == {} && s.rules.catalog.Some? && s.Capacity() == s.limit
    requires s.rules.catalog.value.bytes >= s.rules.configuration
    ensures !ConfigurationNeverFits(s)
  {
    ReplacingConfigurationIsFree(s, false, 0);
    assert s.used >= s.rules.configuration && s.rules.configuration <= MAX_RULE_CONFIGURATION_ACCOUNTED_BYTES;
    hide State.Valid;
  }

  lemma DiscoveryTakesOver(s: State)
    ensures var t := DiscoveryReserved(s);
      t == s.(used := t.used, rules := s.rules.(store := 0, catalog := t.rules.catalog))
  {
  }

  lemma DeferringIsFree(s: State, c: Command)
    ensures Deferred(s, c).Accounted() == s.Accounted()
  {
  }

  lemma CapacityCovers(s: State)
    ensures s.Accounted() <= s.Capacity()
  {
  }

  lemma LessIsBounded(s: State, t: State)
    requires t.limit == s.limit && t.Accounted() <= s.Accounted()
    ensures Bounded(s, t)
  {
  }

  lemma BoundedItself(s: State)
    ensures Bounded(s, s)
  {
  }

  lemma UnpinnedAbsent(s: State, k: nat)
    requires s.Valid() && k !in s.files.filesystem
    ensures s.files.pins - {k} == s.files.pins
  {
  }

  /** The least recently used entry of all kinds that is not protected. */
  method OldestEntry(s: State) returns (v: Option<Victim>)
    ensures v.None? <==> s.AllProtected()
    ensures v.Some? ==> Evictable(s, v.value) && NoneOlder(s, EntryOf(s, v.value).lastUsed)
  {
    var directory := Oldest(s.files.directories, {});
    var filesystem := Oldest(s.files.filesystem, s.files.pins);
    var rule := Oldest(s.rules.entries, s.rules.pending);
    var probe := Oldest(s.probes.entries, s.ProtectedProbes());
    var probeClock, filesystemClock := ClockOf(s.probes.entries, probe), ClockOf(s.files.filesystem, filesystem);
    var ruleClock, directoryClock := ClockOf(s.rules.entries, rule), ClockOf(s.files.directories, directory);
    var minimum := Earliest(Earliest(directoryClock, filesystemClock), Earliest(ruleClock, probeClock));
    if minimum.None? {
      v := None;
    } else if probeClock == minimum {
      v := Some(ProbeVictim(probe.value));
    } else if filesystemClock == minimum {
      v := Some(FilesystemVictim(filesystem.value));
    } else if ruleClock == minimum {
      v := Some(RuleVictim(rule.value));
    } else {
      v := Some(DirectoryVictim(directory.value));
    }
  }

  method ExcessEvicted(files: Files, rules: Rules, probes: Probes)
    returns (d: map<nat, Entry>, f: map<nat, Entry>, r: map<Command, Entry>, p: map<nat, Entry>, freed: nat)
    ensures OldestEvicted(files.directories, d, {})
    ensures OldestEvicted(files.filesystem, f, files.pins)
    ensures OldestEvicted(rules.entries, r, rules.pending)
    ensures OldestEvicted(probes.entries, p, probes.pins + probes.recent)
    ensures freed + Total(d) + Total(f) + Total(r) + Total(p) ==
      Total(files.directories) + Total(files.filesystem) + Total(rules.entries) + Total(probes.entries)
    ensures |d| <= MAX_DIRECTORY_CACHE_ENTRIES
    ensures |f| <= MAX_FILESYSTEM_CACHE_ENTRIES || f.Keys <= files.pins
    ensures |r| <= MAX_RULE_CACHE_ENTRIES || r.Keys <= rules.pending
    ensures |p| <= MAX_PROBE_CACHE_ENTRIES || p.Keys <= probes.pins + probes.recent
    ensures |files.directories| <= MAX_DIRECTORY_CACHE_ENTRIES ==> d == files.directories
    ensures |files.filesystem| <= MAX_FILESYSTEM_CACHE_ENTRIES ==> f == files.filesystem
    ensures |rules.entries| <= MAX_RULE_CACHE_ENTRIES ==> r == rules.entries
    ensures |probes.entries| <= MAX_PROBE_CACHE_ENTRIES ==> p == probes.entries
    ensures |r| >= Min(|rules.entries|, MAX_RULE_CACHE_ENTRIES)
  {
    hide OldestEvicted, Total;
    var n1, n2, n3, n4;
    d, n1 := EvictExcess(files.directories, {}, MAX_DIRECTORY_CACHE_ENTRIES);
    f, n2 := EvictExcess(files.filesystem, files.pins, MAX_FILESYSTEM_CACHE_ENTRIES);
    r, n3 := EvictExcess(rules.entries, rules.pending, MAX_RULE_CACHE_ENTRIES);
    p, n4 := EvictExcess(probes.entries, probes.pins + probes.recent, MAX_PROBE_CACHE_ENTRIES);
    freed := n1 + n2 + n3 + n4;
  }

  // ---------------------------------------------------------------------
  // Events
  // ---------------------------------------------------------------------

  datatype Event =
    | ScanReply(key: nat, bytes: nat, items: nat)
    | UsedDirectory(key: nat)
    | RefreshedDirectory(stale: seq<nat>)
    | AskedFilesystem(key: nat, expired: bool, accepted: bool)
    | FilesystemReply(key: nat, generation: nat, bytes: nat, items: nat)
    | CancelledReplays
    | FinishedReplay
    | LoadedSnapshots(accepted: bool)
    | RetriedSnapshot(accepted: bool)
    | SnapshotReply(generation: nat, bytes: nat)
    | ReservedReplay(bytes: nat)
    | Configured(paths: seq<nat>, keys: seq<nat>, first: bool, accepted: bool, second: bool)
    | CatalogReply(generation: nat, bytes: nat)
    | AskedRules(command: Command, accepted: bool, restarted: bool, retry: bool, load: bool)
    | RetriedRules(accepted: bool, restarted: bool, load: bool)
    | RulesAnswer(reply: RulesReply, spare: nat, combined: nat)
    | Acknowledged
    | LostWorker
    | AskedProbe(key: nat, bytes: nat, error: Message, expired: bool, started: bool, accepted: bool)
    | CancelledProbes
    | ProbeReply(key: nat, generation: nat, bytes: nat, items: nat, failure: Option<Message>, refusal: Message)
    | CancelReply(generation: nat)
    | ReplacedProbeWorker(finished: bool, restarted: bool)
    | LostProbeWorker
    | FinishedCleanup(bytes: nat)
    | Stopped(finished: bool)
    | ChangedLimit(limit: nat, first: bool, second: bool, accepted: bool, third: bool)

  predicate OfFiles(e: Event) {
    || e.ScanReply? || e.UsedDirectory? || e.RefreshedDirectory? || e.AskedFilesystem? || e.FilesystemReply?
    || e.CancelledReplays? || e.FinishedReplay? || e.LoadedSnapshots? || e.RetriedSnapshot? || e.SnapshotReply?
    || e.ReservedReplay?
  }

  predicate OfRules(e: Event) {
    || e.Configured? || e.CatalogReply? || e.AskedRules? || e.RetriedRules? || e.RulesAnswer? || e.Acknowledged? || e.LostWorker?
  }

  predicate OfProbes(e: Event) {
    || e.AskedProbe? || e.CancelledProbes? || e.ProbeReply? || e.CancelReply? || e.ReplacedProbeWorker?
    || e.LostProbeWorker? || e.FinishedCleanup? || e.Stopped?
  }

  /**
   What the workers may do: a current store fits the reservation it was discovered under, as `RuleProtocol` and
   `RuleDiscovery` show, only cancellations that have happened are acknowledged, as `ProbeProtocol` shows, and
   cleanup gives back no more than was detached.
   */
  predicate Possible(s: State, e: Event) {
    match e
    case CatalogReply(g, bytes) =>
      g == s.rules.generation ==>
        s.rules.catalog.Some? && s.rules.catalog.value.generation == g && bytes <= s.rules.catalog.value.bytes
    case CancelReply(g) => g <= s.probes.generation
    case FinishedCleanup(bytes) => bytes <= s.detached
    case ReplacedProbeWorker(_, _) => s.probes.cancelPending.Some?
    case _ => true
  }

  /** All steps keep the limit but a new limit, and a larger answer for a pinned key that no eviction can offset. */
  ghost predicate KeepsLimit(s: State, e: Event) {
    match e
    case FilesystemReply(k, g, bytes, _) =>
      g == s.files.generation && k in s.files.pins && k in s.files.filesystem ==>
        s.Floor() - s.files.filesystem[k].bytes + bytes <= s.limit
    case ChangedLimit(limit, _, _, _, _) => limit == s.limit
    case _ => true
  }

  // ---------------------------------------------------------------------
  // The cache
  // ---------------------------------------------------------------------

  class CompletionCache {
    var limit: nat
    var used: nat
    var clock: nat
    var replay: nat
    var detached: nat
    var worker: bool
    var probeWorker: bool
    var files: Files
    var snapshot: Snapshot
    var rules: Rules
    var probes: Probes

    function Value(): State
      reads this
    {
      State(limit, used, clock, replay, detached, worker, probeWorker, files, snapshot, rules, probes)
    }

    /** `started` says whether the cache worker could be started. */
    constructor (limit: nat, started: bool)
      ensures Value() == Initial(limit, started) && Value().Valid() && Value().Accounted() == 0
    {
      this.limit := limit;
      used, clock, replay, detached := 0, 0, 0, 0;
      worker, probeWorker := started, false;
      files := Initial(limit, started).files;
      snapshot := Initial(limit, started).snapshot;
      rules := Initial(limit, started).rules;
      probes := Initial(limit, started).probes;
      new;
      InitialIsValid(limit, started);
    }

    /** Brings each kind of entry within its count limit. */
    method EvictExcessEntries()
      requires Value().Valid()
      modifies this`used, this`files, this`rules, this`probes
      ensures Value().Valid()
      ensures EntriesEvicted(old(Value()), Value()) && CountsKept(Value())
      ensures old(Value()).WithinCounts() ==> Value() == old(Value())
      ensures |rules.entries| >= Min(|old(rules.entries)|, MAX_RULE_CACHE_ENTRIES)
    {
      ghost var s := Value();
      var d, f, r, p, freed := ExcessEvicted(files, rules, probes);
      hide OldestEvicted, Total, Sum;
      WithEntriesIsValid(s, d, f, r, p, freed);
      used := used - freed;
      files := files.(directories := d, filesystem := f);
      rules := rules.(entries := r);
      probes := probes.(entries := p);
    }

    /** Evicts the least recently used entries until the rest fits. */
    method EvictLeastRecentlyUsed() returns (ghost time: nat, ghost last: Option<Victim>)
      requires Value().Valid()
      modifies this`used, this`files, this`rules, this`probes
      ensures EvictedSoFar(old(Value()), Value(), time, last)
      ensures Value().Capacity() <= limit || Value().AllProtected()
    {
      ghost var s := Value();
      InitiallyEvicted(s);
      hide EvictedSoFar, NoneOlder, Evictable, EntryOf, Remove;
      time, last := 0, None;
      while Value().Capacity() > limit && Value().EntryCount() > 0
        invariant limit == s.limit && EvictedSoFar(s, Value(), time, last)
        decreases Value().EntryCount()
      {
        ghost var t := Value();
        var victim := OldestEntry(Value());
        if victim.None? {
          break;
        }
        EvictsNext(s, t, time, last, victim.value);
        time, last := EntryOf(t, victim.value).lastUsed, victim;
        RemoveEntry(victim.value);
      }
    }

    /** Drops the earliest diagnostics while the rest does not fit. */
    method DropDiagnostics()
      requires Value().Valid()
      modifies this`used, this`rules, this`probes
      ensures Value().Valid() && DiagnosticsDropped(old(Value()), Value())
      ensures Value().Capacity() <= limit || (rules.errors == [] && probes.errors == [])
      ensures old(Value()).Capacity() <= limit ==> Value() == old(Value())
    {
      ghost var s := Value();
      assert DiagnosticsDropped(s, s);
      hide DiagnosticsDropped, Owned, Total, Sum, DropFirst;
      while Value().Capacity() > limit && (rules.errors != [] || probes.errors != [])
        invariant Value().Valid() && limit == s.limit && DiagnosticsDropped(s, Value())
        invariant s.Capacity() <= limit ==> Value() == s
        decreases |rules.errors| + |probes.errors|
      {
        DropFirstIsDropped(s, Value());
        DropFirstIsValid(Value());
        DropFirstDiagnostic();
      }
    }

    method DropFirstDiagnostic()
      requires Value().Valid() && (rules.errors != [] || probes.errors != [])
      modifies this`used, this`rules, this`probes
      ensures Value() == DropFirst(old(Value()))
    {
      ghost var s := Value();
      DropFirstIsValid(s);
      assert s.rules.errors != [] ==> DropFirst(s) == s.(used := DropFirst(s).used, rules := s.rules.(errors := s.rules.errors[1..]));
      assert s.rules.errors == [] ==> DropFirst(s) == s.(used := DropFirst(s).used, probes := s.probes.(errors := s.probes.errors[1..]));
      hide Owned, DropFirst, State.Valid;
      var previous := Owned(rules.errors) + Owned(probes.errors);
      if rules.errors != [] {
        rules := rules.(errors := rules.errors[1..]);
      } else {
        probes := probes.(errors := probes.errors[1..]);
      }
      var current := Owned(rules.errors) + Owned(probes.errors);
      used := used - previous + current;
    }

    /** Brings the cache within its limits as far as its protected entries and reservations allow. */
    method EvictToLimit()
      requires Value().Valid()
      modifies this`used, this`files, this`rules, this`probes
      ensures Value().Valid() && Evicted(old(Value()), Value()) && EvictionLeaves(old(Value()), Value())
      ensures old(Value()).WithinCounts() && old(Value()).Capacity() <= limit ==> Value() == old(Value())
      ensures old(Value()).Floor() <= Value().Accounted() <= old(Value()).Accounted()
      ensures Value().Accounted() <= limit || Value().Accounted() == old(Value()).Floor()
      ensures old(Value()).Capacity() <= limit ==> |rules.entries| >= Min(|old(rules.entries)|, MAX_RULE_CACHE_ENTRIES)
      ensures Value().Capacity() <= limit <==> old(Value()).Least() <= limit
    {
      ghost var s := Value();
      hide State.Least;
      hide OldestEvicted, EvictedSoFar, EvictedInOrder, Total, Sum, Owned, DiagnosticsDropped, EntriesEvicted, CountsKept,
        State.Valid, State.Capacity, State.Floor, State.Accounted, State.AllProtected, Evicted, EvictionLeaves;
      EvictExcessEntries();
      ghost var u := Value();
      EvictingExcess(s, u);
      ghost var time, last := EvictLeastRecentlyUsed();
      ghost var v := Value();
      EvictedPhases(s, u, v, time, last);
      EvictedNothing(u, v, time, last);
      DropDiagnostics();
      EvictionIsComplete(s, v, Value());
      EvictionAccounts(s, Value());
      EvictionMakesRoom(s, Value());
      EvictionIsLocal(s, Value());
      EvictionIsIdle(s, Value());
    }

    method RemoveEntry(v: Victim)
      requires Evictable(Value(), v) && EntryOf(Value(), v).bytes <= used
      modifies this`used, this`files, this`rules, this`probes
      ensures Value() == Remove(old(Value()), v)
    {
      used := used - EntryOf(Value(), v).bytes;
      match v {
        case DirectoryVictim(k) => files := files.(directories := files.directories - {k});
        case FilesystemVictim(k) => files := files.(filesystem := files.filesystem - {k}, pins := files.pins - {k});
        case RuleVictim(c) => rules := rules.(entries := rules.entries - {c});
        case ProbeVictim(k) =>
          probes := probes.(entries := probes.entries - {k}, pins := probes.pins - {k}, recent := probes.recent - {k});
      }
    }

    // -------------------------------------------------------------------
    // Directory scans and resolved filesystem requests
    // -------------------------------------------------------------------

    /** A scan reply that passed the token and generation checks. */
    method ReceiveScan(k: nat, bytes: nat, items: nat) returns (installed: bool)
      requires Value().Valid()
      modifies this
      ensures Value().Valid() && Bounded(old(Value()), Value())
      ensures Evicted(DirectoryInstalled(old(Value()), k, bytes, items), Value())
      ensures FitsAsItIs(DirectoryInstalled(old(Value()), k, bytes, items)) ==>
        Value() == DirectoryInstalled(old(Value()), k, bytes, items)
      ensures installed <==> k in files.directories
      ensures clock == old(clock) + 1 && (installed ==> files.directories[k] == Entry(bytes, clock, items))
    {
      hide Evicted, Total, Sum, Owned, State.Valid, State.Floor;
      DirectoryInstalledIsValid(Value(), k, bytes, items);
      clock := clock + 1;
      if k in files.directories {
        used := used - files.directories[k].bytes;
      }
      files := files.(directories := files.directories[k := Entry(bytes, clock, items)]);
      used := used + bytes;
      ghost var t := Value();
      EvictToLimit();
      EvictionChangesNoFile(t, Value());
      installed := k in files.directories;
    }

    method UseDirectory(k: nat) returns (present: bool)
      requires Value().Valid()
      modifies this`clock, this`files
      ensures Value().Valid() && Value().Accounted() == old(Value()).Accounted()
      ensures present <==> k in old(files.directories)
      ensures Value() == if present
        then old(Value()).(clock := clock, files := old(files).(directories := Touched(old(files.directories), k, clock)))
        else old(Value())
      ensures present ==> clock == old(clock) + 1 && files.directories[k].lastUsed == clock
    {
      hide Sum, Owned;
      present := k in files.directories;
      if present {
        DirectoryUsedIsValid(Value(), k);
        clock := clock + 1;
        files := files.(directories := Touched(files.directories, k, clock));
      }
    }

    /** A refreshed directory drops its prefix scans. */
    method DropDirectories(stale: seq<nat>)
      requires Value().Valid()
      modifies this`used, this`files
      ensures Value().Valid() && Value().Accounted() <= old(Value()).Accounted()
      ensures Value() == old(Value()).(used := used, files := old(files).(directories := files.directories))
      ensures forall k :: k in files.directories <==> k in old(files.directories) && k !in stale
      ensures forall k :: k in files.directories ==> files.directories[k] == old(files.directories)[k]
    {
      hide Total, Sum, Owned;
      ghost var s := Value();
      var i := 0;
      while i < |stale|
        invariant 0 <= i <= |stale|
        invariant Value().Valid() && used <= s.used
        invariant Value() == s.(used := used, files := s.files.(directories := files.directories))
        invariant forall k :: k in files.directories <==> k in s.files.directories && k !in stale[..i]
        invariant forall k :: k in files.directories ==> files.directories[k] == s.files.directories[k]
      {
        var k := stale[i];
        assert stale[..i + 1] == stale[..i] + [k];
        if k in files.directories {
          TotalWithout(files.directories, k);
          used := used - files.directories[k].bytes;
          files := files.(directories := files.directories - {k});
        }
        i := i + 1;
      }
      assert stale[..i] == stale;
    }

    /** A full map gives up its oldest unpinned entry. */
    method MakeFilesystemRoom()
      requires Value().Valid()
      modifies this
      ensures Value().Valid() && Value().Accounted() <= old(Value()).Accounted()
      ensures Value() == old(Value()).(used := used, files := old(files).(filesystem := files.filesystem))
      ensures OldestEvicted(old(files.filesystem), files.filesystem, files.pins)
      ensures |old(files.filesystem)| < MAX_FILESYSTEM_CACHE_ENTRIES ==> files.filesystem == old(files.filesystem)
      ensures |old(files.filesystem)| >= MAX_FILESYSTEM_CACHE_ENTRIES && !(old(files.filesystem).Keys <= files.pins)
        ==> |files.filesystem| == |old(files.filesystem)| - 1
    {
      hide Total, Sum, Owned, State.Valid;
      if |files.filesystem| >= MAX_FILESYSTEM_CACHE_ENTRIES {
        var oldest := Oldest(files.filesystem, files.pins);
        if oldest.Some? {
          RemoveIsValid(Value(), FilesystemVictim(oldest.value));
          MapShrinks(files.filesystem, oldest.value);
          RemoveEntry(FilesystemVictim(oldest.value));
        }
      }
    }

    /** Makes room and asks the worker. */
    method AdmitFilesystem(k: nat, accepted: bool) returns (deferred: bool)
      requires Value().Valid() && k !in files.pending
      modifies this
      ensures Value().Valid() && Value().Accounted() <= old(Value()).Accounted()
      ensures Value() == old(Value()).(used := used,
        files := old(files).(filesystem := files.filesystem, pending := files.pending))
      ensures files.pending == if worker && accepted then old(files.pending) + {k} else old(files.pending)
      ensures deferred <==> worker && !accepted
      ensures OldestEvicted(old(files.filesystem), files.filesystem, files.pins)
      ensures |old(files.filesystem)| < MAX_FILESYSTEM_CACHE_ENTRIES ==> files.filesystem == old(files.filesystem)
      ensures |old(files.filesystem)| >= MAX_FILESYSTEM_CACHE_ENTRIES && !(old(files.filesystem).Keys <= files.pins)
        ==> |files.filesystem| == |old(files.filesystem)| - 1
    {
      hide Total, Sum, Owned, State.Valid, OldestEvicted;
      MakeFilesystemRoom();
      FilesystemMarksAreFree(Value(), files.pending + {k});
      assert files.pending + {k} - {k} == files.pending;
      files := files.(pending := files.pending + {k});
      deferred := false;
      if !(worker && accepted) {
        files := files.(pending := files.pending - {k});
        deferred := worker;
      }
    }

    method UseFilesystem(k: nat)
      requires Value().Valid() && k in files.filesystem
      modifies this`clock, this`files
      ensures Value().Valid()
      ensures Value() == FilesystemUsed(old(Value()), k)
      ensures clock == old(clock) + 1 && files.filesystem[k].lastUsed == clock
      ensures k in files.pins <==> k in old(files.pins) || |old(files.pins)| < MAX_FILESYSTEM_CACHE_ENTRIES
    {
      hide Total, Sum, Owned, State.Valid;
      FilesystemUsedIsValid(Value(), k);
      clock := clock + 1;
      files := files.(filesystem := Touched(files.filesystem, k, clock));
      if |files.pins| < MAX_FILESYSTEM_CACHE_ENTRIES || k in files.pins {
        files := files.(pins := files.pins + {k});
      }
    }

    method AnswerFilesystem(k: nat, pending: bool) returns (values: Option<bool>)
      requires Value().Valid()
      modifies this`clock, this`files
      ensures Value().Valid() && Value().Accounted() == old(Value()).Accounted()
      ensures values == if k in files.filesystem then Some(true) else if pending then None else Some(false)
      ensures files == old(files).(filesystem := files.filesystem, pins := files.pins)
      ensures files.filesystem.Keys == old(files.filesystem).Keys
      ensures old(files.pins) <= files.pins <= old(files.pins) + {k}
      ensures values == Some(true) && |old(files.pins)| < MAX_FILESYSTEM_CACHE_ENTRIES ==> k in files.pins
      ensures values == Some(true) ==> clock == old(clock) + 1 && files.filesystem[k].lastUsed == clock
    {
      hide Total, Sum, Owned, State.Valid;
      if k in files.filesystem {
        UseFilesystem(k);
        return Some(true);
      }
      values := if pending then None else Some(false);
    }

    /** `Some(true)` is a value, `Some(false)` the empty answer, `None` no answer yet. */
    method FilesystemValues(k: nat, expired: bool, accepted: bool)
      returns (values: Option<bool>, pending: bool, exceeded: bool)
      requires Value().Valid()
      modifies this
      ensures Value().Valid() && Value().Accounted() <= old(Value()).Accounted()
      ensures exceeded <==> old(files.exceeded)
      ensures exceeded ==> Value() == old(Value()) && values == None && !pending
      ensures values == Some(true) <==> !exceeded && k in files.filesystem
      ensures values == Some(false) <==> !exceeded && k !in files.filesystem && !pending
      ensures old(files.pins) <= files.pins <= old(files.pins) + {k}
      ensures values == Some(true) && |old(files.pins)| < MAX_FILESYSTEM_CACHE_ENTRIES ==> k in files.pins
      ensures values == Some(true) ==> clock == old(clock) + 1 && files.filesystem[k].lastUsed == clock
      ensures |old(files.filesystem)| < MAX_FILESYSTEM_CACHE_ENTRIES ==> files.filesystem.Keys == old(files.filesystem).Keys
      ensures Value() == old(Value()).(used := used, clock := clock,
        files := old(files).(filesystem := files.filesystem, pending := files.pending, pins := files.pins))
      ensures old(files.pending) <= files.pending <= old(files.pending) + {k}
      ensures var stale := old(k !in files.filesystem || (k !in files.pins && expired));
        && (k in files.pending <==>
              old(k in files.pending) ||
              (!exceeded && stale && worker && accepted && |old(files.pending)| < MAX_FILESYSTEM_CACHE_ENTRIES))
        && (pending <==>
              !exceeded && (k in files.pending || (stale && (worker || |old(files.pending)| >= MAX_FILESYSTEM_CACHE_ENTRIES))))
    {
      hide Total, Sum, Owned, OldestEvicted, State.Valid;
      exceeded := files.exceeded;
      if exceeded {
        return None, false, true;
      }
      var stale := k !in files.filesystem || (k !in files.pins && expired);
      var deferred := stale && k !in files.pending && |files.pending| >= MAX_FILESYSTEM_CACHE_ENTRIES;
      if stale && k !in files.pending && !deferred {
        deferred := AdmitFilesystem(k, accepted);
      }
      pending := deferred || k in files.pending;
      values := AnswerFilesystem(k, pending);
    }

    /**
     A resolved request arrives. Refreshing a pinned key is the one step that can
     pass the limit, and it does so exactly when what is pinned, pending or
     reserved no longer fits with the new size.
     */
    method ReceiveFilesystem(k: nat, generation: nat, bytes: nat, items: nat) returns (stored: bool)
      requires Value().Valid()
      modifies this
      ensures Value().Valid() && limit == old(limit)
      ensures generation != old(files.generation) ==> Value() == old(Value()) && !stored
      ensures generation == old(files.generation) ==>
        && Evicted(FilesystemInstalled(old(Value()), k, bytes, items), Value().(files := files.(exceeded := old(files.exceeded))))
        && (FitsAsItIs(FilesystemInstalled(old(Value()), k, bytes, items)) ==>
              stored && Value() == FilesystemInstalled(old(Value()), k, bytes, items))
        && (stored <==> k in files.filesystem)
        && clock == old(clock) + 1 && (stored ==> files.filesystem[k] == Entry(bytes, clock, items))
        && files.exceeded == (old(files.exceeded) || !stored)
        && (k !in old(files.pins) ==> Bounded(old(Value()), Value()))
        && (k in old(files.pins) ==>
              k in old(files.filesystem) &&
              (Value().Accounted() <= limit <==>
               old(Value()).Floor() - old(files.filesystem)[k].bytes + bytes <= limit))
    {
      hide Evicted, Total, Sum, Owned, Pinned;
      if generation != files.generation {
        return false;
      }
      InstallFilesystem(k, bytes, items);
      FilesystemMarksAreFree(Value(), {});
      stored := k in files.filesystem;
      if !stored {
        UnpinnedAbsent(Value(), k);
        files := files.(pins := files.pins - {k}, exceeded := true);
      }
    }

    method InstallFilesystem(k: nat, bytes: nat, items: nat)
      requires Value().Valid()
      modifies this
      ensures Value().Valid() && Evicted(FilesystemInstalled(old(Value()), k, bytes, items), Value())
      ensures EvictionLeaves(FilesystemInstalled(old(Value()), k, bytes, items), Value())
      ensures FitsAsItIs(FilesystemInstalled(old(Value()), k, bytes, items)) ==>
        Value() == FilesystemInstalled(old(Value()), k, bytes, items)
      ensures k !in old(files.pins) ==> Bounded(old(Value()), Value())
      ensures k in old(files.pins) ==>
        k in old(files.filesystem) &&
        (Value().Accounted() <= limit <==> old(Value()).Floor() - old(files.filesystem)[k].bytes + bytes <= limit)
      ensures clock == old(clock) + 1 && (k in files.filesystem ==> files.filesystem[k] == Entry(bytes, clock, items))
    {
      hide Evicted, Total, Sum, Owned, State.Valid, State.Floor, Bounded;
      ghost var s := Value();
      FilesystemInstalledIsValid(s, k, bytes, items);
      FilesystemInstalledFloor(s, k, bytes, items);
      files := files.(pending := files.pending - {k});
      clock := clock + 1;
      if k in files.filesystem {
        used := used - files.filesystem[k].bytes;
      }
      files := files.(filesystem := files.filesystem[k := Entry(bytes, clock, items)]);
      used := used + bytes;
      ghost var t := Value();
      assert t == FilesystemInstalled(s, k, bytes, items);
      hide FilesystemInstalled;
      EvictToLimit();
      EvictionChangesNoFile(t, Value());
      FilesystemArrived(s, t, Value(), k, bytes);
    }

    method CancelFilesystemReplays()
      requires Value().Valid()
      modifies this
      ensures Value().Valid() && Bounded(old(Value()), Value())
      ensures Evicted(ReplaysCancelled(old(Value())), Value())
      ensures files == old(files).(filesystem := files.filesystem, directories := files.directories,
        generation := old(files.generation) + 1, pending := {}, pins := {}, exceeded := false)
    {
      hide Evicted, Total, Sum, Owned, State.Valid, State.Floor;
      FilesystemMarksAreFree(Value(), {});
      files := files.(generation := files.generation + 1, pending := {}, pins := {}, exceeded := false);
      EvictToLimit();
    }

    method FinishDynamicReplay()
      requires Value().Valid()
      modifies this
      ensures Value().Valid() && Bounded(old(Value()), Value())
      ensures Evicted(ReplayFinished(old(Value())), Value())
      ensures files == old(files).(filesystem := files.filesystem, directories := files.directories, pins := {})
      ensures probes == old(probes).(entries := probes.entries, errors := probes.errors, pins := {})
    {
      hide Evicted, Total, Sum, Owned, State.Valid, State.Floor;
      FilesystemMarksAreFree(Value(), {});
      files := files.(pins := {});
      probes := probes.(pins := {});
      EvictToLimit();
    }

    // -------------------------------------------------------------------
    // Snapshot
    // -------------------------------------------------------------------

    method ClearSnapshotValues()
      requires Value().Valid()
      modifies this`used, this`snapshot
      ensures Value().Valid() && Value() == SnapshotCleared(old(Value()))
      ensures Value().Accounted() <= old(Value()).Accounted()
    {
      hide Total, Sum, Owned, State.Valid;
      SnapshotChanges(Value(), 0);
      if snapshot.bytes == 0 {
        return;
      }
      used := used - snapshot.bytes;
      snapshot := snapshot.(bytes := 0);
    }

    /** Reserves the whole load before asking for it; a request that is refused leaves no reservation. */
    method RetrySnapshot(accepted: bool) returns (sent: bool)
      requires Value().Valid()
      modifies this
      ensures Value().Valid() && Bounded(old(Value()), Value())
      ensures old(snapshot.pending) || old(snapshot.reservation).Some? ==> Value() == old(Value()) && !sent
      ensures accepted && old(SnapshotLoads(Value())) ==> sent && Value() == old(Value()).(snapshot := snapshot)
      ensures !(old(snapshot.pending) || old(snapshot.reservation).Some?) ==>
        if SnapshotNeverFits(limit) then
          !sent && Value() == SnapshotCleared(old(Value())).(snapshot := old(snapshot).(
            bytes := 0, deferred := false, inFlight := None, unavailable := true))
        else
          && Evicted(old(Value()), Value().(snapshot := old(snapshot)))
          && EvictionLeaves(old(Value()), Value().(snapshot := old(snapshot)))
          && snapshot.generation == old(snapshot.generation) && snapshot.bytes == old(snapshot.bytes)
          && (sent ==>
                && snapshot.reservation == Some(Reservation(snapshot.generation, MAX_SNAPSHOT_LOAD_RESERVATION_BYTES))
                && snapshot.pending && snapshot.inFlight == Some(snapshot.generation)
                && !snapshot.deferred && !snapshot.unavailable
                && worker && Value().Capacity() <= limit)
          && (!sent ==>
                && snapshot.reservation.None? && !snapshot.pending && snapshot.deferred == worker
                && (!worker || !accepted || Value().Capacity() + MAX_SNAPSHOT_LOAD_RESERVATION_BYTES > limit))
    {
      hide Evicted, Total, Sum, Owned, State.Valid, State.Floor, State.Least, EvictionLeaves, Bounded;
      sent := false;
      ghost var s := Value();
      BoundedItself(s);
      if snapshot.pending || snapshot.reservation.Some? {
        return;
      }
      if SnapshotNeverFits(limit) {
        SnapshotMarksAreFree(Value(), snapshot.(deferred := false, inFlight := None, unavailable := true));
        snapshot := snapshot.(deferred := false, inFlight := None, unavailable := true);
        ClearSnapshotValues();
        LessIsBounded(s, Value());
        return;
      }
      EvictToLimit();
      ghost var t := Value();
      LessIsBounded(s, t);
      sent := AskForSnapshot(accepted);
      BoundedTwice(s, t, Value());
    }

    /** Sends the request if there is room for the load. */
    method AskForSnapshot(accepted: bool) returns (sent: bool)
      requires Value().Valid() && snapshot.reservation.None? && !snapshot.pending
      modifies this`snapshot
      ensures Value().Valid() && Bounded(old(Value()), Value())
      ensures sent <==> worker && accepted && old(Value()).Capacity() + MAX_SNAPSHOT_LOAD_RESERVATION_BYTES <= limit
      ensures sent ==>
        && snapshot == old(snapshot).(pending := true, deferred := false, unavailable := false,
             inFlight := Some(old(snapshot.generation)),
             reservation := Some(Reservation(old(snapshot.generation), MAX_SNAPSHOT_LOAD_RESERVATION_BYTES)))
        && Value().Capacity() <= limit
      ensures !sent ==>
        && snapshot == old(snapshot).(deferred := worker, inFlight := None, unavailable := snapshot.unavailable)
        && Value().Capacity() == old(Value()).Capacity()
    {
      hide Total, Sum, Owned, State.Valid;
      if Value().Capacity() + MAX_SNAPSHOT_LOAD_RESERVATION_BYTES > limit {
        SnapshotMarksAreFree(Value(), snapshot.(deferred := worker, inFlight := None));
        snapshot := snapshot.(deferred := worker, inFlight := None);
        return false;
      }
      var generation := snapshot.generation;
      sent := ReserveSnapshot(generation, accepted);
    }

    method ReserveSnapshot(generation: nat, accepted: bool) returns (sent: bool)
      requires Value().Valid() && snapshot.reservation.None?
      modifies this`snapshot
      ensures Value().Valid() && sent == (worker && accepted)
      ensures snapshot == if sent
        then old(snapshot).(pending := true, deferred := false, unavailable := false, inFlight := Some(generation),
          reservation := Some(Reservation(generation, MAX_SNAPSHOT_LOAD_RESERVATION_BYTES)))
        else old(snapshot).(reservation := None, deferred := worker, unavailable := !worker, inFlight := None)
    {
      hide Total, Sum, Owned, State.Valid;
      ghost var s := Value();
      snapshot := snapshot.(reservation := Some(Reservation(generation, MAX_SNAPSHOT_LOAD_RESERVATION_BYTES)));
      sent := worker && accepted;
      if sent {
        snapshot := snapshot.(pending := true, deferred := false, unavailable := false, inFlight := Some(generation));
      } else {
        snapshot := snapshot.(reservation := None, deferred := worker, unavailable := !worker, inFlight := None);
      }
      SnapshotMarksAreFree(s, snapshot);
    }

    method LoadSnapshots(accepted: bool)
      requires Value().Valid()
      modifies this
      ensures Value().Valid() && Bounded(old(Value()), Value())
      ensures snapshot.generation == old(snapshot.generation) + 1
      ensures old(snapshot.pending) ==> snapshot.deferred && Value() == old(Value()).(snapshot := snapshot)
      ensures accepted && old(SnapshotLoads(Value())) ==>
        && snapshot.pending && snapshot.inFlight == Some(snapshot.generation)
        && snapshot.reservation == Some(Reservation(snapshot.generation, MAX_SNAPSHOT_LOAD_RESERVATION_BYTES))
        && Value() == old(Value()).(snapshot := snapshot) && snapshot.bytes == old(snapshot.bytes)
    {
      hide Evicted, Total, Sum, Owned, State.Valid, State.Floor;
      var next := snapshot.(generation := snapshot.generation + 1, unavailable := false,
        deferred := snapshot.pending || snapshot.deferred);
      SnapshotMarksAreFree(Value(), next);
      ghost var s := Value();
      snapshot := snapshot.(generation := snapshot.generation + 1, unavailable := false);
      if snapshot.pending {
        snapshot := snapshot.(deferred := true);
        return;
      }
      ghost var t := Value();
      assert t == s.(snapshot := next);
      var sent := RetrySnapshot(accepted);
    }

    /** A snapshot that does not fit even after evicting everything else is dropped again. */
    method ReceiveSnapshots(generation: nat, bytes: nat) returns (installed: bool)
      requires Value().Valid()
      modifies this
      ensures Value().Valid() && Bounded(old(Value()), Value())
      ensures snapshot.reservation == SnapshotAnswered(old(snapshot), generation).reservation
      ensures old(snapshot.reservation).Some? ==>
        snapshot.reservation == if old(snapshot.reservation).value.generation == generation then None else old(snapshot.reservation)
      ensures snapshot.reservation.Some? ==> snapshot.reservation == old(snapshot.reservation)
      ensures old(snapshot.inFlight) == Some(generation) ==> !snapshot.pending && snapshot.inFlight.None?
      ensures old(snapshot.inFlight) != Some(generation) ==>
        snapshot.pending == old(snapshot.pending) && snapshot.inFlight == old(snapshot.inFlight)
      ensures generation != old(snapshot.generation) ==>
        !installed && Value() == old(Value()).(snapshot := SnapshotAnswered(old(snapshot), generation).(deferred := true))
      ensures generation == old(snapshot.generation) ==>
        && (installed <==> SnapshotFits(old(Value()).(snapshot := SnapshotAnswered(old(snapshot), generation)), bytes))
        && if installed then snapshot.bytes == bytes && Value().Capacity() <= limit else snapshot.bytes == 0
    {
      hide Evicted, Total, Sum, Owned, State.Valid, State.Floor, SnapshotFits;
      ghost var s := Value();
      snapshot := SnapshotAnswered(snapshot, generation);
      SnapshotMarksAreFree(s, snapshot);
      if generation != snapshot.generation {
        SnapshotMarksAreFree(s, snapshot.(deferred := true));
        snapshot := snapshot.(deferred := true);
        return false;
      }
      installed := InstallSnapshot(bytes);
    }

    method InstallSnapshot(bytes: nat) returns (installed: bool)
      requires Value().Valid()
      modifies this
      ensures Value().Valid() && Bounded(old(Value()), Value())
      ensures snapshot == old(snapshot).(unavailable := false, bytes := if installed then bytes else 0)
      ensures installed ==> Value().Capacity() <= limit && Evicted(SnapshotInstalled(old(Value()), bytes), Value())
      ensures installed <==> SnapshotFits(old(Value()), bytes)
    {
      hide Evicted, Total, Sum, Owned, State.Valid, State.Floor;
      SnapshotLeast(Value(), bytes);
      ghost var s := Value();
      SnapshotChanges(Value(), bytes);
      ghost var before := Value().Accounted();
      snapshot := snapshot.(unavailable := false);
      used := used - snapshot.bytes;
      snapshot := snapshot.(bytes := bytes);
      used := used + snapshot.bytes;
      assert Value() == SnapshotInstalled(s, bytes);
      hide SnapshotFits, State.Least, SnapshotInstalled;
      EvictToLimit();
      assert Value().Accounted() <= before + bytes;
      installed := Value().Capacity() <= limit;
      if !installed {
        DropSnapshot();
      }
    }

    method DropSnapshot()
      requires Value().Valid()
      modifies this
      ensures Value().Valid() && limit == old(limit) && snapshot == old(snapshot).(bytes := 0)
      ensures Value().Accounted() + old(snapshot.bytes) <= old(Value()).Accounted()
    {
      hide Evicted, Total, Sum, Owned, State.Valid, State.Floor, State.Least;
      SnapshotChanges(Value(), 0);
      ClearSnapshotValues();
      EvictToLimit();
    }

    // -------------------------------------------------------------------
    // Rule requests and diagnostics
    // -------------------------------------------------------------------

    /** A new diagnostic may push out older ones, and goes again itself if it does not fit. */
    method RecordRuleError(error: string)
      requires Value().Valid()
      modifies this`used, this`rules
      ensures Value().Valid() && Bounded(old(Value()), Value())
      ensures Value() == WithRuleErrors(old(Value()), rules.errors)
      ensures var text := error[..Min(|error|, MAX_RULE_LOOKUP_BYTES)];
        if Mentions(old(rules.errors), text) then rules.errors == old(rules.errors)
        else
          && var all := LastOf(old(rules.errors) + [Message(text, |text|)], MAX_DIAGNOSTICS);
          && Suffix(rules.errors, all)
          && TrimmedByNeed(WithRuleErrors(old(Value()), all), rules.errors)
          && (Value().Capacity() <= limit || rules.errors == [])
      ensures old(Value()).Capacity() <= limit ==> Value().Capacity() <= limit
      ensures rules == old(rules).(errors := rules.errors)
      ensures Distinct(old(rules.errors)) ==> Distinct(rules.errors)
    {
      hide Total, Sum, Owned, State.Valid, Distinct;
      ghost var s := Value();
      var text := error[..Min(|error|, MAX_RULE_LOOKUP_BYTES)];
      RuleErrorsTwice(s, s.rules.errors, s.rules.errors);
      if Mentions(rules.errors, text) {
        return;
      }
      var all := LastOf(rules.errors + [Message(text, |text|)], MAX_DIAGNOSTICS);
      SetRuleErrors(all);
      TrimRuleErrors();
      if Distinct(s.rules.errors) {
        DistinctWithLast(s.rules.errors, Message(text, |text|));
        LastOfIsSuffix(s.rules.errors + [Message(text, |text|)], MAX_DIAGNOSTICS);
        DistinctSuffix(s.rules.errors + [Message(text, |text|)], all);
        DistinctSuffix(all, rules.errors);
      }
      RuleErrorsTwice(s, all, rules.errors);
      WithRuleErrorsIsValid(s, rules.errors);
      OwnedNothing();
      FewerRuleErrors(s);
    }

    method SetRuleErrors(errors: seq<Message>)
      requires Value().Valid()
      modifies this`used, this`rules
      ensures Value().Valid() && Value() == WithRuleErrors(old(Value()), errors) && rules.errors == errors
    {
      hide Total, Sum, Owned, State.Valid;
      WithRuleErrorsIsValid(Value(), errors);
      var previous := Owned(rules.errors);
      rules := rules.(errors := errors);
      var current := Owned(rules.errors);
      used := used - previous + current;
    }

    method TrimRuleErrors()
      requires Value().Valid()
      modifies this`used, this`rules
      ensures Value().Valid() && Value() == WithRuleErrors(old(Value()), rules.errors)
      ensures Suffix(rules.errors, old(rules.errors))
      ensures Value().Capacity() <= limit || rules.errors == []
      ensures TrimmedByNeed(old(Value()), rules.errors)
    {
      hide Total, Sum, Owned, State.Valid, WithRuleErrors, TrimmedByNeed, State.Capacity, State.Accounted;
      ghost var s := Value();
      RuleErrorsTwice(s, s.rules.errors, s.rules.errors);
      NothingTrimmed(s);
      while Value().Capacity() > limit && rules.errors != []
        invariant Value().Valid() && limit == s.limit && Value() == WithRuleErrors(s, rules.errors)
        invariant Suffix(rules.errors, s.rules.errors)
        invariant TrimmedByNeed(s, rules.errors)
        decreases |rules.errors|
      {
        SuffixStep(rules.errors, s.rules.errors);
        RuleErrorsTwice(s, rules.errors, rules.errors[1..]);
        TrimmedOnce(s, rules.errors);
        SetRuleErrors(rules.errors[1..]);
      }
    }

    method RecordRuleErrors(errors: seq<Message>)
      requires Value().Valid()
      modifies this`used, this`rules
      ensures Value().Valid() && Bounded(old(Value()), Value())
      ensures Value() == WithRuleErrors(old(Value()), rules.errors)
      ensures old(Value()).Capacity() <= limit ==> Value().Capacity() <= limit
      ensures rules == old(rules).(errors := rules.errors)
    {
      hide Total, Sum, Owned, State.Valid, WithRuleErrors, Bounded, State.Capacity;
      ghost var s := Value();
      RuleErrorsTwice(s, s.rules.errors, s.rules.errors);
      BoundedItself(s);
      for i := 0 to |errors|
        invariant Value().Valid() && Bounded(s, Value())
        invariant Value() == WithRuleErrors(s, rules.errors)
        invariant s.Capacity() <= s.limit ==> Value().Capacity() <= limit
        invariant rules == s.rules.(errors := rules.errors)
      {
        ghost var t := Value();
        RecordRuleError(errors[i].text);
        RuleErrorsTwice(s, t.rules.errors, rules.errors);
        BoundedTwice(s, t, Value());
      }
    }

    method FinishRuleRequest(c: Command)
      requires Value().Valid()
      modifies this`used, this`rules
      ensures Value().Valid() && Value() == RequestFinished(old(Value()), c)
      ensures Value().Accounted() <= old(Value()).Accounted()
      ensures rules == old(rules).(pending := old(rules.pending) - {c}, deferred := old(rules.deferred) - {c})
      ensures OthersUntouched(old(rules), rules, c)
    {
      hide Total, Sum, Owned, State.Valid;
      RequestFinishedIsValid(Value(), c);
      if c in rules.pending {
        rules := rules.(pending := rules.pending - {c});
        used := used - AdmissionBytes(c);
      } else {
        assert rules.pending - {c} == rules.pending;
      }
      rules := rules.(deferred := rules.deferred - {c});
    }

    method DiscardPendingRuleChunks(c: Command)
      requires Value().Valid()
      modifies this`used, this`rules
      ensures Value().Valid() && Value() == ChunksDiscarded(old(Value()), c)
      ensures Value().Accounted() + StagedBytes(old(rules), c) == old(Value()).Accounted()
      ensures rules == old(rules).(chunks := old(rules.chunks) - {c})
      ensures OthersUntouched(old(rules), rules, c)
    {
      hide Total, Sum, Owned, State.Valid;
      ChunksDiscardedIsValid(Value(), c);
      if c in rules.chunks {
        used := used - rules.chunks[c].Bytes(c);
        rules := rules.(chunks := rules.chunks - {c});
      } else {
        assert rules.chunks - {c} == rules.chunks;
      }
    }

    method ClearPendingRuleChunks()
      requires Value().Valid()
      modifies this`used, this`rules
      ensures Value().Valid() && Value() == ChunksCleared(old(Value()), Sum(old(rules).ChunkSizes()))
      ensures Value().Accounted() <= old(Value()).Accounted()
    {
      hide Total, Sum, Owned, State.Valid;
      ChunksClearedIsValid(Value());
      var bytes := Added(rules.ChunkSizes());
      used := used - bytes;
      rules := rules.(chunks := map[]);
    }

    method ClearRuleRequests()
      requires Value().Valid()
      modifies this`used, this`rules
      ensures Value().Valid() && Value() == RequestsCleared(old(Value()), Sum(old(rules).Admissions()))
      ensures Value().Accounted() <= old(Value()).Accounted()
    {
      hide Total, Sum, Owned, State.Valid;
      RequestsClearedIsValid(Value());
      var bytes := Added(rules.Admissions());
      used := used - bytes;
      rules := rules.(pending := {}, deferred := {});
    }

    method DrainRuleEntries()
      requires Value().Valid()
      modifies this`used, this`rules
      ensures Value().Valid() && Value() == EntriesDrained(old(Value()), Total(old(rules.entries)))
      ensures Value().Accounted() <= old(Value()).Accounted()
    {
      hide Sum, Owned, State.Valid;
      EntriesDrainedIsValid(Value());
      var bytes := Added(Sizes(rules.entries));
      used := used - bytes;
      rules := rules.(entries := map[]);
    }

    /** Remembers a command that cannot be loaded; too many of them reject everything. */
    method RejectRuleCommand(c: Command)
      requires Value().Valid()
      modifies this`rules
      ensures Value().Valid() && Value() == old(Value()).(rules := rules) && Value().Accounted() == old(Value()).Accounted()
      ensures rules == if |old(rules.rejected)| < MAX_RULE_REJECTIONS
        then old(rules).(rejected := old(rules.rejected) + {c})
        else old(rules).(saturated := true)
      ensures OthersUntouched(old(rules), rules, c)
    {
      hide Total, Sum, Owned, State.Valid;
      RuleMarksAreFree(Value(), rules.(rejected := rules.rejected + {c}));
      RuleMarksAreFree(Value(), rules.(saturated := true));
      if |rules.rejected| < MAX_RULE_REJECTIONS {
        rules := rules.(rejected := rules.rejected + {c});
      } else {
        rules := rules.(saturated := true);
      }
    }

    // -------------------------------------------------------------------
    // Rule boundaries
    // -------------------------------------------------------------------

    method ReplaceStore(bytes: nat)
      requires Value().Valid()
      modifies this`used, this`rules
      ensures Value().Valid() && Value() == StoreReplaced(old(Value()), bytes)
    {
      hide Total, Sum, Owned, State.Valid;
      StoreReplacedIsValid(Value(), bytes);
      used := used - rules.store;
      rules := rules.(store := bytes);
      used := used + rules.store;
    }

    method ForgetWorker(replacement: bool)
      requires Value().Valid()
      modifies this
      ensures Value().Valid() && Value().Accounted() <= old(Value()).Accounted()
      ensures Value() == WorkerForgotten(old(Value()), replacement)
    {
      hide Total, Sum, Owned, State.Valid;
      WorkerLostIsValid(Value(), replacement);
      worker := replacement;
      rules := rules.(load := None, catalog := None);
      snapshot := snapshot.(reservation := None, pending := false, inFlight := None);
      files := files.(pending := {}, pins := {});
      StoreReplacedIsValid(Value(), 0);
      ReplaceStore(0);
      ClearRuleRequests();
      ClearPendingRuleChunks();
    }

    /** `restarted` says whether a new worker could be started. */
    method RestartWorker(restarted: bool)
      requires Value().Valid()
      modifies this
      ensures Value().Valid() && Value().Accounted() <= old(Value()).Accounted()
      ensures Value() == WorkerForgotten(old(Value()), restarted).(snapshot := snapshot)
      ensures snapshot == old(snapshot).(reservation := None, pending := false, inFlight := None, deferred := restarted &&
        (old(snapshot.pending) || old(snapshot.deferred) || old(snapshot.reservation).Some?))
      ensures limit == old(limit)
      ensures rules == old(rules).(load := None, catalog := None, store := 0, pending := {}, deferred := {}, chunks := map[])
      ensures worker == restarted && WorkGone(Value())
    {
      hide Total, Sum, Owned, State.Valid;
      var retry := snapshot.pending || snapshot.deferred || snapshot.reservation.Some?;
      ForgetWorker(restarted);
      SnapshotMarksAreFree(Value(), snapshot.(deferred := retry && restarted));
      snapshot := snapshot.(deferred := retry && restarted);
    }

    /** Gives the whole rest of the limit to discovery, in place of the old store; a refused request changes nothing. */
    method TrySendRuleDiscovery(accepted: bool) returns (sent: bool)
      requires Value().Valid()
      modifies this
      ensures Value().Valid() && Bounded(old(Value()), Value())
      ensures !sent ==> Value() == old(Value()) || Evicted(old(Value()), Value())
      ensures snapshot == old(snapshot) && worker == old(worker)
      ensures rules == old(rules).(entries := rules.entries, errors := rules.errors, store := rules.store, catalog := rules.catalog)
      ensures forall c :: c in rules.entries ==> c in old(rules.entries) && rules.entries[c] == old(rules.entries)[c]
      ensures !sent ==> rules.store == old(rules.store) && rules.catalog == old(rules.catalog)
      ensures sent ==>
        && worker && rules.configured && rules.load.None? && old(rules.catalog).None?
        && rules.store == 0 && Value().Capacity() == limit
        && rules.catalog.Some? && rules.catalog.value.generation == rules.generation
        && rules.catalog.value.bytes >= rules.configuration + old(rules.store)
      ensures Suffix(rules.errors, old(rules.errors))
      ensures !sent ==>
        !accepted || !old(MayDiscover(Value())) || Value().Capacity() + rules.configuration > limit
      ensures old(FitsAsItIs(Value())) ==>
        (sent <==> accepted && old(MayDiscover(Value())) && old(Value()).Capacity() + old(rules.configuration) <= limit)
    {
      hide Evicted, Total, Sum, Owned, State.Valid, State.Floor, DiscoveryReserved, State.Capacity, State.Accounted;
      if !worker || !rules.configured || rules.load.Some? || rules.catalog.Some? {
        return false;
      }
      EvictForRules();
      if Value().Capacity() + rules.configuration > limit {
        return false;
      }
      sent := ReserveDiscovery(accepted);
      CapacityCovers(Value());
    }

    method ReserveDiscovery(accepted: bool) returns (sent: bool)
      requires Value().Valid() && rules.catalog.None? && Value().Capacity() + rules.configuration <= limit
      modifies this`used, this`rules
      ensures Value().Valid()
      ensures Value() == if sent then DiscoveryReserved(old(Value())) else old(Value())
      ensures rules == old(rules).(store := rules.store, catalog := rules.catalog)
      ensures sent ==> rules.store == 0 && rules.catalog.Some? && rules.catalog.value.generation == rules.generation
      ensures sent ==> accepted && rules.catalog.value.bytes >= rules.configuration + old(rules.store)
      ensures Value().Capacity() <= limit && (sent ==> Value().Capacity() == limit)
      ensures sent <==> accepted
    {
      StoreFitsBudget(Value());
      hide Total, Sum, Owned, State.Valid, State.Capacity, DiscoveryBudget, DiscoveryReserved;
      DiscoveryReservesTheRest(Value());
      DiscoveryTakesOver(Value());
      var requestBytes := rules.configuration;
      var budget := Minus(DiscoveryBudget(Value()), requestBytes);
      var replaced := rules.store;
      if budget < replaced {
        return false;
      }
      SubstituteReservation(requestBytes + budget);
      sent := accepted;
      if !sent {
        rules := rules.(catalog := None, store := replaced);
        used := used + replaced;
      }
    }

    /** The reservation takes the place of the store. */
    method SubstituteReservation(bytes: nat)
      requires rules.store <= used
      requires bytes == rules.configuration + Minus(DiscoveryBudget(Value()), rules.configuration)
      modifies this`used, this`rules
      ensures Value() == DiscoveryReserved(old(Value()))
      ensures used == old(used) - old(rules.store)
      ensures rules == old(rules).(store := 0, catalog := Some(Reservation(old(rules.generation), bytes)))
    {
      hide DiscoveryBudget;
      used := used - rules.store;
      rules := rules.(store := 0, catalog := Some(Reservation(rules.generation, bytes)));
    }

    method EvictForRules()
      requires Value().Valid()
      modifies this`used, this`files, this`rules, this`probes
      ensures Value().Valid() && Evicted(old(Value()), Value()) && Bounded(old(Value()), Value())
      ensures Value().Accounted() <= old(Value()).Accounted()
      ensures Value().Accounted() <= limit || Value().Accounted() == old(Value()).Floor()
      ensures old(FitsAsItIs(Value())) ==> Value() == old(Value())
      ensures rules == old(rules).(entries := rules.entries, errors := rules.errors)
      ensures forall c :: c in rules.entries ==> c in old(rules.entries) && rules.entries[c] == old(rules.entries)[c]
      ensures Suffix(rules.errors, old(rules.errors)) && (Value().Capacity() <= limit <==> old(Value()).Least() <= limit)
    {
      hide Evicted, Total, Sum, Owned, State.Valid, State.Floor, State.Least, Suffix;
      ghost var s := Value();
      EvictToLimit();
      EvictionDropsEarliest(s, Value());
      EvictionChangesNoEntry(s, Value());
    }

    /** Eviction as far as a rule boundary is concerned. */
    method EvictNoMore()
      requires Value().Valid()
      modifies this
      ensures Value().Valid() && limit == old(limit) && Value().Accounted() <= old(Value()).Accounted()
      ensures Value().Accounted() <= limit || Value().Accounted() == old(Value()).Floor()
      ensures rules == old(rules).(entries := rules.entries, errors := rules.errors)
      ensures rules.entries.Keys <= old(rules.entries.Keys)
      ensures old(FitsAsItIs(Value())) ==> Value() == old(Value())
      ensures snapshot == old(snapshot) && worker == old(worker)
      ensures old(NothingLoaded(rules)) ==> NothingLoaded(rules)
      ensures Suffix(rules.errors, old(rules.errors)) && (Value().Capacity() <= limit <==> old(Value()).Least() <= limit)
    {
      hide Evicted, Total, Sum, Owned, State.Valid, State.Floor, State.Least, Suffix;
      EvictForRules();
    }

    method ReplaceConfiguration(configured: bool, bytes: nat)
      requires Value().Valid() && bytes <= MAX_RULE_CONFIGURATION_ACCOUNTED_BYTES && (!configured ==> bytes == 0)
      modifies this`used, this`rules
      ensures Value().Valid() && Value() == ConfigurationReplaced(old(Value()), configured, bytes)
      ensures Value().Capacity() == old(Value()).Capacity()
      ensures Value().Accounted() + old(rules.configuration) == old(Value()).Accounted() + bytes
    {
      hide Total, Sum, Owned, State.Valid;
      ReplacingConfigurationIsFree(Value(), configured, bytes);
      used := used - rules.configuration;
      rules := rules.(configured := configured, configuration := bytes);
      used := used + bytes;
    }

    /** The configuration is given up for good: no eviction could ever make room for it. */
    method RejectConfiguration(restarted: bool)
      requires Value().Valid()
      modifies this
      ensures Value().Valid() && limit == old(limit)
      ensures Value().Accounted() <= limit || Value().Accounted() + old(rules.configuration) <= old(Value()).Accounted()
      ensures !rules.configured && rules.configuration == 0 && rules.store == 0
      ensures rules.ready && !rules.catalogDeferred && rules.load.None? && rules.catalog.None?
      ensures rules.generation == old(rules.generation) && rules.entries == old(rules.entries)
      ensures rules.rejected == old(rules.rejected) && rules.saturated == old(rules.saturated)
      ensures rules.acknowledge == old(rules.acknowledge)
      ensures rules.pending == {} && rules.deferred == {} && rules.chunks == map[] && worker == restarted
      ensures SnapshotKept(old(snapshot), snapshot)
    {
      hide Total, Sum, Owned, State.Valid;
      RestartWorker(restarted);
      ReplaceConfiguration(false, 0);
      RuleMarksAreFree(Value(), rules.(catalogDeferred := false, ready := true));
      rules := rules.(catalogDeferred := false, ready := true);
      RecordRuleError("rule configuration exceeds the configured cache limit");
    }

    method AcknowledgeRuleChunk()
      requires Value().Valid()
      modifies this`rules
      ensures Value().Valid() && Value() == old(Value()).(rules := old(rules).(acknowledge := false))
      ensures Value().Accounted() == old(Value()).Accounted()
    {
      hide Total, Sum, Owned, State.Valid;
      RuleMarksAreFree(Value(), rules.(acknowledge := false));
      if rules.acknowledge {
        rules := rules.(acknowledge := false);
      }
    }

    method StartGeneration(bytes: nat)
      requires Value().Valid() && bytes <= MAX_RULE_CONFIGURATION_ACCOUNTED_BYTES
      modifies this
      ensures Value().Valid() && Value() == Reconfigured(old(Value()), bytes)
      ensures NothingRefused(rules)
      ensures Value().Accounted() + old(rules.configuration) <= old(Value()).Accounted() + bytes
    {
      hide Total, Sum, Owned, State.Valid;
      ReplaceConfiguration(true, bytes);
      RuleMarksAreFree(Value(), NextGeneration(rules));
      RuleMarksAreFree(Value(), rules.(generation := rules.generation + 1));
      rules := rules.(generation := rules.generation + 1);
      AcknowledgeRuleChunk();
      rules := rules.(ready := false, rejected := {}, saturated := false, catalogDeferred := false);
      ClearRuleRequests();
      ClearPendingRuleChunks();
      DrainRuleEntries();
    }

    /** Discovery under the new generation starts at once, is deferred, or can never fit. */
    method DiscoverRules(accepted: bool, restarted: bool)
      requires Value().Valid() && rules.configured
      modifies this
      ensures Value().Valid() && limit == old(limit)
      ensures Value().Accounted() <= limit || Value().Accounted() + old(rules.configuration) <= old(Value()).Accounted()
      ensures rules.generation == old(rules.generation)
      ensures rules.configured ==> rules.configuration == old(rules.configuration)
      ensures old(NothingLoaded(rules)) ==> NothingLoaded(rules)
      ensures !rules.configured ==> rules.ready && rules.configuration == 0 && rules.store == 0
      ensures SnapshotKept(old(snapshot), snapshot)
      ensures old(NothingLoaded(rules)) ==>
        (rules.configured <==> old(Value()).Least() <= limit && !ConfigurationNeverFits(old(Value())))
      ensures rules.configured ==> Suffix(rules.errors, old(rules.errors)) && Discovering(old(rules), rules, worker)
      ensures old(NothingRefused(rules)) ==> NothingRefused(rules)
      ensures accepted && old(DiscoversAtOnce(Value())) ==> rules.configured && rules.catalog.Some?
    {
      hide Evicted, Total, Sum, Owned, State.Valid, State.Floor, State.Accounted, State.Capacity, ConfigurationNeverFits, State.Least,
        Suffix, FitsAsItIs, MayDiscover, Discovering;
      ghost var s := Value();
      EvictNoMore();
      ghost var t := Value();
      SameConfiguration(s, t);
      if Value().Capacity() > limit {
        RejectConfiguration(restarted);
      } else {
        StartDiscovery(accepted, restarted);
        if rules.configured {
          SuffixTwice(s.rules.errors, t.rules.errors, rules.errors);
        }
        DiscoveringAlike(s.rules, t.rules, rules, worker);
      }
    }

    /** There is room for the configuration; discovery is sent, deferred, or can never fit. */
    method StartDiscovery(accepted: bool, restarted: bool)
      requires Value().Valid() && rules.configured && Value().Capacity() <= limit
      modifies this
      ensures Value().Valid() && limit == old(limit) && Value().Accounted() <= limit
      ensures rules.generation == old(rules.generation)
      ensures rules.configured ==> rules.configuration == old(rules.configuration)
      ensures old(NothingLoaded(rules)) ==> NothingLoaded(rules)
      ensures !rules.configured ==> rules.ready && rules.configuration == 0 && rules.store == 0
      ensures SnapshotKept(old(snapshot), snapshot)
      ensures old(NothingLoaded(rules)) ==> (rules.configured <==> !ConfigurationNeverFits(old(Value())))
      ensures rules.configured ==> Suffix(rules.errors, old(rules.errors)) && Discovering(old(rules), rules, worker)
      ensures old(NothingRefused(rules)) ==> NothingRefused(rules)
      ensures accepted && old(DiscoversAtOnce(Value())) ==> rules.configured && rules.catalog.Some?
    {
      hide Evicted, Total, Sum, Owned, State.Valid, State.Floor, State.Accounted, State.Capacity, ConfigurationNeverFits, State.Least,
        Suffix, FitsAsItIs, MayDiscover;
      ghost var s := Value();
      CapacityCovers(Value());
      var sent := TrySendRuleDiscovery(accepted);
      SameConfiguration(s, Value());
      if sent {
        if rules.pending == {} {
          SentFits(Value());
        }
      } else if ConfigurationNeverFits(Value()) {
        RejectConfiguration(restarted);
      } else {
        DeferDiscovery();
      }
    }

    method DeferDiscovery()
      requires Value().Valid()
      modifies this`rules
      ensures Value().Valid() && rules == old(rules).(catalogDeferred := worker, ready := !worker)
      ensures Value().Accounted() == old(Value()).Accounted()
    {
      hide Total, Sum, Owned, State.Valid;
      RuleMarksAreFree(Value(), rules.(catalogDeferred := worker, ready := !worker));
      rules := rules.(catalogDeferred := worker, ready := !worker);
    }

    /** `bytes` is the size of the bounded configuration; `truncated` says that it had to be cut. */
    method ConfigureRules(bytes: nat, truncated: bool, firstRestart: bool, accepted: bool, secondRestart: bool)
      requires Value().Valid() && bytes <= MAX_RULE_CONFIGURATION_ACCOUNTED_BYTES
      modifies this
      ensures Value().Valid() && Bounded(old(Value()), Value())
      ensures rules.generation == old(rules.generation) + 1
      ensures NothingLoaded(rules)
      ensures if rules.configured then rules.configuration == bytes
        else rules.configuration == 0 && rules.store == 0 && rules.ready
      ensures SnapshotKept(old(snapshot), snapshot)
      ensures NothingRefused(rules)
      ensures rules.configured ==>
        && MAX_RULE_CONFIGURATION_ACCOUNTED_BYTES + MAX_RULE_ADMISSION_BYTES + bytes <= limit
        && UnderDiscovery(rules, worker)
        && if truncated then ReportsCut(old(rules.errors), rules.errors) else Suffix(rules.errors, old(rules.errors))
      ensures !truncated && (old(Value()).Capacity() <= limit || !HoldsWork(old(Value()))) ==>
        && (rules.configured <==>
              Reconfigured(old(Value()), bytes).Least() <= limit &&
              MAX_RULE_CONFIGURATION_ACCOUNTED_BYTES + MAX_RULE_ADMISSION_BYTES + bytes <= limit)
        && (accepted && DiscoversAtOnce(Reconfigured(old(Value()), bytes)) ==> rules.configured && rules.catalog.Some?)
    {
      hide Total, Sum, Owned, State.Valid, Bounded, State.Accounted, State.Capacity, State.Least, Suffix, ReportsCut, Reconfigured,
        DiscoversAtOnce, HoldsWork, UnderDiscovery;
      ghost var s := Value();
      PrepareConfiguration(truncated, firstRestart);
      ghost var t := Value();
      InstallConfiguration(bytes, accepted, secondRestart);
      if truncated && rules.configured {
        StillReported(s.rules.errors, t.rules.errors, rules.errors);
      }
      BoundedTwice(s, t, Value());
    }

    /** What was sized for the superseded configuration may have to go first. */
    method PrepareConfiguration(truncated: bool, restarted: bool)
      requires Value().Valid()
      modifies this
      ensures Value().Valid() && Bounded(old(Value()), Value())
      ensures rules.generation == old(rules.generation)
      ensures SnapshotKept(old(snapshot), snapshot)
      ensures !truncated ==> rules.errors == old(rules.errors)
      ensures !truncated && !old(Value().Capacity() > limit && HoldsWork(Value())) ==> Value() == old(Value())
      ensures !truncated && old(Value().Capacity() > limit && HoldsWork(Value())) ==> WorkGone(Value()) && worker == restarted
      ensures truncated ==> ReportsCut(old(rules.errors), rules.errors)
    {
      hide Total, Sum, Owned, State.Valid, State.Capacity, WithRuleErrors, WorkerForgotten, CutMessage, TrimmedByNeed;
      ghost var s := Value();
      if truncated {
        CutIsShort();
        RecordRuleError(CutMessage());
        CutIsReported(s.rules.errors, rules.errors);
      }
      if Value().Capacity() > limit && HoldsWork(Value()) {
        RestartWorker(restarted);
      }
    }

    method InstallConfiguration(bytes: nat, accepted: bool, restarted: bool)
      requires Value().Valid() && bytes <= MAX_RULE_CONFIGURATION_ACCOUNTED_BYTES
      modifies this
      ensures Value().Valid() && Bounded(old(Value()), Value())
      ensures rules.generation == old(rules.generation) + 1
      ensures NothingLoaded(rules)
      ensures if rules.configured then rules.configuration == bytes
        else rules.configuration == 0 && rules.store == 0 && rules.ready
      ensures SnapshotKept(old(snapshot), snapshot)
      ensures rules.configured <==>
        Reconfigured(old(Value()), bytes).Least() <= limit &&
        MAX_RULE_CONFIGURATION_ACCOUNTED_BYTES + MAX_RULE_ADMISSION_BYTES + bytes <= limit
      ensures rules.configured ==> Suffix(rules.errors, old(rules.errors)) && UnderDiscovery(rules, worker)
      ensures NothingRefused(rules)
      ensures accepted && DiscoversAtOnce(Reconfigured(old(Value()), bytes)) ==> rules.configured && rules.catalog.Some?
    {
      hide Total, Sum, Owned, State.Valid, State.Least, Suffix, DiscoversAtOnce, Bounded, State.Accounted, Reconfigured;
      ghost var s := Value();
      ReconfiguredRules(s, bytes);
      StartGeneration(bytes);
      ghost var t := Value();
      DiscoverRules(accepted, restarted);
      InstallationIsBounded(s, t, Value(), bytes);
    }

    /** The paths, given by their lengths, are cut to what the configuration may hold. */
    method ConfigureRulePaths(paths: seq<nat>, keys: seq<nat>, firstRestart: bool, accepted: bool, secondRestart: bool)
      requires Value().Valid()
      modifies this
      ensures Value().Valid() && Bounded(old(Value()), Value())
      ensures rules.generation == old(rules.generation) + 1 && NothingLoaded(rules)
      ensures exists takenPaths, takenKeys ::
        && TakesWhatFits(paths, takenPaths, MAX_RULE_CONFIGURATION_PATHS, MAX_RULE_CONFIGURATION_BYTES)
        && var kept := Selected(paths, takenPaths);
        && |kept| <= MAX_RULE_CONFIGURATION_PATHS && Lengths(kept) <= MAX_RULE_CONFIGURATION_BYTES
        && TakesWhatFits(keys, takenKeys, MAX_RULE_CONFIGURATION_PATHS - |kept|, MAX_RULE_CONFIGURATION_BYTES - Lengths(kept))
        && rules.configuration == (if rules.configured then ConfigurationBytes(kept, Selected(keys, takenKeys)) else 0)
        && (rules.configured ==>
              if false in takenPaths || false in takenKeys then ReportsCut(old(rules.errors), rules.errors)
              else Suffix(rules.errors, old(rules.errors)))
      ensures rules.configured ==> UnderDiscovery(rules, worker)
    {
      hide Total, Sum, Owned, State.Valid, TakesWhatFits, Selected, Suffix, ReportsCut, Reconfigured, UnderDiscovery, State.Least,
        DiscoversAtOnce, Bounded;
      var keptPaths, cutPaths, count, room, takenPaths :=
        BoundedPaths(paths, MAX_RULE_CONFIGURATION_PATHS, MAX_RULE_CONFIGURATION_BYTES);
      var keptKeys, cutKeys, _, _, takenKeys := BoundedPaths(keys, count, room);
      ConfigureRules(ConfigurationBytes(keptPaths, keptKeys), cutPaths || cutKeys, firstRestart, accepted, secondRestart);
      assert count == MAX_RULE_CONFIGURATION_PATHS - |keptPaths| && room == MAX_RULE_CONFIGURATION_BYTES - Lengths(keptPaths);
    }

    /** Sends a load for a command whose request has been admitted; the reservation is what the limit leaves. */
    method SendLoad(accepted: bool) returns (sent: bool)
      requires Value().Valid() && rules.load.None?
      modifies this`rules
      ensures Value().Valid() && Bounded(old(Value()), Value())
      ensures sent == (worker && accepted)
      ensures Value() == if sent then LoadReserved(old(Value()), LoadBudget(old(Value()))) else old(Value())
      ensures sent && rules.pending != {} ==>
        (Cancelled(Value()).Capacity() <= limit <==>
          || LoadBudget(old(Value())) > 0
          || old(Value()).Capacity() + MAX_RULE_ADMISSION_BYTES <= limit + Sum(old(rules).Admissions()))
    {
      hide Total, Sum, Owned, State.Valid, Cancelled;
      ghost var s := Value();
      if rules.pending != {} {
        CancellingALoad(s);
      }
      RuleMarksAreFree(s, LoadReserved(s, LoadBudget(s)).rules);
      var bytes := LoadBudget(Value());
      sent := worker && accepted;
      if sent {
        rules := rules.(load := Some(Reservation(rules.generation, bytes)));
      }
    }

    method DeferRule(c: Command)
      requires Value().Valid() && c in rules.pending
      modifies this`rules
      ensures Value().Valid() && Value() == Deferred(old(Value()), c)
      ensures Bounded(old(Value()), Value())
    {
      hide Total, Sum, Owned;
      RuleMarksAreFree(Value(), rules.(deferred := rules.deferred + {c}));
      rules := rules.(deferred := rules.deferred + {c});
    }

    method ResumeRule(c: Command)
      requires Value().Valid()
      modifies this`rules
      ensures Value().Valid() && Value() == old(Value()).(rules := old(rules).(deferred := old(rules.deferred) - {c}))
      ensures Bounded(old(Value()), Value())
    {
      hide Total, Sum, Owned;
      RuleMarksAreFree(Value(), rules.(deferred := rules.deferred - {c}));
      rules := rules.(deferred := rules.deferred - {c});
    }

    /** Retries a deferred discovery, then one deferred load if nothing else is in flight. */
    method RetryDeferredRules(accepted: bool, restarted: bool, acceptedLoad: bool)
      requires Value().Valid()
      modifies this
      ensures Value().Valid() && Bounded(old(Value()), Value())
      ensures rules.generation == old(rules.generation)
      ensures rules.rejected == old(rules.rejected) && rules.saturated == old(rules.saturated)
      ensures rules.load != old(rules.load) && rules.load.Some? ==>
        rules.ready && snapshot.reservation.None? && rules.load.value.generation == rules.generation
      ensures !old(rules.catalogDeferred) ==>
        if old(LoadIsDue(rules, snapshot))
        then exists c :: IsLeast(c, old(rules.deferred)) && Value() == DeferredSent(old(Value()), c, acceptedLoad)
        else Value() == old(Value())
      ensures old(rules.catalogDeferred && !rules.ready) ==> rules.load == old(rules.load) || rules.load.None?
    {
      hide Evicted, Total, Sum, Owned, State.Valid, State.Floor, IsLeast, DeferredSent;
      if rules.catalogDeferred {
        RetryDiscovery(accepted, restarted);
      }
      if LoadIsDue(rules, snapshot) {
        ghost var c := SendDeferred(acceptedLoad);
      }
    }

    /** Sends the least deferred command. */
    method SendDeferred(accepted: bool) returns (ghost least: Command)
      requires Value().Valid() && rules.load.None? && rules.deferred != {}
      modifies this`used, this`rules
      ensures Value().Valid() && Bounded(old(Value()), Value())
      ensures IsLeast(least, old(rules.deferred)) && Value() == DeferredSent(old(Value()), least, accepted)
      ensures rules.generation == old(rules.generation) && rules.ready == old(rules.ready)
      ensures rules.rejected == old(rules.rejected) && rules.saturated == old(rules.saturated)
      ensures rules.load == if worker && accepted then Some(Reservation(rules.generation, LoadBudget(old(Value())))) else None
    {
      hide Total, Sum, Owned, State.Valid, Bounded, State.Accounted, State.Capacity, RequestFinished, LoadBudget;
      ghost var s := Value();
      var c := LeastCommand(rules.deferred);
      least := c;
      var sent := SendLoad(accepted);
      ghost var t := Value();
      if sent {
        ResumeRule(c);
        BoundedTwice(s, t, Value());
      } else if !worker {
        FinishRuleRequest(c);
        LessIsBounded(s, Value());
      }
    }

    method RetryDiscovery(accepted: bool, restarted: bool)
      requires Value().Valid() && rules.catalogDeferred
      modifies this
      ensures Value().Valid() && Bounded(old(Value()), Value())
      ensures rules.generation == old(rules.generation)
      ensures rules.rejected == old(rules.rejected) && rules.saturated == old(rules.saturated)
      ensures rules.load == old(rules.load) || rules.load.None?
      ensures rules.catalogDeferred ==> worker && rules.catalog == old(rules.catalog)
      ensures accepted && old(DiscoversAtOnce(Value())) ==> !rules.catalogDeferred && rules.catalog.Some?
      ensures rules.ready && !old(rules.ready) ==> !worker || rules.deferred == {}
    {
      hide Evicted, Total, Sum, Owned, State.Valid, State.Floor;
      var sent := TrySendRuleDiscovery(accepted);
      RuleMarksAreFree(Value(), rules.(catalogDeferred := false));
      RuleMarksAreFree(Value(), rules.(catalogDeferred := false, ready := true));
      if sent {
        rules := rules.(catalogDeferred := false);
      } else if ConfigurationNeverFits(Value()) {
        RejectConfiguration(restarted);
      } else if !worker {
        rules := rules.(catalogDeferred := false, ready := true);
      }
    }

    // -------------------------------------------------------------------
    // Rule programs
    // -------------------------------------------------------------------

    method RefuseRule(c: Command, error: string)
      requires Value().Valid()
      modifies this`used, this`rules
      ensures Value().Valid() && Bounded(old(Value()), Value())
      ensures Refused(rules, c) && rules.rejected - {c} == old(rules.rejected) - {c}
      ensures rules == old(rules).(rejected := rules.rejected, saturated := rules.saturated, errors := rules.errors)
    {
      hide Total, Sum, Owned, State.Valid;
      RejectRuleCommand(c);
      RecordRuleError(error);
    }

    /** Accounts for a request; it is sent at once unless others wait already. */
    method EnterRule(c: Command) returns (send: bool)
      requires Value().Valid() && c !in rules.pending && |rules.pending| < MAX_PENDING_RULE_REQUESTS
      modifies this`used, this`rules
      ensures Value().Valid() && Value().Accounted() == old(Value()).Accounted() + AdmissionBytes(c)
      ensures send <==> old(rules.deferred) == {}
      ensures Value() == if send then RequestAdmitted(old(Value()), c) else Deferred(RequestAdmitted(old(Value()), c), c)
      ensures rules == old(rules).(pending := old(rules.pending) + {c},
        deferred := if send then old(rules.deferred) else old(rules.deferred) + {c})
    {
      hide Total, Sum, Owned, State.Valid, State.Accounted, RequestAdmitted;
      AcceptRule(c);
      send := rules.deferred == {};
      if !send {
        DeferringIsFree(Value(), c);
        DeferRule(c);
      }
    }

    method AcceptRule(c: Command)
      requires Value().Valid() && c !in rules.pending && |rules.pending| < MAX_PENDING_RULE_REQUESTS
      modifies this`used, this`rules
      ensures Value().Valid() && Value() == RequestAdmitted(old(Value()), c)
      ensures Value().Accounted() == old(Value()).Accounted() + AdmissionBytes(c)
      ensures rules == old(rules).(pending := old(rules.pending) + {c})
    {
      hide Total, Sum, Owned, State.Valid;
      RequestAdmittedIsValid(Value(), c);
      rules := rules.(pending := rules.pending + {c});
      used := used + AdmissionBytes(c);
    }

    /** Admits a command that fits, or says why not: it never will, or not under the present pressure. */
    method AdmitRule(c: Command) returns (send: bool, backpressured: bool)
      requires Value().Valid() && c !in rules.pending && |rules.pending| < MAX_PENDING_RULE_REQUESTS && !Refused(rules, c)
      modifies this
      ensures Value().Valid() && Bounded(old(Value()), Value())
      ensures rules.load == old(rules.load) && rules.generation == old(rules.generation) && rules.ready == old(rules.ready)
      ensures snapshot == old(snapshot) && worker == old(worker)
      ensures Refused(rules, c) <==> AdmissionBytes(c) + MAX_RULE_CONFIGURATION_ACCOUNTED_BYTES > limit
      ensures backpressured <==> c !in rules.pending && !Refused(rules, c)
      ensures Refused(rules, c) ==> c !in rules.pending
      ensures backpressured ==> Value().Accounted() + Value().GrowthReserve() + AdmissionBytes(c) > limit
      ensures old(FitsAsItIs(Value())) && !Refused(rules, c) ==>
        (backpressured <==> old(Value()).Accounted() + old(Value()).GrowthReserve() + AdmissionBytes(c) > limit)
      ensures rules.pending == old(rules.pending) || rules.pending == old(rules.pending) + {c}
      ensures send <==> c in rules.pending && c !in rules.deferred
      ensures c in rules.pending ==> (send <==> old(rules.deferred) == {})
      ensures rules.entries.Keys <= old(rules.entries.Keys)
      ensures old(AdmittedAsIs(Value(), c)) ==> Value() == if send
        then RequestAdmitted(old(Value()), c) else Deferred(RequestAdmitted(old(Value()), c), c)
    {
      hide Evicted, Total, Sum, Owned, State.Floor, State.Valid, State.Accounted, RoomForRequest, AdmissionBytes, RequestAdmitted;
      send, backpressured := false, false;
      if AdmissionBytes(c) + MAX_RULE_CONFIGURATION_ACCOUNTED_BYTES > limit {
        RefuseRule(c, c + ": rule request exceeds the configured cache limit");
        return;
      }
      EvictNoMore();
      RoomIsEnough(Value(), c);
      if !RoomForRequest(Value(), c) {
        backpressured := true;
        return;
      }
      send := EnterRule(c);
    }

    /** Whether to send a load for the command now. */
    method ChooseLoad(c: Command) returns (send: bool, backpressured: bool)
      requires Value().Valid() && !Refused(rules, c)
      modifies this
      ensures Value().Valid() && Bounded(old(Value()), Value())
      ensures rules.load == old(rules.load) && rules.generation == old(rules.generation) && rules.ready == old(rules.ready)
      ensures snapshot == old(snapshot) && worker == old(worker)
      ensures send <==>
        && c in rules.pending && rules.load.None? && snapshot.reservation.None?
        && old(c in rules.deferred || (c !in rules.pending && rules.deferred == {}))
      ensures backpressured <==> c !in rules.pending && !Refused(rules, c)
      ensures c in rules.pending ==> !Refused(rules, c)
      ensures rules.entries.Keys <= old(rules.entries.Keys)
      ensures old(rules.pending) <= rules.pending <= old(rules.pending) + {c}
      ensures old(NewRequest(rules, snapshot, c) && AdmittedAsIs(Value(), c)) ==> Value() == if send
        then RequestAdmitted(old(Value()), c) else Deferred(RequestAdmitted(old(Value()), c), c)
    {
      hide Total, Sum, Owned, State.Valid, Bounded, State.Accounted, State.Capacity, AdmittedAsIs, RequestAdmitted;
      send, backpressured := false, false;
      BoundedItself(Value());
      ghost var s := Value();
      DeferredIsPending(Value());
      if c in rules.deferred {
        ResumeRule(c);
        if rules.load.None? && snapshot.reservation.None? {
          send := true;
        } else {
          ghost var t := Value();
          DeferRule(c);
          BoundedTwice(s, t, Value());
        }
      } else if c in rules.pending {
      } else if rules.load.Some? || snapshot.reservation.Some? || |rules.pending| >= MAX_PENDING_RULE_REQUESTS {
        backpressured := true;
      } else {
        send, backpressured := AdmitRule(c);
      }
    }

    /** Sends the load; without a worker the request ends, and a full queue defers it. */
    method StartLoad(c: Command, accepted: bool)
      requires Value().Valid() && c in rules.pending && rules.load.None?
      modifies this`used, this`rules
      ensures Value().Valid() && Bounded(old(Value()), Value())
      ensures Value() == Started(old(Value()), c, accepted)
      ensures rules.load == if worker && accepted then Some(Reservation(rules.generation, LoadBudget(old(Value())))) else None
      ensures worker && !accepted ==> c in rules.deferred
      ensures c in rules.pending <==> worker
      ensures rules.generation == old(rules.generation) && rules.ready == old(rules.ready)
      ensures rules.entries == old(rules.entries) && Refused(rules, c) == old(Refused(rules, c))
    {
      hide Total, Sum, Owned, State.Valid, Bounded, State.Accounted, State.Capacity, RequestFinished, LoadBudget, Cancelled;
      ghost var s := Value();
      var sent := SendLoad(accepted);
      if !sent {
        if worker {
          DeferRule(c);
        } else {
          FinishRuleRequest(c);
          LessIsBounded(s, Value());
        }
      }
    }

    /** `Some(true)` is a program list, `Some(false)` the empty one for a command that has none. */
    method RulePrograms(c: Command, accepted: bool, restarted: bool, acceptedRetry: bool, acceptedLoad: bool)
      returns (programs: Option<bool>, pending: bool)
      requires Value().Valid()
      modifies this
      ensures Value().Valid() && Bounded(old(Value()), Value())
      ensures c == "" ==> Value() == old(Value()) && programs == None && !pending
      ensures c != "" && (|c| > MAX_RULE_LOOKUP_BYTES || old(Refused(rules, c))) ==>
        Value() == old(Value()) && programs == Some(false) && !pending
      ensures rules.generation == old(rules.generation)
      ensures programs == Some(true) ==> c in rules.entries && rules.entries[c].lastUsed == clock
      ensures c != "" && |c| <= MAX_RULE_LOOKUP_BYTES && !old(Refused(rules, c)) ==>
        && (programs == Some(true) <==> c in rules.entries)
        && (programs == Some(true) ==> (pending <==> !rules.ready || c in rules.pending))
        && (programs == None ==> (pending <==> worker && (!rules.ready || !Refused(rules, c))))
        && (programs == None || programs == Some(true))
      ensures c != "" && |c| <= MAX_RULE_LOOKUP_BYTES && !old(Refused(rules, c)) && !old(rules.catalogDeferred) ==>
        var due := old(
          && c !in rules.entries && rules.ready && rules.load.None? && snapshot.reservation.None?
          && (c in rules.deferred || (c !in rules.pending && rules.deferred == {})));
        if due && c in rules.pending && worker && acceptedLoad
        then rules.load.Some? && rules.load.value.generation == rules.generation
        else rules.load == old(rules.load)
      ensures c != "" && |c| <= MAX_RULE_LOOKUP_BYTES && old(
        && !Refused(rules, c) && !rules.catalogDeferred && rules.ready && c !in rules.entries
        && NewRequest(rules, snapshot, c) && AdmittedAsIs(Value(), c)) ==>
        var admitted := RequestAdmitted(old(Value()), c);
        Value() == if old(rules.deferred) == {} then Started(admitted, c, acceptedLoad) else Deferred(admitted, c)
    {
      hide Total, Sum, Owned, State.Valid, Bounded;
      ghost var s := Value();
      BoundedItself(s);
      if c == "" {
        return None, false;
      }
      if |c| > MAX_RULE_LOOKUP_BYTES || Refused(rules, c) {
        return Some(false), false;
      }
      if rules.catalogDeferred {
        RetryDeferredRules(accepted, restarted, acceptedRetry);
      }
      var backpressured := false;
      if c !in rules.entries && rules.ready {
        ghost var t := Value();
        var send;
        send, backpressured := ChooseLoad(c);
        BoundedTwice(s, t, Value());
        t := Value();
        if send {
          StartLoad(c, acceptedLoad);
          BoundedTwice(s, t, Value());
        }
      }
      pending := backpressured || !rules.ready || c in rules.pending;
      if c in rules.entries {
        ghost var t := Value();
        UseRule(c);
        BoundedTwice(s, t, Value());
        programs := Some(true);
      } else {
        programs := None;
        pending := pending && worker;
      }
    }

    method UseRule(c: Command)
      requires Value().Valid() && c in rules.entries
      modifies this`clock, this`rules
      ensures Value().Valid() && Bounded(old(Value()), Value())
      ensures clock == old(clock) + 1
      ensures rules == old(rules).(entries := Touched(old(rules.entries), c, clock))
      ensures rules.entries[c].lastUsed == clock
    {
      hide Sum, Owned, UsedBy;
      TotalTouched(rules.entries, c, clock + 1);
      UsedLater(rules.entries, c, rules.entries[c].(lastUsed := clock + 1), clock);
      ClockAdvances(Value());
      clock := clock + 1;
      ghost var before := rules;
      rules := rules.(entries := Touched(rules.entries, c, clock));
      assert rules.Admissions() == before.Admissions() && rules.ChunkSizes() == before.ChunkSizes();
    }

    /** A discovered store takes the place of its reservation, which the worker must not have exceeded. */
    method ReceiveCatalog(generation: nat, bytes: nat)
      requires Value().Valid()
      modifies this
      ensures Value().Valid() && limit == old(limit)
      ensures generation != old(rules.generation) ==>
        Value() == old(Value()).(rules := CatalogReleased(old(rules), generation)) && Bounded(old(Value()), Value())
      ensures rules.catalog == CatalogReleased(old(rules), generation).catalog
      ensures generation == old(rules.generation) ==>
        rules.store == bytes && rules.ready && !rules.catalogDeferred
      ensures old(rules.catalog).Some? && old(rules.catalog).value.generation == generation && bytes <= old(rules.catalog).value.bytes ==>
        Bounded(old(Value()), Value())
    {
      hide Evicted, Total, Sum, Owned, State.Valid, State.Floor;
      RuleMarksAreFree(Value(), CatalogReleased(rules, generation));
      rules := CatalogReleased(rules, generation);
      if generation == rules.generation {
        InstallStore(bytes);
      }
    }

    method InstallStore(bytes: nat)
      requires Value().Valid()
      modifies this
      ensures Value().Valid() && limit == old(limit)
      ensures Value().Accounted() + old(rules.store) <= old(Value()).Accounted() + bytes
      ensures rules == old(rules).(entries := rules.entries, errors := rules.errors, store := bytes, ready := true, catalogDeferred := false)
    {
      hide Evicted, Total, Sum, Owned, State.Valid, State.Floor;
      StoreReplacedIsValid(Value(), bytes);
      ReplaceStore(bytes);
      EvictNoMore();
      RuleMarksAreFree(Value(), rules.(ready := true, catalogDeferred := false));
      rules := rules.(ready := true, catalogDeferred := false);
    }

    // -------------------------------------------------------------------
    // Rule replies
    // -------------------------------------------------------------------

    /** The command is refused for good; a terminal reply also ends its request. */
    method RefuseLoad(c: Command, complete: bool, error: string, ghost s: State)
      requires Value().Valid() && Bounded(s, Value()) && OthersUntouched(s.rules, rules, c)
      modifies this`used, this`rules
      ensures Value().Valid() && Bounded(s, Value()) && OthersUntouched(s.rules, rules, c)
      ensures Refused(rules, c)
      ensures rules == old(rules).(pending := rules.pending, deferred := rules.deferred, rejected := rules.rejected,
        saturated := rules.saturated, errors := rules.errors)
      ensures rules.pending == if complete then old(rules.pending) - {c} else old(rules.pending)
    {
      hide Total, Sum, Owned, State.Valid, State.Capacity, State.Accounted, RequestFinished, Bounded, OthersUntouched;
      ghost var t := Value();
      RefuseRule(c, error);
      ghost var u := Value();
      BoundedTwice(s, t, u);
      OthersTwice(s.rules, t.rules, u.rules, c);
      if complete {
        FinishRuleRequest(c);
        LessIsBounded(u, Value());
        BoundedTwice(s, u, Value());
        OthersTwice(s.rules, u.rules, rules, c);
      }
    }

    /**
     Takes one reply. Parts are staged until the last has come; only then are they
     published. A current reply that is neither rejected nor for a refused command is
     refused exactly if it does not fit.
     */
    method ReceiveRules(reply: RulesReply, spareBytes: nat, combinedBytes: nat) returns (outcome: RulesOutcome)
      requires Value().Valid()
      modifies this
      ensures Value().Valid() && Bounded(old(Value()), Value())
      ensures rules.acknowledge
      ensures rules.load == if reply.complete then LoadReleased(old(rules), reply.generation).load else old(rules.load)
      ensures outcome ==
        if reply.generation != old(rules.generation) then StaleReply
        else if reply.rejected || Refused(old(rules), reply.command) then RefusedReply
        else Verdict(old(Value()), reply, spareBytes, combinedBytes)
      ensures outcome == StaleReply ==> Value() == old(Value()).(rules := old(rules).(acknowledge := true, load := rules.load))
      ensures outcome == RefusedReply ==> Refused(rules, reply.command) && reply.command !in rules.chunks
      ensures outcome in {RefusedReply, PublishedReply} && (reply.complete || reply.rejected) ==> reply.command !in rules.pending
      ensures outcome in {StagedReply, PublishedReply} ==>
        rules.rejected == old(rules.rejected) && rules.saturated == old(rules.saturated)
      ensures outcome == StagedReply ==>
        && reply.command in rules.chunks && rules.pending == old(rules.pending) && rules.entries == old(rules.entries)
        && rules.chunks[reply.command] == Extended(StagedFor(old(rules), reply.command), reply, spareBytes)
        && Value().Capacity() <= limit
      ensures outcome == PublishedReply ==>
        && reply.command !in rules.chunks && reply.command in rules.entries && clock == old(clock) + 1
        && rules.entries[reply.command] == Entry(combinedBytes, clock,
             ItemsOf(old(rules.entries), reply.command) + StagedFor(old(rules), reply.command).programs + reply.programs)
      ensures OthersUntouched(old(rules), rules, reply.command)
    {
      hide Total, Sum, Owned, State.Valid, Bounded, Extended, StagedFor, ItemsOf, LoadReleased, Refused, State.Capacity,
        State.Accounted, Verdict, OthersUntouched;
      ghost var s := Value();
      TakeReply(reply);
      ghost var t := Value();
      OthersAreUntouched(s.rules, t.rules, reply.command);
      if reply.generation != rules.generation {
        return StaleReply;
      }
      if reply.rejected {
        RejectReply(reply);
        outcome := RefusedReply;
      } else if Refused(rules, reply.command) {
        DropReply(reply);
        outcome := RefusedReply;
      } else {
        VerdictAfterTaking(s, t, reply, spareBytes, combinedBytes);
        outcome := AcceptRules(reply, spareBytes, combinedBytes);
      }
      OthersTwice(s.rules, t.rules, rules, reply.command);
      BoundedTwice(s, t, Value());
    }

    /** Every reply earns the worker its credit back; the last one of a load releases its reservation. */
    method TakeReply(reply: RulesReply)
      requires Value().Valid()
      modifies this`rules
      ensures Value().Valid() && Bounded(old(Value()), Value())
      ensures rules == old(rules).(acknowledge := true, load := rules.load)
      ensures rules.load == if reply.complete then LoadReleased(old(rules), reply.generation).load else old(rules.load)
      ensures LoadBytes(rules, reply) == 0
      ensures StagedFor(rules, reply.command) == StagedFor(old(rules), reply.command)
      ensures Refused(rules, reply.command) == Refused(old(rules), reply.command)
    {
      hide Total, Sum, Owned, State.Valid;
      var next := if reply.complete then LoadReleased(rules, reply.generation) else rules;
      RuleMarksAreFree(Value(), next.(acknowledge := true));
      rules := next.(acknowledge := true);
    }

    method DropReply(reply: RulesReply)
      requires Value().Valid()
      modifies this`used, this`rules
      ensures Value().Valid() && Bounded(old(Value()), Value())
      ensures rules == old(rules).(chunks := old(rules.chunks) - {reply.command}, pending := rules.pending, deferred := rules.deferred)
      ensures rules.pending == if reply.complete then old(rules.pending) - {reply.command} else old(rules.pending)
      ensures Refused(rules, reply.command) == Refused(old(rules), reply.command)
      ensures OthersUntouched(old(rules), rules, reply.command)
    {
      hide Total, Sum, Owned, State.Valid, State.Capacity, State.Accounted, ChunksDiscarded, RequestFinished;
      DiscardPendingRuleChunks(reply.command);
      if reply.complete {
        FinishRuleRequest(reply.command);
      }
    }

    method RejectReply(reply: RulesReply)
      requires Value().Valid()
      modifies this`used, this`rules
      ensures Value().Valid() && Bounded(old(Value()), Value())
      ensures Refused(rules, reply.command) && reply.command !in rules.chunks && reply.command !in rules.pending
      ensures rules.load == old(rules.load) && rules.acknowledge == old(rules.acknowledge)
      ensures OthersUntouched(old(rules), rules, reply.command)
    {
      hide Total, Sum, Owned, State.Valid, State.Capacity, State.Accounted, ChunksDiscarded, RequestFinished, WithRuleErrors, Bounded,
        OthersUntouched;
      ghost var s := Value();
      DiscardPendingRuleChunks(reply.command);
      ghost var t := rules;
      FinishRuleRequest(reply.command);
      OthersTwice(s.rules, t, rules, reply.command);
      RefuseReported(reply.command, reply.errors, s);
    }

    method RefuseReported(c: Command, errors: seq<Message>, ghost s: State)
      requires Value().Valid() && s.limit == limit && Value().Accounted() <= s.Accounted() && OthersUntouched(s.rules, rules, c)
      modifies this`used, this`rules
      ensures Value().Valid() && Bounded(s, Value()) && OthersUntouched(s.rules, rules, c)
      ensures Refused(rules, c)
      ensures rules == old(rules).(rejected := rules.rejected, saturated := rules.saturated, errors := rules.errors)
    {
      hide Total, Sum, Owned, State.Valid, State.Capacity, State.Accounted, WithRuleErrors, Bounded, OthersUntouched;
      ghost var u := rules;
      RejectRuleCommand(c);
      OthersTwice(s.rules, u, rules, c);
      ghost var t := Value();
      LessIsBounded(s, t);
      RecordRuleErrors(errors);
      OthersMayFail(t.rules, rules, c);
      OthersTwice(s.rules, t.rules, rules, c);
      BoundedTwice(s, t, Value());
    }

    /** Joins the reply to what is staged, if the whole still fits. */
    method AcceptRules(reply: RulesReply, spareBytes: nat, combinedBytes: nat) returns (outcome: RulesOutcome)
      requires Value().Valid() && LoadBytes(rules, reply) == 0
      modifies this
      ensures Value().Valid() && Bounded(old(Value()), Value())
      ensures rules.load == old(rules.load) && rules.acknowledge == old(rules.acknowledge)
      ensures outcome == Verdict(old(Value()), reply, spareBytes, combinedBytes) != StaleReply
      ensures outcome == RefusedReply ==> Refused(rules, reply.command) && reply.command !in rules.chunks
      ensures outcome in {RefusedReply, PublishedReply} && reply.complete ==> reply.command !in rules.pending
      ensures outcome in {StagedReply, PublishedReply} ==>
        rules.rejected == old(rules.rejected) && rules.saturated == old(rules.saturated)
      ensures outcome == StagedReply ==>
        && reply.command in rules.chunks && rules.pending == old(rules.pending) && rules.entries == old(rules.entries)
        && rules.chunks[reply.command] == Extended(StagedFor(old(rules), reply.command), reply, spareBytes)
        && Value().Capacity() <= limit
      ensures outcome == PublishedReply ==>
        && reply.command !in rules.chunks && reply.command in rules.entries && clock == old(clock) + 1
        && rules.entries[reply.command] == Entry(combinedBytes, clock,
             ItemsOf(old(rules.entries), reply.command) + StagedFor(old(rules), reply.command).programs + reply.programs)
      ensures OthersUntouched(old(rules), rules, reply.command)
    {
      hide Total, Sum, Owned, State.Valid, State.Accounted, State.Capacity, RequestFinished, ChunksDiscarded, Bounded, Refused,
        PartsFit, WholeFits, OthersUntouched, Chunks.Bytes, ItemsOf, StagedFor, StagedBytes, Verdict, LoadBytes, Min,
        TooManyRules, TooLargeRules;
      VerdictCases(Value(), reply, spareBytes, combinedBytes);
      ghost var s := Value();
      var c := reply.command;
      var staged := StagedFor(rules, c);
      DiscardPendingRuleChunks(c);
      LessIsBounded(s, Value());
      PartsDecided(s, Value(), reply, spareBytes);
      if staged.programs + reply.programs > MAX_RULE_CACHE_ENTRIES || |staged.errors| + |reply.errors| > MAX_RULE_REJECTIONS {
        RefuseLoad(c, reply.complete, TooManyRules(c), s);
        return RefusedReply;
      }
      var chunks := Extended(staged, reply, spareBytes);
      if chunks.Bytes(c) > Min(limit, MAX_RULE_BYTES) || Value().Capacity() + chunks.Bytes(c) > limit {
        RefuseLoad(c, reply.complete, TooLargeRules(c), s);
        return RefusedReply;
      }
      outcome := KeepParts(s, reply, chunks, combinedBytes);
    }

    /** The parts fit: they are staged, or published with the last one. */
    method KeepParts(ghost s: State, reply: RulesReply, chunks: Chunks, combinedBytes: nat) returns (outcome: RulesOutcome)
      requires Value().Valid() && s.limit == limit && LoadBytes(s.rules, reply) == 0
      requires chunks.programs == StagedFor(s.rules, reply.command).programs + reply.programs
      requires rules == s.rules.(chunks := s.rules.chunks - {reply.command})
      requires Value().Accounted() + StagedBytes(s.rules, reply.command) == s.Accounted()
      requires Value().Capacity() + chunks.Bytes(reply.command) <= limit
      requires Bounded(s, Value()) && OthersUntouched(s.rules, rules, reply.command)
      modifies this
      ensures Value().Valid() && Bounded(s, Value()) && OthersUntouched(s.rules, rules, reply.command)
      ensures rules.load == old(rules.load) && rules.acknowledge == old(rules.acknowledge)
      ensures outcome ==
        if !reply.complete then StagedReply else if WholeFits(s, reply, combinedBytes) then PublishedReply else RefusedReply
      ensures outcome == RefusedReply ==> Refused(rules, reply.command)
      ensures outcome != RefusedReply ==> rules.rejected == old(rules.rejected) && rules.saturated == old(rules.saturated)
      ensures outcome == StagedReply ==>
        && rules == old(rules).(chunks := old(rules.chunks)[reply.command := chunks])
        && Value().Capacity() <= limit
      ensures outcome != StagedReply ==>
        rules.pending == old(rules.pending) - {reply.command} && rules.chunks == old(rules.chunks)
      ensures outcome == PublishedReply ==>
        && reply.command in rules.entries && clock == old(clock) + 1
        && rules.entries[reply.command] == Entry(combinedBytes, clock, ItemsOf(old(rules.entries), reply.command) + chunks.programs)
    {
      hide Total, Sum, Owned, State.Valid, State.Accounted, State.Capacity, Bounded, Refused, WholeFits, OthersUntouched,
        Chunks.Bytes, ItemsOf, StagedFor, StagedBytes, LoadBytes, ChunksStaged;
      if reply.complete {
        outcome := PublishReply(s, reply, chunks, combinedBytes);
      } else {
        StageChunks(reply.command, chunks, s);
        outcome := StagedReply;
      }
    }

    /** The last part has come and fits. */
    method PublishReply(ghost s: State, reply: RulesReply, chunks: Chunks, combinedBytes: nat) returns (outcome: RulesOutcome)
      requires Value().Valid() && s.limit == limit && LoadBytes(s.rules, reply) == 0
      requires chunks.programs == StagedFor(s.rules, reply.command).programs + reply.programs
      requires rules == s.rules.(chunks := s.rules.chunks - {reply.command})
      requires Value().Accounted() + StagedBytes(s.rules, reply.command) == s.Accounted()
      requires Bounded(s, Value()) && OthersUntouched(s.rules, rules, reply.command)
      modifies this
      ensures Value().Valid() && Bounded(s, Value()) && OthersUntouched(s.rules, rules, reply.command)
      ensures rules.load == old(rules.load) && rules.acknowledge == old(rules.acknowledge)
      ensures outcome == if WholeFits(s, reply, combinedBytes) then PublishedReply else RefusedReply
      ensures rules.pending == old(rules.pending) - {reply.command} && rules.chunks == old(rules.chunks)
      ensures rules.generation == old(rules.generation) && rules.ready == old(rules.ready)
      ensures outcome == RefusedReply ==> Refused(rules, reply.command)
      ensures outcome == PublishedReply ==>
        && rules.rejected == old(rules.rejected) && rules.saturated == old(rules.saturated)
        && reply.command in rules.entries && clock == old(clock) + 1
        && rules.entries[reply.command] == Entry(combinedBytes, clock, ItemsOf(old(rules.entries), reply.command) + chunks.programs)
    {
      hide Total, Sum, Owned, State.Valid, State.Accounted, State.Capacity, RequestFinished, Bounded, Refused, WholeFits, StagedFor,
        ItemsOf, WhyUnpublishable, OthersUntouched;
      ghost var t := Value();
      RequestFinishedIsValid(t, reply.command);
      FinishRuleRequest(reply.command);
      ghost var u := Value();
      LessIsBounded(t, u);
      PublishedIsValid(u, reply.command, 0, 0);
      RoomAfterFinishing(s, t, u, reply, combinedBytes);
      OthersTwice(s.rules, t.rules, u.rules, reply.command);
      BoundedTwice(s, t, u);
      outcome := PublishRules(reply.command, chunks, combinedBytes);
      OthersTwice(s.rules, u.rules, rules, reply.command);
      BoundedTwice(s, u, Value());
    }

    method StageChunks(c: Command, chunks: Chunks, ghost s: State)
      requires Value().Valid() && c !in rules.chunks && Value().Capacity() + chunks.Bytes(c) <= limit
      requires Bounded(s, Value()) && OthersUntouched(s.rules, rules, c)
      modifies this`used, this`rules
      ensures Value().Valid() && Value() == ChunksStaged(old(Value()), c, chunks) && Value().Capacity() <= limit
      ensures Bounded(s, Value()) && OthersUntouched(s.rules, rules, c)
      ensures rules == old(rules).(chunks := old(rules.chunks)[c := chunks])
    {
      hide Total, Sum, Owned, State.Valid, Chunks.Bytes;
      ChunksStagedIsValid(Value(), c, chunks);
      used := used + chunks.Bytes(c);
      rules := rules.(chunks := rules.chunks[c := chunks]);
    }

    method PublishRules(c: Command, chunks: Chunks, combinedBytes: nat) returns (outcome: RulesOutcome)
      requires Value().Valid() && c !in rules.pending
      modifies this
      ensures Value().Valid() && Bounded(old(Value()), Value())
      ensures rules == old(rules).(entries := rules.entries, errors := rules.errors, rejected := rules.rejected, saturated := rules.saturated)
      ensures outcome == if WhyUnpublishable(old(Value()), c, combinedBytes, ItemsOf(old(rules.entries), c) + chunks.programs).None?
        then PublishedReply else RefusedReply
      ensures outcome == RefusedReply ==> Refused(rules, c)
      ensures outcome == PublishedReply ==>
        && rules.rejected == old(rules.rejected) && rules.saturated == old(rules.saturated)
        && c in rules.entries && clock == old(clock) + 1
        && rules.entries[c] == Entry(combinedBytes, clock, ItemsOf(old(rules.entries), c) + chunks.programs)
      ensures OthersUntouched(old(rules), rules, c)
    {
      hide Total, Sum, Owned, State.Valid, Evicted, State.Floor, Bounded, Published, WhyUnpublishable, State.Capacity, State.Accounted;
      ghost var s := Value();
      var items := ItemsOf(rules.entries, c) + chunks.programs;
      var error := WhyUnpublishable(Value(), c, combinedBytes, items);
      if error.Some? {
        RefuseRule(c, error.value);
        return RefusedReply;
      }
      InstallPrograms(c, combinedBytes, items, chunks.errors);
      outcome := PublishedReply;
    }

    method InstallPrograms(c: Command, bytes: nat, items: nat, errors: seq<Message>)
      requires Value().Valid() && c !in rules.pending && Minus(Value().Capacity(), SizeAt(rules.entries, c)) + bytes <= limit
      modifies this
      ensures Value().Valid() && Bounded(old(Value()), Value())
      ensures rules == old(rules).(entries := rules.entries, errors := rules.errors)
      ensures clock == old(clock) + 1 && c in rules.entries && rules.entries[c] == Entry(bytes, clock, items)
      ensures OthersUntouched(old(rules), rules, c)
    {
      hide Total, Sum, Owned, State.Valid, Evicted, State.Floor, Bounded, State.Capacity, State.Accounted, Refused, Newest;
      ghost var s := Value();
      PublishedFits(s, c, bytes, items);
      PublishedIsNewest(s, c, bytes, items);
      PublishEntry(c, bytes, items);
      hide Published;
      ghost var u := Value();
      SettleEntry(c, errors);
      WithinIsBounded(s, Value());
      // The last check of the source, that the new entry has not been evicted, never fails.
      if c !in rules.entries {
        assert false;
      }
    }

    /** Records a load's diagnostics and evicts; the entry that was just published stays. */
    method SettleEntry(c: Command, errors: seq<Message>)
      requires Value().Valid() && Value().Capacity() <= limit && Newest(Value(), c)
      modifies this
      ensures Value().Valid() && limit == old(limit) && Value().Accounted() <= limit && clock == old(clock)
      ensures rules == old(rules).(entries := rules.entries, errors := rules.errors)
      ensures c in old(rules.entries) && c in rules.entries && rules.entries[c] == old(rules.entries)[c]
      ensures forall d :: d in rules.entries ==> d in old(rules.entries) && rules.entries[d] == old(rules.entries)[d]
    {
      hide Total, Sum, Owned, State.Valid, Evicted, State.Floor, State.Capacity, OldestEvicted;
      ghost var before := Value();
      RecordRuleErrors(errors);
      ghost var s := Value();
      assert Newest(s, c);
      EvictToLimit();
      CapacityCovers(s);
      EvictionChangesNoEntry(s, Value());
      EvictionTakesOldestRules(s, Value());
      NewestStays(s, rules.entries, c);
    }

    method PublishEntry(c: Command, bytes: nat, items: nat)
      requires Value().Valid() && Minus(Value().Capacity(), SizeAt(rules.entries, c)) + bytes <= limit
      modifies this`used, this`rules, this`clock
      ensures Value().Valid() && Value() == Published(old(Value()), c, bytes, items)
      ensures Value().Capacity() <= limit
    {
      hide Total, Sum, Owned, State.Valid, State.Capacity;
      PublishedIsValid(Value(), c, bytes, items);
      PublishedFits(Value(), c, bytes, items);
      used := used - SizeAt(rules.entries, c);
      clock := clock + 1;
      rules := rules.(entries := rules.entries[c := Entry(bytes, clock, items)]);
      used := used + bytes;
    }

    // -------------------------------------------------------------------
    // Worker loss, replay reservation and limits
    // -------------------------------------------------------------------

    /** The cache worker is gone; everything it owed is written off. */
    method LoseWorker()
      requires Value().Valid()
      modifies this
      ensures Value().Valid() && Bounded(old(Value()), Value())
      ensures Value() == WorkerForgotten(old(Value()), false).(files := files, snapshot := snapshot, rules := rules)
      ensures files == WorkerForgotten(old(Value()), false).files.(exceeded := false)
      ensures rules == WorkerForgotten(old(Value()), false).rules.(acknowledge := false, catalogDeferred := false, ready := true)
      ensures snapshot.bytes == old(snapshot.bytes) && snapshot.reservation.None? && !snapshot.pending && !snapshot.deferred
      ensures snapshot.unavailable <==> old(snapshot.unavailable) || old(snapshot.pending) || old(snapshot.deferred)
    {
      hide Total, Sum, Owned, State.Valid;
      var lost := snapshot.pending || snapshot.deferred;
      ForgetWorker(false);
      LossMarksAreFree(Value(), snapshot.unavailable || lost);
      snapshot := snapshot.(unavailable := snapshot.unavailable || lost, deferred := false);
      files := files.(exceeded := false);
      rules := rules.(acknowledge := false, catalogDeferred := false, ready := true);
    }

    method SetReplayReservation(bytes: nat)
      requires Value().Valid()
      modifies this
      ensures Value().Valid() && Bounded(old(Value()), Value())
      ensures replay == Min(Min(bytes, MAX_REPLAY_RESERVATION_BYTES), ReplayLimit(old(Value())))
      ensures Evicted(old(Value()).(replay := replay), Value())
      ensures replay > 0 ==> Value().Capacity() <= limit
    {
      hide Total, Sum, Owned, Evicted, State.Floor;
      replay := Min(Min(bytes, MAX_REPLAY_RESERVATION_BYTES), ReplayLimit(Value()));
      hide State.Valid;
      EvictToLimit();
    }

    /** A cleanup owner that outlived its worker has finished. */
    method ReleaseDetached(bytes: nat)
      requires Value().Valid() && bytes <= detached
      modifies this`detached
      ensures Value().Valid() && Bounded(old(Value()), Value())
      ensures detached == old(detached) - bytes
    {
      hide Total, Sum, Owned;
      detached := detached - bytes;
    }

    // -------------------------------------------------------------------
    // Probe diagnostics
    // -------------------------------------------------------------------

    method SetProbeErrors(errors: seq<Message>)
      requires Value().Valid()
      modifies this`used, this`probes
      ensures Value().Valid() && Value() == WithProbeErrors(old(Value()), errors) && probes.errors == errors
    {
      hide Total, Sum, Owned, State.Valid;
      WithProbeErrorsIsValid(Value(), errors);
      var previous := Owned(probes.errors);
      probes := probes.(errors := errors);
      var current := Owned(probes.errors);
      used := used - previous + current;
    }

    method TrimProbeErrors()
      requires Value().Valid()
      modifies this`used, this`probes
      ensures Value().Valid() && Value() == WithProbeErrors(old(Value()), probes.errors)
      ensures Suffix(probes.errors, old(probes.errors))
      ensures Value().Capacity() <= limit || probes.errors == []
      ensures old(Value()).Capacity() <= limit ==> probes.errors == old(probes.errors)
    {
      hide Total, Sum, Owned, State.Valid, WithProbeErrors;
      ghost var s := Value();
      ProbeErrorsTwice(s, s.probes.errors, s.probes.errors);
      while Value().Capacity() > limit && probes.errors != []
        invariant Value().Valid() && limit == s.limit && Value() == WithProbeErrors(s, probes.errors)
        invariant Suffix(probes.errors, s.probes.errors)
        invariant s.Capacity() <= s.limit ==> probes.errors == s.probes.errors
        decreases |probes.errors|
      {
        SuffixStep(probes.errors, s.probes.errors);
        ProbeErrorsTwice(s, probes.errors, probes.errors[1..]);
        SetProbeErrors(probes.errors[1..]);
      }
    }

    /** At most 128 diagnostics and 64 KiB of them are kept. */
    method RecordProbeError(m: Message)
      requires Value().Valid()
      modifies this`used, this`probes
      ensures Value().Valid() && Bounded(old(Value()), Value())
      ensures Value() == WithProbeErrors(old(Value()), probes.errors)
      ensures Mentions(old(probes.errors), m.text) ==> probes.errors == old(probes.errors)
      ensures probes == old(probes).(errors := probes.errors)
      ensures Distinct(old(probes.errors)) ==> Distinct(probes.errors)
      ensures !Mentions(old(probes.errors), m.text) ==>
        exists kept ::
          && KeepsLatest(old(probes.errors), m, kept) && Suffix(probes.errors, kept)
          && (WithProbeErrors(old(Value()), kept).Capacity() <= limit ==> probes.errors == kept)
          && (Value().Capacity() <= limit || probes.errors == [])
      ensures !Mentions(old(probes.errors), m.text) ==>
        |probes.errors| <= MAX_DIAGNOSTICS && Owned(probes.errors) <= MAX_PROBE_DIAGNOSTIC_BYTES
    {
      hide Total, Sum, Owned, State.Valid, Distinct, KeepsLatest, Mentions, State.Capacity, Suffix, WithProbeErrors;
      ghost var s := Value();
      ProbeErrorsTwice(s, s.probes.errors, s.probes.errors);
      if Mentions(probes.errors, m.text) {
        return;
      }
      ghost var kept := AddProbeError(m);
      if Distinct(s.probes.errors) {
        LatestAreDistinct(s.probes.errors, m, kept);
        DistinctSuffix(kept, probes.errors);
      }
    }

    method AddProbeError(m: Message) returns (ghost all: seq<Message>)
      requires Value().Valid()
      modifies this`used, this`probes
      ensures Value().Valid() && Bounded(old(Value()), Value())
      ensures Value() == WithProbeErrors(old(Value()), probes.errors) && probes == old(probes).(errors := probes.errors)
      ensures KeepsLatest(old(probes.errors), m, all) && Suffix(probes.errors, all)
      ensures WithProbeErrors(old(Value()), all).Capacity() <= limit ==> probes.errors == all
      ensures Value().Capacity() <= limit || probes.errors == []
      ensures |probes.errors| <= MAX_DIAGNOSTICS && Owned(probes.errors) <= MAX_PROBE_DIAGNOSTIC_BYTES
    {
      hide Total, Sum, Owned, State.Valid, KeepsLatest;
      ghost var s := Value();
      ProbeErrorsTwice(s, s.probes.errors, s.probes.errors);
      var kept := RoomForDiagnostic(probes.errors, m);
      all := kept;
      SetProbeErrors(kept);
      TrimProbeErrors();
      ProbeErrorsTwice(s, kept, probes.errors);
      WithProbeErrorsIsValid(s, probes.errors);
      OwnedDropped(kept, |kept| - |probes.errors|);
      OwnedNothing();
    }

    // -------------------------------------------------------------------
    // Probes
    // -------------------------------------------------------------------

    method RejectProbe(k: nat, error: Message)
      requires Value().Valid()
      modifies this`used, this`probes
      ensures Value().Valid() && Bounded(old(Value()), Value())
      ensures RefusedProbe(probes, k)
      ensures probes.rejected == if |old(probes.rejected)| < MAX_PROBE_REJECTIONS then old(probes.rejected) + {k} else old(probes.rejected)
      ensures probes.saturated <==> old(probes.saturated) || |old(probes.rejected)| >= MAX_PROBE_REJECTIONS
      ensures probes == old(probes).(rejected := probes.rejected, saturated := probes.saturated, errors := probes.errors)
    {
      hide Total, Sum, Owned, State.Valid;
      ProbeMarksAreFree(Value(), probes.(rejected := probes.rejected + {k}));
      ProbeMarksAreFree(Value(), probes.(saturated := true));
      if |probes.rejected| < MAX_PROBE_REJECTIONS {
        probes := probes.(rejected := probes.rejected + {k});
      } else {
        probes := probes.(saturated := true);
      }
      RecordProbeError(error);
    }

    /** Admits, masks and sends; a request that the queue refuses leaves no trace. */
    method SendProbe(k: nat, bytes: nat, accepted: bool)
      requires Value().Valid() && probeWorker && k !in probes.pending
      modifies this`used, this`probes
      ensures Value().Valid()
      ensures Value() == if accepted then ProbeAdmitted(old(Value()), k, bytes) else old(Value())
    {
      hide Total, Sum, Owned, State.Valid;
      ghost var s := Value();
      ProbeAdmittedIsValid(s, k, bytes);
      RefusedProbeLeavesNoTrace(s, k, bytes);
      used := used + bytes;
      probes := probes.(
        admissions := probes.admissions[(probes.generation, k) := bytes],
        pending := probes.pending + {k},
        masked := true);
      if !accepted {
        FinishProbe(k);
      }
    }

    method FinishProbe(k: nat)
      requires Value().Valid()
      modifies this`used, this`probes
      ensures Value().Valid() && Value().Accounted() <= old(Value()).Accounted()
      ensures Value() == ProbeFinished(old(Value()), k)
      ensures probes.pending == old(probes.pending) - {k} && (probes.generation, k) !in probes.admissions
      ensures probes.generation == old(probes.generation)
    {
      hide Total, Sum, Owned, State.Valid;
      ProbeFinishedIsValid(Value(), k);
      AdmissionFinishedIsValid(Value(), probes.generation, k);
      if (probes.generation, k) in probes.admissions {
        used := used - probes.admissions[(probes.generation, k)];
        probes := probes.(admissions := probes.admissions - {(probes.generation, k)});
      }
      probes := probes.(pending := probes.pending - {k});
      if probes.pending == {} && probes.cancelPending.None? {
        probes := probes.(masked := false);
      }
    }

    /** What eviction never touches of the probes. */
    method EvictForProbe()
      requires Value().Valid()
      modifies this
      ensures Value().Valid() && limit == old(limit) && probeWorker == old(probeWorker)
      ensures Value().Accounted() <= old(Value()).Accounted()
      ensures probes == old(probes).(entries := probes.entries, errors := probes.errors)
      ensures forall k :: k in old(probes.entries) && k in old(Value().ProtectedProbes()) ==>
        k in probes.entries && probes.entries[k] == old(probes.entries)[k]
      ensures forall k :: k in probes.entries ==> k in old(probes.entries) && probes.entries[k] == old(probes.entries)[k]
      ensures ResultFits(old(Value())) <==> Value().Capacity() <= limit && |probes.entries| <= MAX_PROBE_CACHE_ENTRIES
      ensures old(FitsAsItIs(Value())) ==> Value() == old(Value())
      ensures clock == old(clock)
    {
      hide Evicted, Total, Sum, Owned, State.Valid, State.Floor, State.Least;
      ghost var s := Value();
      EvictToLimit();
      EvictionCountsProbes(s, Value());
      EvictionChangesNoEntry(s, Value());
    }

    /** A probe that never fits is refused; one that does not fit now is deferred. */
    method AdmitProbe(k: nat, bytes: nat, error: Message, accepted: bool) returns (deferred: bool)
      requires Value().Valid() && probeWorker && k !in probes.pending && !RefusedProbe(probes, k)
      modifies this
      ensures Value().Valid() && Bounded(old(Value()), Value())
      ensures probes.generation == old(probes.generation) && probeWorker
      ensures probes.pins == old(probes.pins) && probes.recent == old(probes.recent) && probes.failed == old(probes.failed)
      ensures RefusedProbe(probes, k) <==> bytes + MAX_RULE_CONFIGURATION_ACCOUNTED_BYTES > limit
      ensures deferred <==> k !in probes.pending && !RefusedProbe(probes, k)
      ensures deferred ==> !accepted || Value().Capacity() + bytes > limit
      ensures old(FitsAsItIs(Value())) ==>
        (k in probes.pending <==> accepted && old(ProbeFits(Value(), bytes)))
      ensures k in probes.pending ==>
        && probes.pending == old(probes.pending) + {k} && probes.masked
        && probes.admissions == old(probes.admissions)[(probes.generation, k) := bytes]
      ensures k !in probes.pending ==> probes.pending == old(probes.pending) && probes.admissions == old(probes.admissions)
    {
      hide Total, Sum, Owned, State.Valid, State.Floor, Evicted;
      EvictForProbe();
      deferred := false;
      if bytes + MAX_RULE_CONFIGURATION_ACCOUNTED_BYTES > limit {
        RejectProbe(k, error);
      } else if Value().Capacity() + bytes > limit {
        deferred := true;
      } else {
        SendProbe(k, bytes, accepted);
        deferred := !accepted;
      }
    }

    method UseProbe(k: nat)
      requires Value().Valid() && k in probes.entries
      modifies this`clock, this`probes
      ensures Value().Valid() && Value().Accounted() == old(Value()).Accounted()
      ensures clock == old(clock) + 1 && probes == old(probes).(entries := Touched(old(probes.entries), k, clock))
      ensures probes.entries[k].lastUsed == clock
    {
      hide Sum, Owned, UsedBy;
      TotalTouched(probes.entries, k, clock + 1);
      UsedLater(probes.entries, k, probes.entries[k].(lastUsed := clock + 1), clock);
      ClockAdvances(Value());
      clock := clock + 1;
      probes := probes.(entries := Touched(probes.entries, k, clock));
    }

    /** A result that has just arrived is pinned by its first use. */
    method PinRecent(k: nat)
      requires Value().Valid()
      modifies this`probes
      ensures Value().Valid() && Value().Accounted() == old(Value()).Accounted()
      ensures probes == if k in old(probes.recent)
        then old(probes).(recent := old(probes.recent) - {k}, pins := old(probes.pins) + {k}) else old(probes)
    {
      hide Total, Sum, Owned, State.Valid;
      ProbeMarksAreFree(Value(), probes.(recent := probes.recent - {k}, pins := probes.pins + {k}));
      if k in probes.recent {
        probes := probes.(recent := probes.recent - {k}, pins := probes.pins + {k});
      }
    }

    /**
     `found` says that values are returned, which those of a failed probe are not. `started` says whether a missing
     worker could be started, `accepted` whether its queue had room.
     */
    method ProbeValues(k: nat, bytes: nat, error: Message, expired: bool, started: bool, accepted: bool)
      returns (found: bool, pending: bool)
      requires Value().Valid()
      modifies this
      ensures Value().Valid() && Bounded(old(Value()), Value())
      ensures old(RefusedProbe(probes, k)) ==> Value() == old(Value()) && !found && !pending
      ensures probes.generation == old(probes.generation)
      ensures probes.failed == old(probes.failed)
      ensures found ==> k in probes.entries && k !in probes.failed && probes.entries[k].lastUsed == clock
      ensures
        if old(k in probes.entries && !RefusedProbe(probes, k) && (!expired || k in probes.pins || k in probes.recent))
        then (found <==> k !in probes.failed) && probes.pending == old(probes.pending) && (pending <==> k in probes.pending)
        else old(k in probes.entries) ==> !found
      ensures old(probes.pending) <= probes.pending <= old(probes.pending) + {k}
      ensures probes.pending != old(probes.pending) ==> probes.masked && |old(probes.pending)| < MAX_PENDING_PROBES
      ensures !old(RefusedProbe(probes, k)) ==>
        var stale := old(k !in probes.pins && k !in probes.recent && (k !in probes.entries || expired));
        && (pending <==> k in probes.pending || (stale && probeWorker && !RefusedProbe(probes, k)))
        && (stale ==> probeWorker == (old(probeWorker) || started))
        && (old(FitsAsItIs(Value())) ==>
              (k in probes.pending <==>
               old(k in probes.pending) ||
               (stale && probeWorker && accepted && |old(probes.pending)| < MAX_PENDING_PROBES && old(ProbeFits(Value(), bytes)))))
    {
      hide Total, Sum, Owned, State.Valid;
      if RefusedProbe(probes, k) {
        return false, false;
      }
      PinRecent(k);
      var stale := k !in probes.pins && (k !in probes.entries || expired);
      var deferred := false;
      if stale {
        deferred := RefreshProbe(k, bytes, error, started, accepted);
      }
      pending := deferred || k in probes.pending;
      if probes.pending != {} {
        PendingHasWorker(Value());
      }
      found := false;
      if k in probes.entries {
        if !stale {
          UseProbe(k);
          found := k !in probes.failed;
        }
      } else {
        pending := pending && probeWorker;
      }
    }

    method RefreshProbe(k: nat, bytes: nat, error: Message, started: bool, accepted: bool) returns (deferred: bool)
      requires Value().Valid() && !RefusedProbe(probes, k)
      modifies this
      ensures Value().Valid() && Bounded(old(Value()), Value())
      ensures probes.generation == old(probes.generation)
      ensures probes.pins == old(probes.pins) && probes.recent == old(probes.recent) && probes.failed == old(probes.failed)
      ensures old(probes.pending) <= probes.pending <= old(probes.pending) + {k}
      ensures probes.pending != old(probes.pending) ==> probes.masked && |old(probes.pending)| < MAX_PENDING_PROBES
      ensures old(FitsAsItIs(Value())) ==>
        (k in probes.pending <==>
         old(k in probes.pending) ||
         (probeWorker && accepted && |old(probes.pending)| < MAX_PENDING_PROBES && old(ProbeFits(Value(), bytes))))
      ensures probeWorker == (old(probeWorker) || started)
      ensures deferred <==> probeWorker && k !in probes.pending && !RefusedProbe(probes, k)
      ensures RefusedProbe(probes, k) <==>
        probeWorker && old(k !in probes.pending && |probes.pending| < MAX_PENDING_PROBES)
        && bytes + MAX_RULE_CONFIGURATION_ACCOUNTED_BYTES > limit
    {
      hide Total, Sum, Owned, State.Valid;
      StartingIsFree(Value(), started);
      if !probeWorker {
        probeWorker := started;
      }
      deferred := false;
      if k !in probes.pending {
        if |probes.pending| >= MAX_PENDING_PROBES {
          deferred := probeWorker;
        } else if probeWorker {
          deferred := AdmitProbe(k, bytes, error, accepted);
        }
      }
    }

    method CancelProbes()
      requires Value().Valid()
      modifies this`probes
      ensures Value().Valid() && Value().Accounted() == old(Value()).Accounted()
      ensures Value() ==
        if old(probes.pending) == {} && old(probes.cancelPending).None? && !old(probes.masked) then old(Value())
        else ProbesCancelled(old(Value()))
    {
      hide Total, Sum, Owned, State.Valid;
      if probes.pending == {} && probes.cancelPending.None? && !probes.masked {
        return;
      }
      ProbesCancelledIsValid(Value());
      probes := probes.(pending := {}, pins := {}, recent := {});
      if probeWorker {
        probes := probes.(generation := probes.generation + 1);
        probes := probes.(cancelPending := Some(probes.generation));
      } else {
        probes := probes.(cancelPending := None, masked := false);
      }
    }

    /** The worker is gone: its queue is disconnected. */
    method LoseProbeWorker(generation: nat, replacement: bool)
      requires Value().Valid()
      modifies this`used, this`probes, this`probeWorker
      ensures Value().Valid() && Value() == ProbeWorkerGone(old(Value()), Sum(old(probes.admissions)), generation, replacement)
      ensures Value().Accounted() + Sum(old(probes.admissions)) == old(Value()).Accounted()
    {
      hide Total, Sum, Owned, State.Valid;
      ProbeWorkerGoneIsValid(Value(), generation, replacement);
      var bytes := Added(probes.admissions);
      used := used - bytes;
      probeWorker := replacement;
      probes := probes.(pending := {}, admissions := map[], pins := {}, recent := {}, cancelPending := None,
        masked := false, generation := generation);
    }

    /**
     The acknowledgement did not come in time. The bytes of a worker that has not
     finished stay accounted as detached, so the accounts do not shrink under it.
     */
    method ReplaceProbeWorker(finished: bool, restarted: bool)
      requires Value().Valid() && probes.cancelPending.Some?
      modifies this
      ensures Value().Valid() && Bounded(old(Value()), Value())
      ensures detached == old(detached) + if finished then 0 else Sum(old(probes.admissions))
      ensures probes.pending == {} && probes.admissions == map[] && probes.cancelPending.None? && !probes.masked
      ensures probes.generation == 0 && probeWorker == restarted
    {
      hide Total, Sum, Owned, State.Valid;
      DetachProbeWorker(finished, restarted);
      RecordProbeError(Message("probe cancellation acknowledgement timed out; supervisor restarted", 66));
    }

    method DetachProbeWorker(finished: bool, restarted: bool)
      requires Value().Valid()
      modifies this`used, this`probes, this`probeWorker, this`detached
      ensures Value().Valid() && Value().Accounted() <= old(Value()).Accounted()
      ensures detached == old(detached) + if finished then 0 else Sum(old(probes.admissions))
      ensures probes == old(probes).(pending := {}, admissions := map[], pins := {}, recent := {}, cancelPending := None,
        masked := false, generation := 0)
      ensures probeWorker == restarted
    {
      hide Total, Sum, Owned, State.Valid;
      var reservation := Added(probes.admissions);
      LoseProbeWorker(0, restarted);
      if !finished {
        DetachingIsFree(Value(), detached + reservation);
        detached := detached + reservation;
      }
    }

    /** A current result is installed, or refused if it does not fit even after evicting everything else. */
    method ReceiveOutcome(k: nat, generation: nat, bytes: nat, items: nat, error: Option<Message>, refusal: Message)
      returns (installed: bool)
      requires Value().Valid()
      modifies this
      ensures Value().Valid() && Bounded(old(Value()), Value())
      ensures generation != old(probes.generation) ==> !installed && Value() == AdmissionFinished(old(Value()), generation, k)
      ensures generation == old(probes.generation) ==>
        && probes.pending == old(probes.pending) - {k} && (generation, k) !in probes.admissions
        && probes.generation == generation
        && (installed ==>
              && k in probes.entries && probes.entries[k].bytes == bytes && k in probes.recent
              && (k in probes.failed <==> error.Some?)
              && Value().Capacity() <= limit && |probes.entries| <= MAX_PROBE_CACHE_ENTRIES)
        && (!installed ==> k !in probes.entries && k !in probes.recent && RefusedProbe(probes, k))
        && (installed <==> ResultFits(OutcomeInstalled(ProbeFinished(old(Value()), k), k, bytes, items, error.Some?)))
        && (installed ==> clock == old(clock) + 1 && probes.entries[k] == Entry(bytes, clock, items))
    {
      hide Total, Sum, Owned, State.Valid, State.Capacity, OutcomeInstalled, ResultFits, ProbeFinished, WithProbeErrors;
      installed := false;
      if generation != probes.generation {
        FinishOldAdmission(generation, k);
        return;
      }
      FinishProbe(k);
      ghost var s := Value();
      ProbeErrorsTwice(s, s.probes.errors, s.probes.errors);
      if error.Some? {
        RecordProbeError(error.value);
      }
      ErrorsTakeNoRoom(s, probes.errors, k, bytes, items, error.Some?);
      installed := InstallOutcome(k, bytes, items, error.Some?, refusal);
    }

    method FinishOldAdmission(generation: nat, k: nat)
      requires Value().Valid() && generation != probes.generation
      modifies this`used, this`probes
      ensures Value().Valid() && Bounded(old(Value()), Value())
      ensures Value() == AdmissionFinished(old(Value()), generation, k)
    {
      hide Total, Sum, Owned, State.Valid;
      AdmissionFinishedIsValid(Value(), generation, k);
      if (generation, k) in probes.admissions {
        used := used - probes.admissions[(generation, k)];
        probes := probes.(admissions := probes.admissions - {(generation, k)});
      }
    }

    method InstallOutcome(k: nat, bytes: nat, items: nat, failed: bool, refusal: Message) returns (installed: bool)
      requires Value().Valid()
      modifies this
      ensures Value().Valid() && Bounded(old(Value()), Value())
      ensures probes.pending == old(probes.pending) && probes.admissions == old(probes.admissions)
      ensures probes.generation == old(probes.generation)
      ensures installed ==>
        && k in probes.entries && probes.entries[k].bytes == bytes && k in probes.recent
        && (k in probes.failed <==> failed)
        && Value().Capacity() <= limit && |probes.entries| <= MAX_PROBE_CACHE_ENTRIES
      ensures !installed ==> k !in probes.entries && k !in probes.recent && RefusedProbe(probes, k)
      ensures installed <==> ResultFits(OutcomeInstalled(old(Value()), k, bytes, items, failed))
      ensures installed ==> clock == old(clock) + 1 && probes.entries[k] == Entry(bytes, clock, items)
    {
      hide Total, Sum, Owned, State.Valid, ResultFits;
      ghost var before := Value();
      InsertOutcome(k, bytes, items, failed);
      EvictForProbe();
      installed := Value().Capacity() <= limit && |probes.entries| <= MAX_PROBE_CACHE_ENTRIES;
      if installed {
        WithinIsBounded(before, Value());
      } else {
        RemoveOutcome(k);
        ghost var t := Value();
        assert t.Accounted() <= before.Accounted();
        RejectProbe(k, refusal);
        EvictForProbe();
      }
    }

    method InsertOutcome(k: nat, bytes: nat, items: nat, failed: bool)
      requires Value().Valid()
      modifies this`used, this`probes, this`clock
      ensures Value().Valid() && Value() == OutcomeInstalled(old(Value()), k, bytes, items, failed)
      ensures Value().Accounted() <= old(Value()).Accounted() + bytes
    {
      hide Total, Sum, Owned, State.Valid;
      OutcomeInstalledIsValid(Value(), k, bytes, items, failed);
      clock := clock + 1;
      probes := probes.(recent := probes.recent + {k});
      used := used - SizeAt(probes.entries, k);
      probes := probes.(entries := probes.entries[k := Entry(bytes, clock, items)],
        failed := if failed then probes.failed + {k} else probes.failed - {k});
      used := used + bytes;
    }

    method RemoveOutcome(k: nat)
      requires Value().Valid() && k in probes.entries
      modifies this`used, this`probes
      ensures Value().Valid() && Value() == OutcomeRemoved(old(Value()), k)
      ensures Value().Accounted() + old(probes.entries)[k].bytes == old(Value()).Accounted()
    {
      hide Total, Sum, Owned, State.Valid;
      OutcomeRemovedIsValid(Value(), k);
      used := used - probes.entries[k].bytes;
      probes := probes.(entries := probes.entries - {k}, recent := probes.recent - {k}, pins := probes.pins - {k});
    }

    /** The acknowledged generation is not newer than the cache's own, as the probe protocol shows. */
    method ReceiveCancelled(generation: nat)
      requires Value().Valid() && generation <= probes.generation
      modifies this`used, this`probes
      ensures Value().Valid() && Bounded(old(Value()), Value())
      ensures forall p: (nat, nat) :: p in probes.admissions <==> p in old(probes.admissions) && p.0 >= generation
      ensures forall p: (nat, nat) :: p in probes.admissions ==> probes.admissions[p] == old(probes.admissions)[p]
      ensures probes == CancellationAcknowledged(old(probes), generation).(admissions := probes.admissions)
    {
      hide Total, Sum, Owned, State.Valid;
      FinishProbeGeneration(generation);
      AcknowledgementIsFree(Value(), generation);
      if probes.cancelPending == Some(generation) {
        probes := probes.(cancelPending := None);
        if probes.pending == {} {
          probes := probes.(masked := false);
        }
      }
    }

    method FinishProbeGeneration(generation: nat)
      requires Value().Valid() && generation <= probes.generation
      modifies this`used, this`probes
      ensures Value().Valid() && Value().Accounted() <= old(Value()).Accounted()
      ensures forall p: (nat, nat) :: p in probes.admissions <==> p in old(probes.admissions) && p.0 >= generation
      ensures forall p: (nat, nat) :: p in probes.admissions ==> probes.admissions[p] == old(probes.admissions)[p]
      ensures probes == old(probes).(admissions := probes.admissions)
    {
      hide Total, Sum, Owned, State.Valid;
      ghost var s := Value();
      var completed: set<(nat, nat)> := set p | p in probes.admissions && p.0 < generation;
      while completed != {}
        invariant Value().Valid() && used <= s.used
        invariant probes == s.probes.(admissions := probes.admissions)
        invariant forall p: (nat, nat) :: p in completed ==> p in probes.admissions && p.0 < generation
        invariant forall p: (nat, nat) :: p in probes.admissions <==> p in s.probes.admissions && (p.0 >= generation || p in completed)
        invariant forall p: (nat, nat) :: p in probes.admissions ==> probes.admissions[p] == s.probes.admissions[p]
        decreases |completed|
      {
        var p: (nat, nat) :| p in completed;
        completed := completed - {p};
        AdmissionDroppedIsValid(Value(), p);
        used := used - probes.admissions[p];
        probes := probes.(admissions := probes.admissions - {p});
      }
    }

    // -------------------------------------------------------------------
    // Reconfiguration and stopping
    // -------------------------------------------------------------------

    /** A new limit forgets refusals, gives up work sized for the old one, and discovers again. */
    method Reconfigure(newLimit: nat, firstRestart: bool, secondRestart: bool, accepted: bool, thirdRestart: bool)
      requires Value().Valid()
      modifies this
      ensures Value().Valid() && limit == newLimit
      ensures Value().Accounted() <= newLimit || Value().Accounted() <= old(Value()).Floor()
      ensures newLimit == old(limit) ==> Bounded(old(Value()), Value()) && rules.generation == old(rules.generation)
      ensures newLimit != old(limit) ==>
        && rules.generation == old(rules.generation) + 1
        && rules.pending == {} && rules.deferred == {} && rules.chunks == map[]
        && (SnapshotNeverFits(newLimit) ==> snapshot.reservation.None? && snapshot.bytes == 0 && snapshot.unavailable)
      ensures snapshot.bytes == if old(Value()).Least() > newLimit || (newLimit != old(limit) && SnapshotNeverFits(newLimit))
        then 0 else old(snapshot.bytes)
    {
      hide Total, Sum, Owned, State.Valid, State.Floor, Evicted, Suffix, UnderDiscovery, MustRestart, WorkGone, State.Least;
      ghost var s := Value();
      var changed := limit != newLimit;
      ApplyLimit(newLimit);
      EvictNoMore();
      if Value().Capacity() > limit && snapshot.bytes != 0 {
        ClearSnapshotValues();
        EvictNoMore();
      }
      if changed {
        RebaseWork(firstRestart);
        ReviewSnapshot();
        RestartGeneration(secondRestart, accepted, thirdRestart);
      }
    }

    method ApplyLimit(newLimit: nat)
      requires Value().Valid()
      modifies this`limit, this`rules, this`probes
      ensures Value().Valid() && limit == newLimit && Value().Floor() == old(Value()).Floor()
      ensures Value().Least() == old(Value()).Least() && snapshot == old(snapshot)
      ensures newLimit == old(limit) ==> Value() == old(Value())
      ensures newLimit != old(limit) ==>
        && rules == old(rules).(rejected := {}, saturated := false)
        && probes == old(probes).(rejected := {}, saturated := false)
    {
      hide Total, Sum, Owned, State.Valid, State.Floor;
      LimitIsFree(Value(), newLimit);
      if limit != newLimit {
        rules := rules.(rejected := {}, saturated := false);
        probes := probes.(rejected := {}, saturated := false);
      }
      limit := newLimit;
    }

    method RebaseWork(restarted: bool)
      requires Value().Valid()
      modifies this
      ensures Value().Valid() && limit == old(limit) && Value().Accounted() <= old(Value()).Accounted()
      ensures rules.generation == old(rules.generation) && rules.configured == old(rules.configured)
      ensures rules.configuration == old(rules.configuration)
      ensures snapshot.bytes == old(snapshot.bytes)
      ensures if old(MustRestart(Value())) then WorkGone(Value()) && worker == restarted else Value() == old(Value())
    {
      hide Total, Sum, Owned, State.Valid;
      RetainedStore(Value());
      hide State.Capacity, DiscoveryBudget, WorkGone;
      var retained := rules.store > Minus(DiscoveryBudget(Value()), rules.configuration);
      if (Value().Capacity() > limit || retained) && HoldsWork(Value()) {
        RestartWorker(restarted);
      }
    }

    method ReviewSnapshot()
      requires Value().Valid()
      modifies this`used, this`snapshot
      ensures Value().Valid() && Value().Accounted() <= old(Value()).Accounted()
      ensures SnapshotNeverFits(limit) ==> snapshot == old(snapshot).(bytes := 0, pending := false, deferred := false,
        inFlight := None, reservation := None, unavailable := true)
      ensures !SnapshotNeverFits(limit) ==> snapshot == if old(snapshot.unavailable)
        then old(snapshot).(unavailable := false, deferred := worker) else old(snapshot)
    {
      hide Total, Sum, Owned, State.Valid;
      if SnapshotNeverFits(limit) {
        var x := snapshot.(pending := false, deferred := false, inFlight := None, reservation := None, unavailable := true);
        SnapshotMarksAreFree(Value(), x);
        snapshot := x;
        ClearSnapshotValues();
      } else if snapshot.unavailable {
        SnapshotMarksAreFree(Value(), snapshot.(unavailable := false, deferred := worker));
        snapshot := snapshot.(unavailable := false, deferred := worker);
      }
    }

    method RestartGeneration(firstRestart: bool, accepted: bool, secondRestart: bool)
      requires Value().Valid()
      modifies this
      ensures Value().Valid() && Bounded(old(Value()), Value())
      ensures rules.generation == old(rules.generation) + 1
      ensures rules.pending == {} && rules.deferred == {} && rules.chunks == map[]
      ensures SnapshotGone(old(snapshot)) ==> SnapshotGone(snapshot)
      ensures snapshot.bytes == old(snapshot.bytes)
      ensures rules.configured ==>
        && old(rules.configured) && rules.configuration == old(rules.configuration)
        && Suffix(rules.errors, old(rules.errors)) && UnderDiscovery(rules, worker)
    {
      hide Total, Sum, Owned, State.Valid, Suffix, State.Least, Reconfigured, DiscoversAtOnce, HoldsWork;
      if rules.configured {
        ConfigurationFits(Value());
        ConfigureRules(rules.configuration, false, firstRestart, accepted, secondRestart);
      } else {
        RuleMarksAreFree(Value(), rules.(generation := rules.generation + 1));
        rules := rules.(generation := rules.generation + 1);
        ClearRuleRequests();
        ClearPendingRuleChunks();
      }
    }

    /** `finished` says whether the probe worker had already ended. */
    method Stop(finished: bool)
      requires Value().Valid()
      modifies this
      ensures Value().Valid() && Bounded(old(Value()), Value())
      ensures !worker && !probeWorker && replay == 0
      ensures rules.store == 0 && rules.load.None? && rules.catalog.None? && snapshot == old(snapshot).(reservation := None)
      ensures rules.pending == {} && rules.chunks == map[]
      ensures probes.pending == {} && probes.admissions == map[] && !probes.masked
      ensures detached == old(detached) + if finished then 0 else Sum(old(probes.admissions))
    {
      hide Total, Sum, Owned, State.Valid;
      var reservation := Added(probes.admissions);
      var before := snapshot;
      ForgetWorker(false);
      SnapshotMarksAreFree(Value(), before.(reservation := None));
      snapshot := before.(reservation := None);
      StoppingIsFree(Value());
      replay := 0;
      files := files.(exceeded := false);
      LoseProbeWorker(probes.generation, false);
      if !finished {
        DetachingIsFree(Value(), detached + reservation);
        detached := detached + reservation;
      }
    }

    // -------------------------------------------------------------------
    // Runs
    // -------------------------------------------------------------------

    method PerformFile(e: Event)
      requires Value().Valid() && OfFiles(e)
      modifies this
      ensures Value().Valid() && (KeepsLimit(old(Value()), e) ==> Bounded(old(Value()), Value()))
      ensures !KeepsLimit(old(Value()), e) ==> limit == old(limit) && Value().Accounted() > limit
      ensures e.CancelledReplays? ==> files.generation == old(files.generation) + 1 && files.pins == {} && files.pending == {}
      ensures e.FinishedReplay? ==> files.generation == old(files.generation) && files.pins == {} && probes.pins == {}
      ensures e.LoadedSnapshots? ==> snapshot.generation == old(snapshot.generation) + 1
      ensures e.RetriedSnapshot? ==> snapshot.generation == old(snapshot.generation)
    {
      hide Total, Sum, Owned, State.Valid, State.Floor, Evicted, State.Accounted;
      match e {
        case ScanReply(k, bytes, items) => var _ := ReceiveScan(k, bytes, items);
        case UsedDirectory(k) => var _ := UseDirectory(k);
        case RefreshedDirectory(stale) => DropDirectories(stale);
        case AskedFilesystem(k, expired, accepted) => var _, _, _ := FilesystemValues(k, expired, accepted);
        case FilesystemReply(k, g, bytes, items) =>
          ghost var s := Value();
          var _ := ReceiveFilesystem(k, g, bytes, items);
          if Value().Accounted() <= s.limit {
            WithinIsBounded(s, Value());
          }
        case CancelledReplays => CancelFilesystemReplays();
        case FinishedReplay => FinishDynamicReplay();
        case LoadedSnapshots(accepted) => LoadSnapshots(accepted);
        case RetriedSnapshot(accepted) => var _ := RetrySnapshot(accepted);
        case SnapshotReply(g, bytes) => var _ := ReceiveSnapshots(g, bytes);
        case ReservedReplay(bytes) => SetReplayReservation(bytes);
        case _ => assert false;
      }
    }

    method PerformRule(e: Event)
      requires Value().Valid() && Possible(Value(), e) && OfRules(e)
      modifies this
      ensures Value().Valid() && Bounded(old(Value()), Value())
      ensures e.Configured? ==> rules.generation == old(rules.generation) + 1 && NothingLoaded(rules)
      ensures e.Acknowledged? ==> Value() == old(Value()).(rules := old(rules).(acknowledge := false))
      ensures e.LostWorker? ==> !worker && rules.pending == {}
    {
      hide Total, Sum, Owned, State.Valid, State.Floor, Evicted, State.Accounted, Suffix, UnderDiscovery, Verdict, OthersUntouched, ReportsCut, State.Capacity;
      match e {
        case Configured(paths, keys, first, accepted, second) => ConfigureRulePaths(paths, keys, first, accepted, second);
        case CatalogReply(g, bytes) => ReceiveCatalog(g, bytes);
        case AskedRules(c, accepted, restarted, retry, load) => var _, _ := RulePrograms(c, accepted, restarted, retry, load);
        case RetriedRules(accepted, restarted, load) => RetryDeferredRules(accepted, restarted, load);
        case RulesAnswer(reply, spare, combined) => var _ := ReceiveRules(reply, spare, combined);
        case Acknowledged => AcknowledgeRuleChunk();
        case LostWorker => LoseWorker();
        case _ => assert false;
      }
    }

    method PerformProbe(e: Event)
      requires Value().Valid() && Possible(Value(), e) && OfProbes(e)
      modifies this
      ensures Value().Valid() && Bounded(old(Value()), Value())
      ensures e.LostProbeWorker? || e.Stopped? ==> !probeWorker && probes.pending == {} && probes.admissions == map[]
      ensures e.ReplacedProbeWorker? ==> probeWorker == e.restarted && probes.pending == {}
    {
      hide Total, Sum, Owned, State.Valid, State.Floor, Evicted, State.Accounted;
      match e {
        case AskedProbe(k, bytes, error, expired, started, accepted) =>
          var _, _ := ProbeValues(k, bytes, error, expired, started, accepted);
        case CancelledProbes => CancelProbes();
        case ProbeReply(k, g, bytes, items, error, refusal) => var _ := ReceiveOutcome(k, g, bytes, items, error, refusal);
        case CancelReply(g) => ReceiveCancelled(g);
        case ReplacedProbeWorker(finished, restarted) => ReplaceProbeWorker(finished, restarted);
        case LostProbeWorker =>
          ghost var s := Value();
          LoseProbeWorker(probes.generation, false);
          LessIsBounded(s, Value());
        case FinishedCleanup(bytes) => ReleaseDetached(bytes);
        case Stopped(finished) => Stop(finished);
        case _ => assert false;
      }
    }

    /** One step; an event that the workers cannot produce in this state does not happen. */
    method Perform(e: Event)
      requires Value().Valid()
      modifies this
      ensures Value().Valid()
      ensures KeepsLimit(old(Value()), e) ==> Bounded(old(Value()), Value())
      ensures e.FilesystemReply? && !KeepsLimit(old(Value()), e) ==> Value().Accounted() > limit == old(limit)
    {
      hide Total, Sum, Owned, State.Valid, State.Floor, Evicted, State.Accounted;
      if !Possible(Value(), e) {
        BoundedItself(Value());
      } else if OfFiles(e) {
        PerformFile(e);
      } else if OfRules(e) {
        PerformRule(e);
      } else if OfProbes(e) {
        PerformProbe(e);
      } else {
        Reconfigure(e.limit, e.first, e.second, e.accepted, e.third);
      }
    }

    /**
     Over a whole run the counter is what it stands for in every state, and while no
     step changes the limit or refreshes a pinned key beyond it, the accounts stay within it.
     */
    method Run(events: seq<Event>) returns (ghost states: seq<State>)
      requires Value().Valid()
      modifies this
      ensures |states| == |events| + 1 && states[0] == old(Value()) && states[|events|] == Value()
      ensures forall i :: 0 <= i < |states| ==> states[i].used == states[i].Footprint()
      ensures forall i :: 0 <= i < |states| ==>
        old(Value()).Accounted() <= old(limit) && (forall j :: 0 <= j < i ==> KeepsLimit(states[j], events[j])) ==>
        states[i].limit == old(limit) && states[i].Accounted() <= old(limit)
    {
      hide Total, Sum, Owned, State.Accounted, State.Footprint, KeepsLimit, Possible;
      ghost var start := Value();
      states := [start];
      for n := 0 to |events|
        invariant Value().Valid() && |states| == n + 1 && states[n] == Value() && states[0] == start
        invariant forall i :: 0 <= i <= n ==> states[i].used == states[i].Footprint()
        invariant forall i :: 0 <= i <= n ==>
          start.Accounted() <= start.limit && (forall j :: 0 <= j < i ==> KeepsLimit(states[j], events[j])) ==>
          states[i].limit == start.limit && states[i].Accounted() <= start.limit
      {
        ghost var before := states;
        Perform(events[n]);
        states := states + [Value()];
        assert forall i :: 0 <= i <= n ==> states[i] == before[i];
        assert Value().used == Value().Footprint();
      }
    }
  }

  // ---------------------------------------------------------------------
  // The exception
  // ---------------------------------------------------------------------

  /** The smallest limit that can be configured. */
  const MIN_LIMIT: nat := 1024 * 1024

  /** A new cache that has asked for one key. */
  predicate JustAsked(s: State) {
    && s == Initial(MIN_LIMIT, true).(used := s.used, clock := s.clock, files := s.files)
    && s.files == Files(map[], map[], {}, {0}, false, 0) && s.used == 0
  }

  lemma SmallAnswerFits(s: State)
    requires JustAsked(s)
    ensures var t := FilesystemInstalled(s, 0, 100, 1);
      && FitsAsItIs(t) && t.limit == MIN_LIMIT && t.worker
      && t.files.generation == 0 && t.files.filesystem.Keys == {0} && |t.files.filesystem| == 1
      && t.files.pending == {} && t.files.pins == {} && !t.files.exceeded
  {
    var t := FilesystemInstalled(s, 0, 100, 1);
    var m := map[0 := Entry(100, s.clock + 1, 1)];
    OneEntry(m);
    assert t == s.(clock := s.clock + 1, used := 100, files := s.files.(pending := t.files.pending, filesystem := m));
    hide FilesystemInstalled, Touched;
    assert t.Capacity() == 100 + MAX_RULE_CONFIGURATION_ACCOUNTED_BYTES + MAX_RULE_ADMISSION_BYTES;
    hide State.Capacity;
  }

  lemma OneEntry(m: map<nat, Entry>)
    requires m.Keys == {0}
    ensures |m| == 1
  {
    assert |m| == |m.Keys|;
  }

  lemma NothingUsed(s: State)
    requires s.Valid() && s.Accounted() == 0
    ensures s.used == 0 && s.files.pins <= s.files.filesystem.Keys
  {
  }

  method OneAsked() returns (c: CompletionCache)
    ensures fresh(c) && c.Value().Valid() && JustAsked(c.Value())
  {
    hide Total, Sum, Owned, State.Valid, State.Floor, State.Accounted;
    c := new CompletionCache(MIN_LIMIT, true);
    var values, pending, exceeded := c.FilesystemValues(0, true, true);
    NothingUsed(c.Value());
    assert c.files.pending == {0} && c.files.filesystem == map[] && c.files.pins == {};
  }

  method OneAnswered() returns (c: CompletionCache)
    ensures fresh(c) && c.Value().Valid() && c.limit == MIN_LIMIT && c.worker
    ensures c.files.generation == 0 && c.files.filesystem.Keys == {0} && |c.files.filesystem| == 1
    ensures c.files.pending == {} && c.files.pins == {} && !c.files.exceeded
  {
    hide Total, Sum, Owned, State.Valid, State.Floor, Evicted, FilesystemInstalled, Bounded, State.Accounted, FitsAsItIs, JustAsked;
    c := OneAsked();
    SmallAnswerFits(c.Value());
    assert c.files.generation == 0 by { AskedIsCurrent(c.Value()); }
    var stored := c.ReceiveFilesystem(0, 0, 100, 1);
  }

  lemma AskedIsCurrent(s: State)
    requires JustAsked(s)
    ensures s.files.generation == 0
  {
  }

  /** The answer has expired, so the key is asked for again, and used meanwhile. */
  method PinnedWhilePending() returns (c: CompletionCache)
    ensures fresh(c) && c.Value().Valid() && c.limit == MIN_LIMIT
    ensures c.files.generation == 0 && 0 in c.files.pins && 0 in c.files.pending
  {
    hide Total, Sum, Owned, State.Valid, State.Floor;
    c := OneAnswered();
    var values, pending, exceeded := c.FilesystemValues(0, true, true);
  }

  /** The exception is real: a key that is pinned while a request for it is pending is refreshed with a large answer. */
  method PinnedRefreshOvershoots() returns (c: CompletionCache)
    ensures c.Value().Valid() && c.limit == MIN_LIMIT && c.Value().Accounted() > c.limit
  {
    hide Total, Sum, Owned, State.Valid, State.Floor, Evicted;
    c := PinnedWhilePending();
    FloorHoldsPinned(c.Value(), 0);
    var stored := c.ReceiveFilesystem(0, 0, MIN_LIMIT + 1, 1);
  }

  // ---------------------------------------------------------------------
  // A load without a budget
  // ---------------------------------------------------------------------

  lemma InitialAdmits(c: Command, limit: nat)
    requires |c| < MAX_RULE_LOOKUP_BYTES && limit >= MIN_LIMIT
    ensures var s := Initial(limit, true);
      && AdmittedAsIs(s, c) && NewRequest(s.rules, s.snapshot, c) && !Refused(s.rules, c) && !s.rules.catalogDeferred
      && s.rules.ready && c !in s.rules.entries && s.rules.deferred == {} && s.worker
      && Started(RequestAdmitted(s, c), c, false) == Waiting(c, limit)
  {
  }

  /**
   For every limit that can be configured, and every command below the longest: a
   full queue defers its request, a scan fills the cache, and the retry sends the
   load with nothing to spend. Cancelling it then needs more than the limit.
   */
  method ZeroBudgetLoad(command: Command, limit: nat) returns (c: CompletionCache)
    requires 0 < |command| < MAX_RULE_LOOKUP_BYTES && limit >= MIN_LIMIT
    ensures c.Value().Valid() && c.limit == limit
    ensures c.rules.load == Some(Reservation(c.rules.generation, 0)) && c.rules.pending == {command}
    ensures Cancelled(c.Value()).Capacity() > limit
  {
    hide State.Valid, State.Capacity, State.WithinCounts, State.Accounted, Initial, AdmittedAsIs, NewRequest, Waiting, Crowded,
      Started, DeferredSent, RequestAdmitted, DirectoryInstalled, Deferred, Evicted, Bounded, Cancelled, Rules.Admissions;
    InitialAdmits(command, limit);
    c := new CompletionCache(limit, true);
    var programs, pending := c.RulePrograms(command, true, true, true, false);
    CrowdedIsFull(command, limit);
    CrowdedIsInstalled(command, limit);
    var installed := c.ReceiveScan(0, Spare(command, limit), 1);
    c.RetryDeferredRules(true, true, true);
    ZeroBudgetOvershoots(command, limit);
  }

  // ---------------------------------------------------------------------
  // A first configuration
  // ---------------------------------------------------------------------

  lemma FirstDiscovery(bytes: nat, limit: nat)
    requires bytes <= MAX_RULE_CONFIGURATION_ACCOUNTED_BYTES
    requires MAX_RULE_CONFIGURATION_ACCOUNTED_BYTES + MAX_RULE_ADMISSION_BYTES + bytes <= limit
    ensures var s := Initial(limit, true);
      !HoldsWork(s) && s.rules.generation == 0 && s.limit == limit && DiscoversAtOnce(Reconfigured(s, bytes))
  {
    var s := Initial(limit, true);
    SumOfNothing(s.rules.Admissions());
    SumOfNothing(s.rules.ChunkSizes());
    SumOfNothing(Sizes(s.rules.entries));
    hide Sum;
    assert Reconfigured(s, bytes).used == bytes;
  }

  /** From a new cache: a configuration that can fit at all is kept, and its discovery is sent at once. */
  method FirstConfiguration(bytes: nat, limit: nat) returns (c: CompletionCache)
    requires bytes <= MAX_RULE_CONFIGURATION_ACCOUNTED_BYTES
    requires MAX_RULE_CONFIGURATION_ACCOUNTED_BYTES + MAX_RULE_ADMISSION_BYTES + bytes <= limit
    ensures c.Value().Valid() && c.Value().Accounted() <= limit && c.rules.configured && c.rules.configuration == bytes
    ensures c.rules.generation == 1 && c.rules.catalog.Some?
  {
    hide State.Valid, State.Accounted, State.Capacity, State.Least, Initial, Reconfigured, DiscoversAtOnce, HoldsWork, Suffix;
    FirstDiscovery(bytes, limit);
    c := new CompletionCache(limit, true);
    c.ConfigureRules(bytes, false, true, true, true);
  }

  // ---------------------------------------------------------------------
  // A first snapshot
  // ---------------------------------------------------------------------

  lemma FirstSnapshotLoads(limit: nat)
    requires limit >= MAX_SNAPSHOT_LOAD_RESERVATION_BYTES + MAX_RULE_CONFIGURATION_ACCOUNTED_BYTES + MAX_RULE_ADMISSION_BYTES
    ensures var s := Initial(limit, true);
      && SnapshotLoads(s) && s.limit == limit && s.snapshot.generation == 0 && s.snapshot.bytes == 0
  {
  }

  lemma FirstSnapshotFits(limit: nat, x: Snapshot, bytes: nat)
    requires x.reservation.None? && x.bytes == 0
    requires MAX_RULE_CONFIGURATION_ACCOUNTED_BYTES + MAX_RULE_ADMISSION_BYTES + bytes <= limit
    ensures SnapshotFits(Initial(limit, true).(snapshot := x), bytes)
  {
    var s := Initial(limit, true).(snapshot := x);
    FloorIsBelow(s);
    assert s.Accounted() == 0;
    hide State.Floor, State.Accounted;
  }

  /** From a new cache: a load is asked for at the smallest limit that can hold it, and its snapshot is installed if it fits. */
  method FirstSnapshot(limit: nat, bytes: nat) returns (c: CompletionCache, installed: bool)
    requires limit >= MAX_SNAPSHOT_LOAD_RESERVATION_BYTES + MAX_RULE_CONFIGURATION_ACCOUNTED_BYTES + MAX_RULE_ADMISSION_BYTES
    requires MAX_RULE_CONFIGURATION_ACCOUNTED_BYTES + MAX_RULE_ADMISSION_BYTES + bytes <= limit
    ensures installed && c.Value().Valid() && c.Value().Accounted() <= limit
    ensures c.snapshot.bytes == bytes && c.snapshot.reservation.None? && !c.snapshot.pending
  {
    hide State.Valid, State.Accounted, State.Capacity, State.Least, State.Floor, Initial, SnapshotLoads, SnapshotFits, Evicted;
    FirstSnapshotLoads(limit);
    c := new CompletionCache(limit, true);
    c.LoadSnapshots(true);
    FirstSnapshotFits(limit, SnapshotAnswered(c.snapshot, 1), bytes);
    installed := c.ReceiveSnapshots(1, bytes);
  }

  // ---------------------------------------------------------------------
  // A load that is published
  // ---------------------------------------------------------------------

  /** What a program list may take up in a cache that holds nothing else. */
  function RoomForPrograms(limit: nat): nat {
    Min(Minus(limit, MAX_RULE_CONFIGURATION_ACCOUNTED_BYTES + MAX_RULE_ADMISSION_BYTES), MAX_RULE_BYTES)
  }

  /** A new cache that has sent the load of one command. */
  function JustSent(c: Command, limit: nat): State {
    Started(RequestAdmitted(Initial(limit, true), c), c, true)
  }

  lemma JustSentIsCurrent(c: Command, limit: nat)
    requires |c| < MAX_RULE_LOOKUP_BYTES && limit >= MIN_LIMIT
    ensures var s := JustSent(c, limit);
      && s.limit == limit && s.rules.generation == 0 && !Refused(s.rules, c)
      && s.rules.entries == map[] && s.rules.chunks == map[] && s.rules.pending == {c}
      && s.rules.load.Some? && s.rules.load.value.generation == 0
      && s.Accounted() <= limit && s.Accounted() == AdmissionBytes(c) + s.rules.load.value.bytes
  {
    var t := RequestAdmitted(Initial(limit, true), c);
    assert LoadBudget(t) <= limit - t.Accounted();
    hide LoadBudget;
  }

  lemma FirstReplyFits(c: Command, limit: nat, reply: RulesReply, spareBytes: nat, combinedBytes: nat)
    requires |c| < MAX_RULE_LOOKUP_BYTES && limit >= MIN_LIMIT
    requires reply.command == c && reply.generation == 0 && reply.complete && reply.programs <= MAX_RULE_CACHE_ENTRIES
    requires reply.errors == [] && Chunks(reply.programs, reply.bytes, spareBytes, []).Bytes(c) <= RoomForPrograms(limit)
    requires combinedBytes <= RoomForPrograms(limit)
    ensures Verdict(JustSent(c, limit), reply, spareBytes, combinedBytes) == PublishedReply
  {
    var s := JustSent(c, limit);
    JustSentIsCurrent(c, limit);
    assert Extended(StagedFor(s.rules, c), reply, spareBytes) == Chunks(reply.programs, reply.bytes, spareBytes, []);
    hide JustSent, State.Accounted, Chunks.Bytes, Initial, Extended;
  }

  /** From a new cache: ask, send, and a complete reply that fits is published with all its programs. */
  method FirstLoad(command: Command, limit: nat, reply: RulesReply, spareBytes: nat, combinedBytes: nat)
    returns (c: CompletionCache, outcome: RulesOutcome)
    requires 0 < |command| < MAX_RULE_LOOKUP_BYTES && limit >= MIN_LIMIT
    requires reply.command == command && reply.generation == 0 && reply.complete && !reply.rejected
    requires reply.programs <= MAX_RULE_CACHE_ENTRIES && reply.errors == []
    requires Chunks(reply.programs, reply.bytes, spareBytes, []).Bytes(command) <= RoomForPrograms(limit)
    requires combinedBytes <= RoomForPrograms(limit)
    ensures outcome == PublishedReply && c.Value().Valid() && c.Value().Accounted() <= limit
    ensures c.rules.entries == map[command := Entry(combinedBytes, c.clock, reply.programs)]
    ensures c.rules.pending == {} && c.rules.load.None? && c.rules.acknowledge && !Refused(c.rules, command)
  {
    hide State.Valid, State.Capacity, State.WithinCounts, State.Accounted, Initial, AdmittedAsIs, NewRequest, Started,
      RequestAdmitted, Verdict, Chunks.Bytes, RoomForPrograms;
    InitialAdmits(command, limit);
    c := new CompletionCache(limit, true);
    var programs, pending := c.RulePrograms(command, true, true, true, true);
    assert c.Value() == JustSent(command, limit);
    JustSentIsCurrent(command, limit);
    FirstReplyFits(command, limit, reply, spareBytes, combinedBytes);
    hide JustSent;
    outcome := c.ReceiveRules(reply, spareBytes, combinedBytes);
    assert c.rules.pending - {command} == {} && forall d :: d in c.rules.entries ==> d == command;
  }
}
