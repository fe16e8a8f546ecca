/**
 The changes of the completion cache other than eviction, each with its effect
 on the accounts. Wherever a count is taken off the counter, the counter is
 shown to hold it, so the stopping subtraction never stops early.
 */
module CacheSteps {
  import opened Wrappers
  import opened LruMaps
  import opened CacheState

  /** A step that keeps the limit: the accounts are within it, or have not grown. */
  predicate Bounded(s: State, t: State) {
    t.limit == s.limit && (t.Accounted() <= s.limit || t.Accounted() <= s.Accounted())
  }

  lemma BoundedTwice(s: State, t: State, u: State)
    requires Bounded(s, t) && Bounded(t, u)
    ensures Bounded(s, u)
  {
  }

  // ---------------------------------------------------------------------
  // Directory scans and resolved filesystem requests
  // ---------------------------------------------------------------------

  function SizeAt<K(!new, ==)>(m: map<K, Entry>, k: K): nat {
    if k in m then m[k].bytes else 0
  }

  function DirectoryInstalled(s: State, k: nat, bytes: nat, items: nat): State {
    s.(clock := s.clock + 1,
       used := Minus(s.used, SizeAt(s.files.directories, k)) + bytes,
       files := s.files.(directories := s.files.directories[k := Entry(bytes, s.clock + 1, items)]))
  }

  lemma DirectoryInstalledIsValid(s: State, k: nat, bytes: nat, items: nat)
    requires s.Valid()
    ensures var t := DirectoryInstalled(s, k, bytes, items);
      && t.Valid() && SizeAt(s.files.directories, k) <= s.used
      && t.Floor() <= s.Accounted()
  {
    hide Sum, Owned, Pinned;
    ClockAdvances(s);
    UsedLater(s.files.directories, k, Entry(bytes, s.clock + 1, items), s.clock);
    TotalUpdated(s.files.directories, k, Entry(bytes, s.clock + 1, items));
    FloorIsBelow(s);
    hide UsedBy, Total;
  }

  /** `pending` loses the key, whose answer has come. */
  function FilesystemInstalled(s: State, k: nat, bytes: nat, items: nat): State {
    s.(clock := s.clock + 1,
       used := Minus(s.used, SizeAt(s.files.filesystem, k)) + bytes,
       files := s.files.(
         pending := s.files.pending - {k},
         filesystem := s.files.filesystem[k := Entry(bytes, s.clock + 1, items)]))
  }

  lemma PinnedAfterRefresh(m: map<nat, Entry>, pins: set<nat>, k: nat, e: Entry)
    requires k in pins && k in m
    ensures Total(Pinned(m[k := e], pins)) == Total(Pinned(m, pins)) - m[k].bytes + e.bytes
  {
    assert Pinned(m[k := e], pins) == Pinned(m, pins)[k := e];
    TotalUpdated(Pinned(m, pins), k, e);
  }

  lemma FilesystemInstalledIsValid(s: State, k: nat, bytes: nat, items: nat)
    requires s.Valid()
    ensures var t := FilesystemInstalled(s, k, bytes, items);
      && t.Valid() && SizeAt(s.files.filesystem, k) <= s.used && s.files.pins <= s.files.filesystem.Keys
      && t.Accounted() + SizeAt(s.files.filesystem, k) == s.Accounted() + bytes
  {
    ClockAdvances(s);
    UsedLater(s.files.filesystem, k, Entry(bytes, s.clock + 1, items), s.clock);
    TotalUpdated(s.files.filesystem, k, Entry(bytes, s.clock + 1, items));
    hide UsedBy, Sum, Owned, Total;
  }

  lemma FilesystemInstalledFloor(s: State, k: nat, bytes: nat, items: nat)
    requires s.Valid()
    ensures var t := FilesystemInstalled(s, k, bytes, items);
      && (k !in s.files.pins ==> t.Floor() <= s.Accounted())
      && (k in s.files.pins ==> k in s.files.filesystem && t.Floor() == s.Floor() - s.files.filesystem[k].bytes + bytes)
  {
    var e := Entry(bytes, s.clock + 1, items);
    FilesystemInstalledIsValid(s, k, bytes, items);
    TotalUpdated(s.files.filesystem, k, e);
    FloorIsBelow(s);
    if k in s.files.pins {
      PinnedAfterRefresh(s.files.filesystem, s.files.pins, k, e);
    } else {
      PinnedAfterUpdate(s.files.filesystem, s.files.pins, k, e);
    }
    hide State.Valid, Total, Sum, Owned, Pinned;
  }

  lemma ClockAdvances(s: State)
    requires s.Valid()
    ensures s.(clock := s.clock + 1).Recent()
  {
  }

  /** Using an entry. */
  function Touched<K(!new, ==)>(m: map<K, Entry>, k: K, clock: nat): map<K, Entry>
    requires k in m
  {
    m[k := m[k].(lastUsed := clock)]
  }

  function FilesystemAwaits(s: State, pending: set<nat>): State {
    s.(files := s.files.(pending := pending))
  }

  function FilesystemExceeded(s: State): State {
    s.(files := s.files.(exceeded := true))
  }

  function ReplaysCancelled(s: State): State {
    s.(files := s.files.(generation := s.files.generation + 1, pending := {}, pins := {}, exceeded := false))
  }

  function ReplayFinished(s: State): State {
    s.(files := s.files.(pins := {}), probes := s.probes.(pins := {}))
  }

  lemma FilesystemMarksAreFree(s: State, pending: set<nat>)
    requires s.Valid()
    ensures FilesystemAwaits(s, pending).Valid() && FilesystemExceeded(s).Valid()
    ensures ReplaysCancelled(s).Valid() && ReplayFinished(s).Valid()
    ensures ReplaysCancelled(s).Accounted() == s.Accounted() == ReplayFinished(s).Accounted()
  {
    hide Total, Sum, Owned;
  }

  lemma FilesystemArrived(s: State, t: State, u: State, k: nat, bytes: nat)
    requires s.Valid() && u.limit == s.limit
    requires k !in s.files.pins ==> t.Floor() <= s.Accounted()
    requires k in s.files.pins ==> k in s.files.filesystem && t.Floor() == s.Floor() - s.files.filesystem[k].bytes + bytes
    requires t.Floor() <= u.Accounted() && (u.Accounted() <= s.limit || u.Accounted() == t.Floor())
    ensures k !in s.files.pins ==> Bounded(s, u)
    ensures k in s.files.pins ==>
      (u.Accounted() <= s.limit <==> s.Floor() - s.files.filesystem[k].bytes + bytes <= s.limit)
  {
    hide State.Floor, State.Valid;
  }

  /** Reading a resolved request pins it, unless too many others are pinned. */
  function FilesystemUsed(s: State, k: nat): State
    requires k in s.files.filesystem
  {
    var pinned := |s.files.pins| < MAX_FILESYSTEM_CACHE_ENTRIES || k in s.files.pins;
    s.(clock := s.clock + 1,
       files := s.files.(
         filesystem := Touched(s.files.filesystem, k, s.clock + 1),
         pins := if pinned then s.files.pins + {k} else s.files.pins))
  }

  lemma FilesystemUsedIsValid(s: State, k: nat)
    requires s.Valid() && k in s.files.filesystem
    ensures FilesystemUsed(s, k).Valid()
  {
    TotalTouched(s.files.filesystem, k, s.clock + 1);
    UsedLater(s.files.filesystem, k, s.files.filesystem[k].(lastUsed := s.clock + 1), s.clock);
    ClockAdvances(s);
    hide Total, Sum, Owned, UsedBy;
  }

  lemma DirectoryUsedIsValid(s: State, k: nat)
    requires s.Valid() && k in s.files.directories
    ensures s.(clock := s.clock + 1,
      files := s.files.(directories := Touched(s.files.directories, k, s.clock + 1))).Valid()
  {
    TotalTouched(s.files.directories, k, s.clock + 1);
    UsedLater(s.files.directories, k, s.files.directories[k].(lastUsed := s.clock + 1), s.clock);
    ClockAdvances(s);
    hide Total, Sum, Owned, UsedBy;
  }

  // ---------------------------------------------------------------------
  // Snapshot
  // ---------------------------------------------------------------------

  function SnapshotCleared(s: State): State {
    s.(used := Minus(s.used, s.snapshot.bytes), snapshot := s.snapshot.(bytes := 0))
  }

  function SnapshotInstalled(s: State, bytes: nat): State {
    s.(used := Minus(s.used, s.snapshot.bytes) + bytes, snapshot := s.snapshot.(bytes := bytes, unavailable := false))
  }

  lemma SnapshotChanges(s: State, bytes: nat)
    requires s.Valid()
    ensures s.snapshot.bytes <= s.used
    ensures SnapshotCleared(s).Valid() && SnapshotInstalled(s, bytes).Valid()
    ensures SnapshotCleared(s).Accounted() + s.snapshot.bytes == s.Accounted()
    ensures SnapshotInstalled(s, bytes).Accounted() + s.snapshot.bytes == s.Accounted() + bytes
  {
    hide Total, Sum, Owned;
  }

  lemma SnapshotMarksAreFree(s: State, x: Snapshot)
    requires s.Valid() && x.bytes == s.snapshot.bytes
    ensures s.(snapshot := x).Valid()
  {
    hide Total, Sum, Owned;
  }

  /** No eviction can ever make room for loading a snapshot. */
  predicate SnapshotNeverFits(limit: nat) {
    MAX_SNAPSHOT_LOAD_RESERVATION_BYTES + MAX_RULE_CONFIGURATION_ACCOUNTED_BYTES + MAX_RULE_ADMISSION_BYTES > limit
  }

  /** The reply's reservation and in-flight mark are released if they are its own. */
  function SnapshotAnswered(x: Snapshot, generation: nat): Snapshot {
    var released := x.reservation.Some? && x.reservation.value.generation == generation;
    var arrived := x.inFlight == Some(generation);
    x.(reservation := if released then None else x.reservation,
       pending := if arrived then false else x.pending,
       inFlight := if arrived then None else x.inFlight)
  }

  // ---------------------------------------------------------------------
  // Rules
  // ---------------------------------------------------------------------

  lemma AdmissionsWithout(r: Rules, c: Command)
    ensures r.(pending := r.pending - {c}).Admissions() == r.Admissions() - {c}
    ensures c in r.pending ==>
      Sum(r.Admissions()) == AdmissionBytes(c) + Sum(r.(pending := r.pending - {c}).Admissions())
    ensures c !in r.pending ==> r.(pending := r.pending - {c}).Admissions() == r.Admissions()
  {
    if c in r.pending {
      SumWithout(r.Admissions(), c);
    }
  }

  /** One command's request ends and gives its admission back. */
  function RequestFinished(s: State, c: Command): State {
    s.(used := if c in s.rules.pending then Minus(s.used, AdmissionBytes(c)) else s.used,
       rules := s.rules.(pending := s.rules.pending - {c}, deferred := s.rules.deferred - {c}))
  }

  lemma RequestFinishedIsValid(s: State, c: Command)
    requires s.Valid()
    ensures var t := RequestFinished(s, c);
      && t.Valid() && t.Accounted() <= s.Accounted()
      && (c in s.rules.pending ==> AdmissionBytes(c) <= s.used)
  {
    AdmissionsWithout(s.rules, c);
    assert RequestFinished(s, c).rules.Admissions() == s.rules.(pending := s.rules.pending - {c}).Admissions();
    hide Total, Sum, Owned;
  }

  /** One command asks for its rules. */
  function RequestAdmitted(s: State, c: Command): State {
    s.(used := s.used + AdmissionBytes(c), rules := s.rules.(pending := s.rules.pending + {c}))
  }

  lemma AdmissionsWith(r: Rules, c: Command)
    requires c !in r.pending
    ensures Sum(r.(pending := r.pending + {c}).Admissions()) == Sum(r.Admissions()) + AdmissionBytes(c)
  {
    SumUpdated(r.Admissions(), c, AdmissionBytes(c));
    assert r.(pending := r.pending + {c}).Admissions() == r.Admissions()[c := AdmissionBytes(c)];
  }

  lemma RequestAdmittedIsValid(s: State, c: Command)
    requires s.Valid() && c !in s.rules.pending && |s.rules.pending| < MAX_PENDING_RULE_REQUESTS
    ensures RequestAdmitted(s, c).Valid()
  {
    var t := RequestAdmitted(s, c);
    AdmissionsWith(s.rules, c);
    assert t.rules.ChunkSizes() == s.rules.ChunkSizes();
    hide Total, Sum, Owned, UsedBy, AdmissionBytes, Rules.Admissions, Rules.ChunkSizes;
  }

  function RequestsCleared(s: State, bytes: nat): State {
    s.(used := Minus(s.used, bytes), rules := s.rules.(pending := {}, deferred := {}))
  }

  lemma RequestsClearedIsValid(s: State)
    requires s.Valid()
    ensures var n := Sum(s.rules.Admissions());
      && n <= s.used && RequestsCleared(s, n).Valid() && RequestsCleared(s, n).Accounted() + n == s.Accounted()
  {
    SumOfNothing(RequestsCleared(s, Sum(s.rules.Admissions())).rules.Admissions());
    hide Total, Sum, Owned;
  }

  function ChunksDiscarded(s: State, c: Command): State {
    if c in s.rules.chunks then
      s.(used := Minus(s.used, s.rules.chunks[c].Bytes(c)), rules := s.rules.(chunks := s.rules.chunks - {c}))
    else s
  }

  lemma ChunksDiscardedIsValid(s: State, c: Command)
    requires s.Valid()
    ensures var t := ChunksDiscarded(s, c);
      && t.Valid() && t.Accounted() <= s.Accounted()
      && (c in s.rules.chunks ==> s.rules.chunks[c].Bytes(c) <= s.used)
  {
    var t := ChunksDiscarded(s, c);
    if c in s.rules.chunks {
      SumWithout(s.rules.ChunkSizes(), c);
      assert t.rules.ChunkSizes() == s.rules.ChunkSizes() - {c};
    }
    hide Total, Sum, Owned;
  }

  function ChunksStaged(s: State, c: Command, chunks: Chunks): State {
    s.(used := s.used + chunks.Bytes(c), rules := s.rules.(chunks := s.rules.chunks[c := chunks]))
  }

  lemma ChunksStagedIsValid(s: State, c: Command, chunks: Chunks)
    requires s.Valid() && c !in s.rules.chunks
    ensures ChunksStaged(s, c, chunks).Valid()
  {
    var t := ChunksStaged(s, c, chunks);
    SumUpdated(s.rules.ChunkSizes(), c, chunks.Bytes(c));
    assert t.rules.ChunkSizes() == s.rules.ChunkSizes()[c := chunks.Bytes(c)];
    hide Total, Sum, Owned;
  }

  function ChunksCleared(s: State, bytes: nat): State {
    s.(used := Minus(s.used, bytes), rules := s.rules.(chunks := map[]))
  }

  lemma ChunksClearedIsValid(s: State)
    requires s.Valid()
    ensures var n := Sum(s.rules.ChunkSizes());
      && n <= s.used && ChunksCleared(s, n).Valid() && ChunksCleared(s, n).Accounted() + n == s.Accounted()
  {
    SumOfNothing(ChunksCleared(s, Sum(s.rules.ChunkSizes())).rules.ChunkSizes());
    hide Total, Sum, Owned;
  }

  function EntriesDrained(s: State, bytes: nat): State {
    s.(used := Minus(s.used, bytes), rules := s.rules.(entries := map[]))
  }

  lemma EntriesDrainedIsValid(s: State)
    requires s.Valid()
    ensures var n := Total(s.rules.entries);
      && n <= s.used && EntriesDrained(s, n).Valid() && EntriesDrained(s, n).Accounted() + n == s.Accounted()
  {
    SumOfNothing(Sizes(EntriesDrained(s, 0).rules.entries));
    hide Sum, Owned;
    assert Total(EntriesDrained(s, Total(s.rules.entries)).rules.entries) == 0;
    hide Total;
  }

  /** A program list is published for a command. */
  function Published(s: State, c: Command, bytes: nat, items: nat): State {
    s.(clock := s.clock + 1,
       used := Minus(s.used, SizeAt(s.rules.entries, c)) + bytes,
       rules := s.rules.(entries := s.rules.entries[c := Entry(bytes, s.clock + 1, items)]))
  }

  lemma PublishedIsValid(s: State, c: Command, bytes: nat, items: nat)
    requires s.Valid()
    ensures var t := Published(s, c, bytes, items);
      && t.Valid() && SizeAt(s.rules.entries, c) <= s.used
      && t.Accounted() + SizeAt(s.rules.entries, c) == s.Accounted() + bytes
  {
    ClockAdvances(s);
    UsedLater(s.rules.entries, c, Entry(bytes, s.clock + 1, items), s.clock);
    TotalUpdated(s.rules.entries, c, Entry(bytes, s.clock + 1, items));
    hide UsedBy, Total, Sum, Owned;
  }

  lemma PublishedIsNewest(s: State, c: Command, bytes: nat, items: nat)
    requires s.Valid()
    ensures Newest(Published(s, c, bytes, items), c)
  {
    hide Total, Sum, Owned;
  }

  function StoreReplaced(s: State, bytes: nat): State {
    s.(used := Minus(s.used, s.rules.store) + bytes, rules := s.rules.(store := bytes))
  }

  lemma StoreReplacedIsValid(s: State, bytes: nat)
    requires s.Valid()
    ensures s.rules.store <= s.used
    ensures StoreReplaced(s, bytes).Valid()
    ensures StoreReplaced(s, bytes).Accounted() + s.rules.store == s.Accounted() + bytes
  {
    hide Total, Sum, Owned;
  }

  function ConfigurationReplaced(s: State, configured: bool, bytes: nat): State {
    s.(used := Minus(s.used, s.rules.configuration) + bytes,
       rules := s.rules.(configured := configured, configuration := bytes))
  }

  /** The retained configuration and the room kept for its growth always add up to the same. */
  lemma ReplacingConfigurationIsFree(s: State, configured: bool, bytes: nat)
    requires s.Valid() && bytes <= MAX_RULE_CONFIGURATION_ACCOUNTED_BYTES && (!configured ==> bytes == 0)
    ensures s.rules.configuration <= s.used
    ensures ConfigurationReplaced(s, configured, bytes).Valid()
    ensures ConfigurationReplaced(s, configured, bytes).Capacity() == s.Capacity()
    ensures ConfigurationReplaced(s, configured, bytes).Accounted() + s.rules.configuration == s.Accounted() + bytes
  {
    hide Total, Sum, Owned;
  }

  // ---------------------------------------------------------------------
  // Diagnostics
  // ---------------------------------------------------------------------

  const MAX_DIAGNOSTICS: nat := 128

  predicate Mentions(errors: seq<Message>, text: string) {
    exists i :: 0 <= i < |errors| && errors[i].text == text
  }

  function LastOf(errors: seq<Message>, n: nat): seq<Message> {
    if |errors| > n then errors[|errors| - n..] else errors
  }

  function WithRuleErrors(s: State, errors: seq<Message>): State {
    s.(used := Minus(s.used, Owned(s.rules.errors)) + Owned(errors), rules := s.rules.(errors := errors))
  }

  function WithProbeErrors(s: State, errors: seq<Message>): State {
    s.(used := Minus(s.used, Owned(s.probes.errors)) + Owned(errors), probes := s.probes.(errors := errors))
  }

  lemma WithRuleErrorsIsValid(s: State, errors: seq<Message>)
    requires s.Valid()
    ensures Owned(s.rules.errors) <= s.used && WithRuleErrors(s, errors).Valid()
    ensures WithRuleErrors(s, errors).Accounted() + Owned(s.rules.errors) == s.Accounted() + Owned(errors)
  {
    hide Total, Sum, Owned;
  }

  lemma FewerRuleErrors(s: State)
    requires s.Valid()
    ensures WithRuleErrors(s, []).Capacity() <= s.Capacity()
  {
    WithRuleErrorsIsValid(s, []);
    assert Owned([]) == 0;
    hide Owned, State.Valid, State.Accounted;
  }

  lemma RuleErrorsTwice(s: State, first: seq<Message>, second: seq<Message>)
    requires s.Valid()
    ensures WithRuleErrors(s, s.rules.errors) == s
    ensures WithRuleErrors(WithRuleErrors(s, first), second) == WithRuleErrors(s, second)
  {
    WithRuleErrorsIsValid(s, first);
    hide Total, Sum, Owned, State.Valid;
  }

  lemma ProbeErrorsTwice(s: State, first: seq<Message>, second: seq<Message>)
    requires s.Valid()
    ensures WithProbeErrors(s, s.probes.errors) == s
    ensures WithProbeErrors(WithProbeErrors(s, first), second) == WithProbeErrors(s, second)
  {
    WithProbeErrorsIsValid(s, first);
    hide Total, Sum, Owned, State.Valid;
  }

  lemma WithProbeErrorsIsValid(s: State, errors: seq<Message>)
    requires s.Valid()
    ensures Owned(s.probes.errors) <= s.used && WithProbeErrors(s, errors).Valid()
    ensures WithProbeErrors(s, errors).Accounted() + Owned(s.probes.errors) == s.Accounted() + Owned(errors)
  {
    hide Total, Sum, Owned;
  }

  // ---------------------------------------------------------------------
  // Rule boundaries
  // ---------------------------------------------------------------------

  function DiscoveryBudget(s: State): nat {
    Minus(s.limit, Minus(s.Capacity(), s.rules.store))
  }

  function LoadBudget(s: State): nat {
    Minus(Minus(s.limit, s.Capacity()), MAX_RULE_ADMISSION_BYTES)
  }

  predicate ConfigurationNeverFits(s: State) {
    MAX_RULE_CONFIGURATION_ACCOUNTED_BYTES + MAX_RULE_ADMISSION_BYTES + s.rules.configuration > s.limit
  }

  /** The reservation takes the place of the store, and of everything else that is left. */
  function DiscoveryReserved(s: State): State {
    var budget := Minus(DiscoveryBudget(s), s.rules.configuration);
    s.(used := Minus(s.used, s.rules.store),
       rules := s.rules.(store := 0,
         catalog := Some(Reservation(s.rules.generation, s.rules.configuration + budget))))
  }

  /** A discovery request may use exactly what the limit leaves. */
  lemma DiscoveryReservesTheRest(s: State)
    requires s.Valid() && s.rules.catalog.None? && s.Capacity() + s.rules.configuration <= s.limit
    ensures s.rules.store <= s.used
    ensures DiscoveryReserved(s).Valid() && DiscoveryReserved(s).Capacity() == s.limit
  {
    hide Total, Sum, Owned;
  }

  function LoadReserved(s: State, bytes: nat): State {
    s.(rules := s.rules.(load := Some(Reservation(s.rules.generation, bytes))))
  }

  lemma RuleMarksAreFree(s: State, r: Rules)
    requires s.Valid() && r.configured == s.rules.configured
    requires r.deferred == s.rules.deferred || r.deferred <= r.pending
    requires r.entries == s.rules.entries && r.pending == s.rules.pending && r.chunks == s.rules.chunks
    requires r.errors == s.rules.errors && r.store == s.rules.store && r.configuration == s.rules.configuration
    ensures s.(rules := r).Valid()
  {
    assert r.Admissions() == s.rules.Admissions() && r.ChunkSizes() == s.rules.ChunkSizes();
    hide Total, Sum, Owned;
  }

  /** All requests are cancelled at once; the reservation of a load that is under way stays. */
  ghost function Cancelled(s: State): State {
    RequestsCleared(s, Sum(s.rules.Admissions()))
  }

  /**
   A load means to leave room for the admission reserve that returns on
   cancellation. It does exactly if its budget is positive, or if what the
   cancelled admissions give back makes up for the reserve.
   */
  lemma CancellingALoad(s: State)
    requires s.Valid() && s.rules.load.None? && s.rules.pending != {}
    ensures Cancelled(LoadReserved(s, LoadBudget(s))).Capacity() <= s.limit <==>
            LoadBudget(s) > 0 || s.Capacity() + MAX_RULE_ADMISSION_BYTES <= s.limit + Sum(s.rules.Admissions())
  {
    hide Sum, State.Valid, State.Capacity, State.Accounted;
    var t := LoadReserved(s, LoadBudget(s));
    RuleMarksAreFree(s, t.rules);
    RequestsClearedIsValid(t);
    assert t.rules.Admissions() == s.rules.Admissions();
    ReservingALoad(s, LoadBudget(s));
    CapacityWithoutRequests(Cancelled(t));
  }

  lemma ReservingALoad(s: State, bytes: nat)
    requires s.rules.load.None? && s.rules.pending != {}
    ensures LoadReserved(s, bytes).Accounted() == s.Accounted() + bytes
    ensures s.Capacity() == s.Accounted() + s.GrowthReserve()
  {
  }

  lemma CapacityWithoutRequests(s: State)
    requires s.rules.pending == {}
    ensures s.Capacity() == s.Accounted() + s.GrowthReserve() + MAX_RULE_ADMISSION_BYTES
  {
  }

  function Deferred(s: State, c: Command): State {
    s.(rules := s.rules.(deferred := s.rules.deferred + {c}))
  }

  /** What becomes of an admitted request whose load is due; a full queue (`!accepted`) defers it. */
  function Started(s: State, c: Command, accepted: bool): State {
    if s.worker && accepted then LoadReserved(s, LoadBudget(s))
    else if s.worker then Deferred(s, c)
    else RequestFinished(s, c)
  }

  /** What becomes of a deferred request whose load is due. */
  function DeferredSent(s: State, c: Command, accepted: bool): State {
    if s.worker && accepted then
      var t := LoadReserved(s, LoadBudget(s));
      t.(rules := t.rules.(deferred := t.rules.deferred - {c}))
    else if s.worker then s
    else RequestFinished(s, c)
  }

  /** A new cache in which one command waits, its request refused by a full queue. */
  function Waiting(c: Command, limit: nat): State {
    Deferred(RequestAdmitted(Initial(limit, true), c), c)
  }

  function Spare(c: Command, limit: nat): nat {
    Minus(limit, MAX_RULE_CONFIGURATION_ACCOUNTED_BYTES + AdmissionBytes(c))
  }

  /** Then a scan arrives that fills the cache. */
  function Crowded(c: Command, limit: nat): State {
    DirectoryInstalled(Waiting(c, limit), 0, Spare(c, limit), 1)
  }

  lemma WaitingIsValid(c: Command, limit: nat)
    ensures Waiting(c, limit).Valid()
  {
    InitialIsValid(limit, true);
    RequestAdmittedIsValid(Initial(limit, true), c);
    RuleMarksAreFree(RequestAdmitted(Initial(limit, true), c), Waiting(c, limit).rules);
    hide State.Valid, Sum, Total, Owned;
  }

  lemma CrowdedIsValid(c: Command, limit: nat)
    ensures Crowded(c, limit).Valid()
  {
    hide *;
    WaitingIsValid(c, limit);
    DirectoryInstalledIsValid(Waiting(c, limit), 0, Spare(c, limit), 1);
    CrowdedIsInstalled(c, limit);
  }

  lemma CrowdedIsInstalled(c: Command, limit: nat)
    ensures Crowded(c, limit) == DirectoryInstalled(Waiting(c, limit), 0, Spare(c, limit), 1)
  {
  }

  lemma CrowdedIsFull(c: Command, limit: nat)
    requires limit >= MAX_RULE_CONFIGURATION_ACCOUNTED_BYTES + AdmissionBytes(c)
    ensures var s := Crowded(c, limit);
      && s.Capacity() == s.limit == limit && s.WithinCounts() && s.worker
      && s.rules.Admissions() == map[c := AdmissionBytes(c)]
      && s.rules.load.None? && s.rules.pending == {c} && s.rules.deferred == {c} && s.rules.generation == 0
      && s.rules.ready && !s.rules.catalogDeferred && s.snapshot.reservation.None?
  {
    assert |map[0 := Entry(Spare(c, limit), 1, 1)]| == 1;
  }

  /** Its load is sent with nothing to spend, and cancelling it needs more than the limit. */
  lemma ZeroBudgetOvershoots(c: Command, limit: nat)
    requires |c| < MAX_RULE_LOOKUP_BYTES && limit >= MAX_RULE_CONFIGURATION_ACCOUNTED_BYTES + AdmissionBytes(c)
    ensures var t := DeferredSent(Crowded(c, limit), c, true);
      && t.rules.load == Some(Reservation(0, 0)) && t.rules.pending == {c} && t.limit == limit
      && Cancelled(t).Capacity() > limit
  {
    CrowdedIsValid(c, limit);
    CrowdedIsFull(c, limit);
    hide State.Valid, Sum, State.Capacity, Crowded, Rules.Admissions;
    SumOfOne(c, AdmissionBytes(c));
    CancellingALoad(Crowded(c, limit));
    SendingDeferred(Crowded(c, limit), c);
    hide Cancelled, LoadReserved;
  }

  lemma SendingDeferred(s: State, c: Command)
    requires s.worker
    ensures var t, u := DeferredSent(s, c, true), LoadReserved(s, LoadBudget(s));
      && t.rules == u.rules.(deferred := s.rules.deferred - {c}) && t == s.(rules := t.rules)
      && t.rules.load == Some(Reservation(s.rules.generation, LoadBudget(s))) && t.rules.pending == s.rules.pending
      && Cancelled(t) == Cancelled(u)
  {
    var t, u := DeferredSent(s, c, true), LoadReserved(s, LoadBudget(s));
    assert t.rules.Admissions() == u.rules.Admissions();
    hide LoadBudget, Sum;
  }

  lemma SumOfOne(c: Command, n: nat)
    ensures Sum(map[c := n]) == n
  {
    SumUpdated(map[], c, n);
    assert map[][c := n] == map[c := n];
  }

  /** A new configuration cancels every request and forgets every program. */
  ghost function Reconfigured(s: State, bytes: nat): State {
    var a := ConfigurationReplaced(s, true, bytes);
    var b := a.(rules := NextGeneration(a.rules));
    var c := RequestsCleared(b, Sum(b.rules.Admissions()));
    var d := ChunksCleared(c, Sum(c.rules.ChunkSizes()));
    EntriesDrained(d, Total(d.rules.entries))
  }

  function NextGeneration(r: Rules): Rules {
    r.(generation := r.generation + 1, acknowledge := false, ready := false, rejected := {}, saturated := false,
       catalogDeferred := false)
  }

  /** Whether something in flight was sized for the limit as it was. */
  predicate HoldsWork(s: State) {
    s.rules.store != 0 || s.rules.load.Some? || s.rules.catalog.Some? || s.snapshot.reservation.Some?
  }

  function CatalogReleased(r: Rules, generation: nat): Rules {
    if r.catalog.Some? && r.catalog.value.generation == generation then r.(catalog := None) else r
  }

  function LoadReleased(r: Rules, generation: nat): Rules {
    if r.load.Some? && r.load.value.generation == generation then r.(load := None) else r
  }

  /** Reservations and marks of requests that a restarted, or lost, worker can no longer answer. */
  function WorkerLost(s: State, worker: bool): State {
    s.(worker := worker,
       files := s.files.(pending := {}, pins := {}),
       snapshot := s.snapshot.(reservation := None, pending := false, inFlight := None),
       rules := s.rules.(load := None, catalog := None))
  }

  lemma WorkerLostIsValid(s: State, worker: bool)
    requires s.Valid()
    ensures WorkerLost(s, worker).Valid() && WorkerLost(s, worker).Accounted() <= s.Accounted()
  {
    assert WorkerLost(s, worker).rules.Admissions() == s.rules.Admissions();
    assert WorkerLost(s, worker).rules.ChunkSizes() == s.rules.ChunkSizes();
    hide Total, Sum, Owned;
  }

  /** Everything held for the worker is given up: its marks, its store, the requests and their staged parts. */
  ghost function WorkerForgotten(s: State, worker: bool): State {
    var a := StoreReplaced(WorkerLost(s, worker), 0);
    var b := RequestsCleared(a, Sum(a.rules.Admissions()));
    ChunksCleared(b, Sum(b.rules.ChunkSizes()))
  }

  // ---------------------------------------------------------------------
  // Probes
  // ---------------------------------------------------------------------

  function ProbeAdmitted(s: State, k: nat, bytes: nat): State {
    s.(used := s.used + bytes,
       probes := s.probes.(
         admissions := s.probes.admissions[(s.probes.generation, k) := bytes],
         pending := s.probes.pending + {k},
         masked := true))
  }

  /** The key has no admission under the current generation, so no earlier one is overwritten. */
  lemma ProbeAdmittedIsValid(s: State, k: nat, bytes: nat)
    requires s.Valid() && s.probeWorker && k !in s.probes.pending
    ensures (s.probes.generation, k) !in s.probes.admissions
    ensures ProbeAdmitted(s, k, bytes).Valid()
  {
    SumUpdated(s.probes.admissions, (s.probes.generation, k), bytes);
    hide Total, Sum, Owned;
  }

  function AdmissionFinished(s: State, generation: nat, k: nat): State {
    if (generation, k) in s.probes.admissions then
      s.(used := Minus(s.used, s.probes.admissions[(generation, k)]),
         probes := s.probes.(admissions := s.probes.admissions - {(generation, k)}))
    else s
  }

  /** A probe that is over is no longer pending, and may be the last to need the mask. */
  function ProbeFinished(s: State, k: nat): State {
    var pending := s.probes.pending - {k};
    var t := AdmissionFinished(s, s.probes.generation, k);
    t.(probes := t.probes.(pending := pending,
         masked := if pending == {} && s.probes.cancelPending.None? then false else s.probes.masked))
  }

  lemma AdmissionFinishedIsValid(s: State, generation: nat, k: nat)
    requires s.Valid()
    ensures var t := AdmissionFinished(s, generation, k);
      && t.Accounted() <= s.Accounted()
      && ((generation, k) in s.probes.admissions ==> s.probes.admissions[(generation, k)] <= s.used)
      && (generation != s.probes.generation ==> t.Valid())
  {
    if (generation, k) in s.probes.admissions {
      SumWithout(s.probes.admissions, (generation, k));
    }
    hide Total, Sum, Owned;
  }

  lemma ProbeFinishedIsValid(s: State, k: nat)
    requires s.Valid()
    ensures ProbeFinished(s, k).Valid() && ProbeFinished(s, k).Accounted() <= s.Accounted()
  {
    if (s.probes.generation, k) in s.probes.admissions {
      SumWithout(s.probes.admissions, (s.probes.generation, k));
    }
    hide Total, Sum, Owned;
  }

  /** Admitting a probe that the queue then refuses leaves no trace. */
  lemma RefusedProbeLeavesNoTrace(s: State, k: nat, bytes: nat)
    requires s.Valid() && s.probeWorker && k !in s.probes.pending
    ensures ProbeFinished(ProbeAdmitted(s, k, bytes), k) == s
  {
    assert s.probes.pending + {k} - {k} == s.probes.pending;
    assert s.probes.admissions[(s.probes.generation, k) := bytes] - {(s.probes.generation, k)} == s.probes.admissions;
  }

  function OutcomeInstalled(s: State, k: nat, bytes: nat, items: nat, failed: bool): State {
    s.(clock := s.clock + 1,
       used := Minus(s.used, SizeAt(s.probes.entries, k)) + bytes,
       probes := s.probes.(
         recent := s.probes.recent + {k},
         failed := if failed then s.probes.failed + {k} else s.probes.failed - {k},
         entries := s.probes.entries[k := Entry(bytes, s.clock + 1, items)]))
  }

  lemma OutcomeInstalledIsValid(s: State, k: nat, bytes: nat, items: nat, failed: bool)
    requires s.Valid()
    ensures var t := OutcomeInstalled(s, k, bytes, items, failed);
      && t.Valid() && SizeAt(s.probes.entries, k) <= s.used
      && t.Accounted() + SizeAt(s.probes.entries, k) == s.Accounted() + bytes
  {
    ClockAdvances(s);
    UsedLater(s.probes.entries, k, Entry(bytes, s.clock + 1, items), s.clock);
    TotalUpdated(s.probes.entries, k, Entry(bytes, s.clock + 1, items));
    hide UsedBy, Total, Sum, Owned;
  }

  function OutcomeRemoved(s: State, k: nat): State
    requires k in s.probes.entries
  {
    s.(used := Minus(s.used, s.probes.entries[k].bytes),
       probes := s.probes.(entries := s.probes.entries - {k}, recent := s.probes.recent - {k}, pins := s.probes.pins - {k}))
  }

  lemma OutcomeRemovedIsValid(s: State, k: nat)
    requires s.Valid() && k in s.probes.entries
    ensures OutcomeRemoved(s, k).Valid() && s.probes.entries[k].bytes <= s.used
    ensures OutcomeRemoved(s, k).Accounted() + s.probes.entries[k].bytes == s.Accounted()
  {
    TotalWithout(s.probes.entries, k);
    hide Total, Sum, Owned;
  }

  /** Which probes are pinned, recent or refused is not accounted. */
  lemma ProbeMarksAreFree(s: State, p: Probes)
    requires s.Valid()
    requires p == s.probes.(pins := p.pins, recent := p.recent, rejected := p.rejected, saturated := p.saturated)
    ensures s.(probes := p).Valid()
  {
    hide Total, Sum, Owned;
  }

  /** Cancelling gives up what is pending; its admissions stay until the worker acknowledges the new generation. */
  function ProbesCancelled(s: State): State {
    var p := s.probes.(pending := {}, pins := {}, recent := {});
    if s.probeWorker then
      s.(probes := p.(generation := p.generation + 1, cancelPending := Some(p.generation + 1)))
    else
      s.(probes := p.(cancelPending := None, masked := false))
  }

  lemma ProbesCancelledIsValid(s: State)
    requires s.Valid() && (s.probes.pending != {} || s.probes.cancelPending.Some? || s.probes.masked)
    ensures ProbesCancelled(s).Valid() && ProbesCancelled(s).Accounted() == s.Accounted()
  {
    hide Total, Sum, Owned;
  }

  /** An admission of an earlier generation ends. */
  function AdmissionDropped(s: State, p: (nat, nat)): State
    requires p in s.probes.admissions
  {
    s.(used := Minus(s.used, s.probes.admissions[p]), probes := s.probes.(admissions := s.probes.admissions - {p}))
  }

  lemma AdmissionDroppedIsValid(s: State, p: (nat, nat))
    requires s.Valid() && p in s.probes.admissions && p.0 < s.probes.generation
    ensures AdmissionDropped(s, p).Valid() && s.probes.admissions[p] <= s.used
    ensures AdmissionDropped(s, p).Accounted() <= s.Accounted()
  {
    SumWithout(s.probes.admissions, p);
    hide Total, Sum, Owned;
  }

  /** The acknowledgement of the latest cancellation may free the mask. */
  function CancellationAcknowledged(p: Probes, generation: nat): Probes {
    if p.cancelPending == Some(generation) then
      p.(cancelPending := None, masked := if p.pending == {} then false else p.masked)
    else p
  }

  lemma AcknowledgementIsFree(s: State, generation: nat)
    requires s.Valid()
    ensures s.(probes := CancellationAcknowledged(s.probes, generation)).Valid()
  {
    hide Total, Sum, Owned;
  }

  /** Nothing is asked of a probe worker that has gone; a new one begins with `generation`. */
  function ProbeWorkerGone(s: State, bytes: nat, generation: nat, worker: bool): State {
    s.(used := Minus(s.used, bytes), probeWorker := worker,
       probes := s.probes.(pending := {}, admissions := map[], pins := {}, recent := {}, cancelPending := None,
         masked := false, generation := generation))
  }

  lemma ProbeWorkerGoneIsValid(s: State, generation: nat, worker: bool)
    requires s.Valid()
    ensures var n := Sum(s.probes.admissions);
      && n <= s.used && ProbeWorkerGone(s, n, generation, worker).Valid()
      && ProbeWorkerGone(s, n, generation, worker).Accounted() + n == s.Accounted()
  {
    SumOfNothing(ProbeWorkerGone(s, 0, 0, false).probes.admissions);
    hide Total, Sum, Owned;
  }
}
