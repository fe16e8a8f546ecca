/**
 The completion cache as a value: what the byte counter stands for, what
 eviction may do to it, and how each change of state moves the accounts.
 */
module CacheState {
  import opened Wrappers
  import opened LruMaps

  const MAX_DIRECTORY_CACHE_ENTRIES: nat := 4096
  const MAX_FILESYSTEM_CACHE_ENTRIES: nat := 128
  const MAX_RULE_CACHE_ENTRIES: nat := 4096
  const MAX_PROBE_CACHE_ENTRIES: nat := 1024
  const MAX_PENDING_RULE_REQUESTS: nat := 512
  const MAX_PENDING_PROBES: nat := 32
  const MAX_RULE_LOOKUP_BYTES: nat := 4096
  const MAX_RULE_REJECTIONS: nat := 4096
  const MAX_PROBE_REJECTIONS: nat := 1024
  const MAX_SNAPSHOT_LOAD_RESERVATION_BYTES: nat := 32 * 1024 * 1024
  const MAX_REPLAY_RESERVATION_BYTES: nat := 8 * 1024 * 1024
  const MAX_PROBE_DIAGNOSTIC_BYTES: nat := 64 * 1024
  const MAX_RULE_BYTES: nat := 64 * 1024 * 1024

  /** The sizes of `String`, `Vec` and `PathBuf` on a 64-bit target. */
  const OWNED_SIZE: nat := 24

  const MAX_RULE_CONFIGURATION_ACCOUNTED_BYTES: nat := 2 * OWNED_SIZE + 128 * OWNED_SIZE + 512 * 1024
  const MAX_RULE_ADMISSION_BYTES: nat := 2 * (OWNED_SIZE + MAX_RULE_LOOKUP_BYTES) + 64

  /** The subtraction that stops at zero. */
  function Minus(a: nat, b: nat): nat {
    if a < b then 0 else a - b
  }

  function Min(a: nat, b: nat): nat {
    if a < b then a else b
  }

  type Command = string

  /** An owned diagnostic; its buffer may be larger than its text. */
  datatype Message = Message(text: string, capacity: nat)

  function Owned(messages: seq<Message>): nat {
    if messages == [] then 0 else OWNED_SIZE + messages[0].capacity + Owned(messages[1..])
  }

  lemma {:induction false} OwnedAppend(messages: seq<Message>, m: Message)
    ensures Owned(messages + [m]) == Owned(messages) + OWNED_SIZE + m.capacity
  {
    if messages != [] {
      OwnedAppend(messages[1..], m);
      assert (messages + [m])[1..] == messages[1..] + [m];
    }
  }

  lemma {:induction false} OwnedDropped(messages: seq<Message>, n: nat)
    requires n <= |messages|
    ensures Owned(messages[n..]) <= Owned(messages)
  {
    if n > 0 {
      OwnedDropped(messages[1..], n - 1);
      assert messages[n..] == messages[1..][n - 1..];
    }
  }

  predicate Suffix(later: seq<Message>, earlier: seq<Message>) {
    |later| <= |earlier| && later == earlier[|earlier| - |later|..]
  }

  // ---------------------------------------------------------------------
  // State
  // ---------------------------------------------------------------------

  datatype Reservation = Reservation(generation: nat, bytes: nat)

  /** Keys are opaque numbers. */
  datatype Files = Files(
    directories: map<nat, Entry>, filesystem: map<nat, Entry>,
    pins: set<nat>, pending: set<nat>, exceeded: bool, generation: nat)
  {
    ghost function Bytes(): nat {
      Total(directories) + Total(filesystem)
    }

    ghost predicate Valid() {
      pins <= filesystem.Keys
    }
  }

  datatype Snapshot = Snapshot(
    bytes: nat, reservation: Option<Reservation>, pending: bool, deferred: bool, unavailable: bool,
    generation: nat, inFlight: Option<nat>)

  /** The decoded parts of one command's rules that have arrived so far. */
  datatype Chunks = Chunks(programs: nat, programBytes: nat, spareBytes: nat, errors: seq<Message>) {
    function Bytes(command: Command): nat {
      programBytes + spareBytes + Owned(errors) + |command| + 56 + 16
    }
  }

  function AdmissionBytes(command: Command): nat {
    2 * (OWNED_SIZE + |command|) + 64
  }

  datatype Rules = Rules(
    entries: map<Command, Entry>, pending: set<Command>, deferred: set<Command>, chunks: map<Command, Chunks>,
    rejected: set<Command>, saturated: bool, errors: seq<Message>, generation: nat,
    store: nat, configured: bool, configuration: nat, ready: bool, catalogDeferred: bool,
    load: Option<Reservation>, catalog: Option<Reservation>, acknowledge: bool)
  {
    function Admissions(): map<Command, nat> {
      map c | c in pending :: AdmissionBytes(c)
    }

    function ChunkSizes(): map<Command, nat> {
      map c | c in chunks :: chunks[c].Bytes(c)
    }

    ghost function Bytes(): nat {
      Total(entries) + Sum(Admissions()) + Sum(ChunkSizes()) + store + configuration + Owned(errors)
    }

    ghost predicate Valid() {
      && deferred <= pending && |pending| <= MAX_PENDING_RULE_REQUESTS
      && configuration <= MAX_RULE_CONFIGURATION_ACCOUNTED_BYTES
      && (!configured ==> configuration == 0)
    }
  }

  /** `failed` are the keys whose stored result is a failure of the supervisor. */
  datatype Probes = Probes(
    entries: map<nat, Entry>, pending: set<nat>, admissions: map<(nat, nat), nat>,
    pins: set<nat>, recent: set<nat>, rejected: set<nat>, saturated: bool, errors: seq<Message>,
    generation: nat, cancelPending: Option<nat>, masked: bool, failed: set<nat>)
  {
    ghost function Bytes(): nat {
      Total(entries) + Sum(admissions) + Owned(errors)
    }

    /** A key is pending exactly when it is admitted under the current generation. */
    ghost predicate Valid() {
      && (forall g: nat, k: nat :: (g, k) in admissions ==> g <= generation)
      && (forall k: nat :: (generation, k) in admissions <==> k in pending)
      && (masked <==> pending != {} || cancelPending.Some?)
    }
  }

  datatype State = State(
    limit: nat, used: nat, clock: nat, replay: nat, detached: nat, worker: bool, probeWorker: bool,
    files: Files, snapshot: Snapshot, rules: Rules, probes: Probes)
  {
    function Base(): nat {
      used + Reserved(rules.load) + Reserved(snapshot.reservation) + Reserved(rules.catalog) + detached
    }

    function Accounted(): nat {
      Base() + replay
    }

    function GrowthReserve(): nat {
      Minus(MAX_RULE_CONFIGURATION_ACCOUNTED_BYTES, rules.configuration)
    }

    function AdmissionReserve(): nat {
      if rules.pending == {} then MAX_RULE_ADMISSION_BYTES else 0
    }

    function Capacity(): nat {
      Accounted() + GrowthReserve() + AdmissionReserve()
    }

    ghost function Footprint(): nat {
      files.Bytes() + snapshot.bytes + rules.Bytes() + probes.Bytes()
    }

    ghost predicate Valid() {
      && used == Footprint()
      && files.Valid() && rules.Valid() && probes.Valid() && Recent()
      && (!probeWorker ==> probes.admissions == map[] && probes.pending == {} && probes.cancelPending.None?)
    }

    /** The clock is that of the latest use. */
    ghost predicate Recent() {
      && UsedBy(files.directories, clock) && UsedBy(files.filesystem, clock)
      && UsedBy(rules.entries, clock) && UsedBy(probes.entries, clock)
    }

    function ProtectedProbes(): set<nat> {
      probes.pins + probes.recent
    }

    /** Every entry that is left is pinned, pending or fresh. */
    ghost predicate AllProtected() {
      && files.directories == map[]
      && files.filesystem.Keys <= files.pins
      && rules.entries.Keys <= rules.pending
      && probes.entries.Keys <= ProtectedProbes()
    }

    /** What no eviction can give back. */
    ghost function Floor(): int {
      Accounted() - Total(files.directories)
      - (Total(files.filesystem) - Total(Pinned(files.filesystem, files.pins)))
      - (Total(rules.entries) - Total(Pinned(rules.entries, rules.pending)))
      - (Total(probes.entries) - Total(Pinned(probes.entries, ProtectedProbes())))
      - Owned(rules.errors) - Owned(probes.errors)
    }

    /** The least capacity that eviction can reach. */
    ghost function Least(): int {
      Floor() + GrowthReserve() + AdmissionReserve()
    }

    predicate WithinCounts() {
      && |files.directories| <= MAX_DIRECTORY_CACHE_ENTRIES
      && |files.filesystem| <= MAX_FILESYSTEM_CACHE_ENTRIES
      && |rules.entries| <= MAX_RULE_CACHE_ENTRIES
      && |probes.entries| <= MAX_PROBE_CACHE_ENTRIES
    }

    function EntryCount(): nat {
      |files.directories| + |files.filesystem| + |rules.entries| + |probes.entries|
    }

    function WithEntries(
      d: map<nat, Entry>, f: map<nat, Entry>, r: map<Command, Entry>, p: map<nat, Entry>, freed: nat): State
    {
      this.(
        used := Minus(used, freed),
        files := files.(directories := d, filesystem := f),
        rules := rules.(entries := r),
        probes := probes.(entries := p))
    }
  }

  function Reserved(r: Option<Reservation>): nat {
    if r.Some? then r.value.bytes else 0
  }

  // ---------------------------------------------------------------------
  // Eviction
  // ---------------------------------------------------------------------

  /** Only entries differ, and each kind lost its least recently used unprotected ones. */
  ghost predicate EntriesEvicted(s: State, t: State) {
    && t == s.(
         used := t.used,
         files := s.files.(directories := t.files.directories, filesystem := t.files.filesystem),
         rules := s.rules.(entries := t.rules.entries),
         probes := s.probes.(entries := t.probes.entries))
    && OldestEvicted(s.files.directories, t.files.directories, {})
    && OldestEvicted(s.files.filesystem, t.files.filesystem, s.files.pins)
    && OldestEvicted(s.rules.entries, t.rules.entries, s.rules.pending)
    && OldestEvicted(s.probes.entries, t.probes.entries, s.ProtectedProbes())
  }

  /** Across all four kinds, nothing went that was used after something unprotected that stays. */
  ghost predicate EvictedInOrder(s: State, t: State, time: nat) {
    && EvictedUpTo(s.files.directories, t.files.directories, {}, time)
    && EvictedUpTo(s.files.filesystem, t.files.filesystem, s.files.pins, time)
    && EvictedUpTo(s.rules.entries, t.rules.entries, s.rules.pending, time)
    && EvictedUpTo(s.probes.entries, t.probes.entries, s.ProtectedProbes(), time)
  }

  ghost predicate CountsKept(t: State) {
    && |t.files.directories| <= MAX_DIRECTORY_CACHE_ENTRIES
    && (|t.files.filesystem| <= MAX_FILESYSTEM_CACHE_ENTRIES || t.files.filesystem.Keys <= t.files.pins)
    && (|t.rules.entries| <= MAX_RULE_CACHE_ENTRIES || t.rules.entries.Keys <= t.rules.pending)
    && (|t.probes.entries| <= MAX_PROBE_CACHE_ENTRIES || t.probes.entries.Keys <= t.ProtectedProbes())
  }

  /** Only diagnostics differ: the earliest rule diagnostics went first, then probe diagnostics. */
  ghost predicate DiagnosticsDropped(s: State, t: State) {
    && t == s.(
         used := t.used,
         rules := s.rules.(errors := t.rules.errors),
         probes := s.probes.(errors := t.probes.errors))
    && Suffix(t.rules.errors, s.rules.errors) && Suffix(t.probes.errors, s.probes.errors)
    && (t.probes.errors != s.probes.errors ==> t.rules.errors == [])
  }

  /** The whole effect of bringing the cache back within its limits. */
  ghost predicate Evicted(s: State, t: State) {
    exists u: State :: u.Valid() && EntriesEvicted(s, u) && DiagnosticsDropped(u, t) && EvictionStops(s, u, t)
  }

  /** Eviction stops as soon as everything fits, and diagnostics go only after all entries that may go. */
  ghost predicate EvictionStops(s: State, u: State, t: State) {
    && CountsKept(u)
    && (u.Capacity() <= s.limit || u.AllProtected())
    && (u.Capacity() <= s.limit ==> t == u)
    && (t.Capacity() <= s.limit || (t.AllProtected() && t.rules.errors == [] && t.probes.errors == []))
    && (s.WithinCounts() && s.Capacity() <= s.limit ==> t == s)
    && (s.WithinCounts() ==> exists time :: EvictedInOrder(s, u, time))
  }

  // ---------------------------------------------------------------------
  // Effects of eviction on the accounts
  // ---------------------------------------------------------------------

  lemma WithEntriesIsValid(s: State, d: map<nat, Entry>, f: map<nat, Entry>, r: map<Command, Entry>, p: map<nat, Entry>, freed: nat)
    requires s.Valid()
    requires OldestEvicted(s.files.directories, d, {})
    requires OldestEvicted(s.files.filesystem, f, s.files.pins)
    requires OldestEvicted(s.rules.entries, r, s.rules.pending)
    requires OldestEvicted(s.probes.entries, p, s.ProtectedProbes())
    requires freed + Total(d) + Total(f) + Total(r) + Total(p) ==
      Total(s.files.directories) + Total(s.files.filesystem) + Total(s.rules.entries) + Total(s.probes.entries)
    ensures freed <= s.used
    ensures var t := s.WithEntries(d, f, r, p, freed);
      t.Valid() && EntriesEvicted(s, t)
  {
    hide OldestEvicted, Total, Sum, Owned, UsedBy;
    PinsStay(s.files.filesystem, f, s.files.pins);
    EvictionKeepsUses(s.files.directories, d, {}, s.clock);
    EvictionKeepsUses(s.files.filesystem, f, s.files.pins, s.clock);
    EvictionKeepsUses(s.rules.entries, r, s.rules.pending, s.clock);
    EvictionKeepsUses(s.probes.entries, p, s.ProtectedProbes(), s.clock);
  }

  /** One entry that eviction may choose. */
  datatype Victim = DirectoryVictim(key: nat) | FilesystemVictim(key: nat) | RuleVictim(command: Command) | ProbeVictim(key: nat)

  predicate Evictable(s: State, v: Victim) {
    match v
    case DirectoryVictim(k) => k in s.files.directories
    case FilesystemVictim(k) => k in s.files.filesystem && k !in s.files.pins
    case RuleVictim(c) => c in s.rules.entries && c !in s.rules.pending
    case ProbeVictim(k) => k in s.probes.entries && k !in s.ProtectedProbes()
  }

  function EntryOf(s: State, v: Victim): Entry
    requires Evictable(s, v)
  {
    match v
    case DirectoryVictim(k) => s.files.directories[k]
    case FilesystemVictim(k) => s.files.filesystem[k]
    case RuleVictim(c) => s.rules.entries[c]
    case ProbeVictim(k) => s.probes.entries[k]
  }

  ghost predicate NoneOlder(s: State, time: nat) {
    && (forall k :: k in s.files.directories ==> s.files.directories[k].lastUsed >= time)
    && (forall k :: k in s.files.filesystem && k !in s.files.pins ==> s.files.filesystem[k].lastUsed >= time)
    && (forall c :: c in s.rules.entries && c !in s.rules.pending ==> s.rules.entries[c].lastUsed >= time)
    && (forall k :: k in s.probes.entries && k !in s.ProtectedProbes() ==> s.probes.entries[k].lastUsed >= time)
  }

  function Remove(s: State, v: Victim): State
    requires Evictable(s, v)
  {
    var d, f, r, p := s.files.directories, s.files.filesystem, s.rules.entries, s.probes.entries;
    match v
    case DirectoryVictim(k) => s.WithEntries(d - {k}, f, r, p, d[k].bytes)
    case FilesystemVictim(k) => s.WithEntries(d, f - {k}, r, p, f[k].bytes)
    case RuleVictim(c) => s.WithEntries(d, f, r - {c}, p, r[c].bytes)
    case ProbeVictim(k) => s.WithEntries(d, f, r, p - {k}, p[k].bytes)
  }

  /** Other entries, if the counter follows. */
  lemma EntriesReplaced(s: State, d: map<nat, Entry>, f: map<nat, Entry>, r: map<Command, Entry>, p: map<nat, Entry>, freed: nat)
    requires s.Valid() && s.files.pins <= f.Keys
    requires UsedBy(d, s.clock) && UsedBy(f, s.clock) && UsedBy(r, s.clock) && UsedBy(p, s.clock)
    requires freed + Total(d) + Total(f) + Total(r) + Total(p) ==
      Total(s.files.directories) + Total(s.files.filesystem) + Total(s.rules.entries) + Total(s.probes.entries)
    ensures freed <= s.used
    ensures var t := s.WithEntries(d, f, r, p, freed);
      t.Valid() && t.Capacity() == s.Capacity() - freed
  {
    hide Total, Sum, Owned, UsedBy;
  }

  lemma RemoveIsValid(s: State, v: Victim)
    requires s.Valid() && Evictable(s, v)
    ensures EntryOf(s, v).bytes <= s.used
    ensures Remove(s, v).Valid()
    ensures Remove(s, v).Capacity() == s.Capacity() - EntryOf(s, v).bytes
  {
    assert s.Recent() && s.files.pins <= s.files.filesystem.Keys;
    var d: map<nat, Entry>, f: map<nat, Entry> := s.files.directories, s.files.filesystem;
    var r: map<Command, Entry>, p: map<nat, Entry> := s.rules.entries, s.probes.entries;
    hide Total, UsedBy, State.Valid, State.Capacity, State.WithEntries;
    match v {
      case DirectoryVictim(k) =>
        TotalWithout(d, k);
        UsedWithout(d, k, s.clock);
        EntriesReplaced(s, d - {k}, f, r, p, d[k].bytes);
      case FilesystemVictim(k) =>
        TotalWithout(f, k);
        UsedWithout(f, k, s.clock);
        EntriesReplaced(s, d, f - {k}, r, p, f[k].bytes);
      case RuleVictim(c) =>
        TotalWithout(r, c);
        UsedWithout(r, c, s.clock);
        EntriesReplaced(s, d, f, r - {c}, p, r[c].bytes);
      case ProbeVictim(k) =>
        TotalWithout(p, k);
        UsedWithout(p, k, s.clock);
        EntriesReplaced(s, d, f, r, p - {k}, p[k].bytes);
    }
  }

  /** Nothing but entries and the counter differ. */
  ghost predicate OnlyEntriesDiffer(s: State, t: State) {
    t == s.(
      used := t.used,
      files := s.files.(directories := t.files.directories, filesystem := t.files.filesystem),
      rules := s.rules.(entries := t.rules.entries),
      probes := s.probes.(entries := t.probes.entries))
  }

  lemma OrderAdvances(s: State, t: State, time: nat, later: nat)
    requires OnlyEntriesDiffer(s, t) && EvictedInOrder(s, t, time)
    requires NoneOlder(t, later) && time <= later
    ensures EvictedInOrder(s, t, later)
  {
  }

  lemma VictimIsRecent(s: State, t: State, v: Victim, time: nat)
    requires OnlyEntriesDiffer(s, t) && EvictedInOrder(s, t, time) && Evictable(t, v)
    ensures EntryOf(t, v).lastUsed >= time
    ensures Evictable(s, v) && EntryOf(s, v) == EntryOf(t, v)
  {
  }

  lemma RemovedUpTo<K(!new)>(before: map<K, Entry>, after: map<K, Entry>, pinned: set<K>, k: K)
    requires k in after && k !in pinned && EvictedUpTo(before, after, pinned, after[k].lastUsed)
    ensures EvictedUpTo(before, after - {k}, pinned, after[k].lastUsed) && k in before
  {
  }

  lemma RemoveInOrder(s: State, t: State, v: Victim)
    requires OnlyEntriesDiffer(s, t) && Evictable(t, v) && EvictedInOrder(s, t, EntryOf(t, v).lastUsed)
    ensures EvictedInOrder(s, Remove(t, v), EntryOf(t, v).lastUsed)
    ensures OnlyEntriesDiffer(s, Remove(t, v))
    ensures Evictable(s, v) && !Evictable(Remove(t, v), v)
  {
    hide EvictedUpTo;
    match v {
      case DirectoryVictim(k) => RemovedUpTo(s.files.directories, t.files.directories, {}, k);
      case FilesystemVictim(k) => RemovedUpTo(s.files.filesystem, t.files.filesystem, s.files.pins, k);
      case RuleVictim(c) => RemovedUpTo(s.rules.entries, t.rules.entries, s.rules.pending, c);
      case ProbeVictim(k) => RemovedUpTo(s.probes.entries, t.probes.entries, s.ProtectedProbes(), k);
    }
  }

  lemma InOrderIsEvicted(s: State, t: State, time: nat)
    requires OnlyEntriesDiffer(s, t) && EvictedInOrder(s, t, time)
    ensures EntriesEvicted(s, t)
  {
  }

  /** After evicting in order up to `time`; `last` is the entry that went last, and without it nothing would fit. */
  ghost predicate EvictedSoFar(s: State, t: State, time: nat, last: Option<Victim>) {
    && t.Valid() && OnlyEntriesDiffer(s, t) && EvictedInOrder(s, t, time)
    && (last.None? || s.Capacity() <= s.limit ==> t == s)
    && (last.Some? ==>
          && Evictable(s, last.value) && !Evictable(t, last.value)
          && EntryOf(s, last.value).lastUsed == time
          && t.Capacity() + EntryOf(s, last.value).bytes > s.limit)
  }

  lemma InitiallyEvicted(s: State)
    requires s.Valid()
    ensures EvictedSoFar(s, s, 0, None)
  {
  }

  lemma EvictedNothing(s: State, t: State, time: nat, last: Option<Victim>)
    requires EvictedSoFar(s, t, time, last)
    ensures s.Capacity() <= s.limit ==> t == s
  {
  }

  lemma EvictsNext(s: State, t: State, time: nat, last: Option<Victim>, v: Victim)
    requires EvictedSoFar(s, t, time, last) && t.Capacity() > s.limit
    requires Evictable(t, v) && NoneOlder(t, EntryOf(t, v).lastUsed)
    ensures EntryOf(t, v).bytes <= t.used && Remove(t, v).EntryCount() < t.EntryCount()
    ensures EvictedSoFar(s, Remove(t, v), EntryOf(t, v).lastUsed, Some(v))
  {
    hide NoneOlder, EvictedInOrder, OnlyEntriesDiffer, Remove, Evictable, EntryOf;
    VictimIsRecent(s, t, v, time);
    OrderAdvances(s, t, time, EntryOf(t, v).lastUsed);
    RemoveInOrder(s, t, v);
    RemoveIsValid(t, v);
    RemoveShrinks(t, v);
  }

  lemma EvictedPhases(s: State, u: State, v: State, time: nat, last: Option<Victim>)
    requires EntriesEvicted(s, u) && CountsKept(u) && EvictedSoFar(u, v, time, last)
    requires s.WithinCounts() ==> u == s
    ensures v.Valid() && EntriesEvicted(s, v) && CountsKept(v)
    ensures s.WithinCounts() ==> EvictedInOrder(s, v, time)
    ensures s.WithinCounts() && s.Capacity() <= s.limit ==> v == s
  {
    hide EvictedInOrder;
    InOrderIsEvicted(u, v, time);
    SmallerMap(v.files.directories, u.files.directories);
    SmallerMap(v.files.filesystem, u.files.filesystem);
    SmallerMap(v.rules.entries, u.rules.entries);
    SmallerMap(v.probes.entries, u.probes.entries);
    hide OldestEvicted;
    EvictedTwice(s, u, v);
  }

  lemma EvictedTwice(s: State, u: State, v: State)
    requires EntriesEvicted(s, u) && EntriesEvicted(u, v)
    ensures EntriesEvicted(s, v)
  {
    hide OldestEvicted;
    OldestEvictedTwice(s.files.directories, u.files.directories, v.files.directories, {}, {});
    OldestEvictedTwice(s.files.filesystem, u.files.filesystem, v.files.filesystem, s.files.pins, u.files.pins);
    OldestEvictedTwice(s.rules.entries, u.rules.entries, v.rules.entries, s.rules.pending, u.rules.pending);
    OldestEvictedTwice(s.probes.entries, u.probes.entries, v.probes.entries, s.ProtectedProbes(), u.ProtectedProbes());
  }

  /** Dropping the earliest rule diagnostic, or else the earliest probe diagnostic. */
  function DropFirst(s: State): State
    requires s.rules.errors != [] || s.probes.errors != []
  {
    if s.rules.errors != [] then
      s.(used := Minus(s.used, OWNED_SIZE + s.rules.errors[0].capacity), rules := s.rules.(errors := s.rules.errors[1..]))
    else
      s.(used := Minus(s.used, OWNED_SIZE + s.probes.errors[0].capacity), probes := s.probes.(errors := s.probes.errors[1..]))
  }

  lemma DropFirstIsDropped(s: State, t: State)
    requires DiagnosticsDropped(s, t) && (t.rules.errors != [] || t.probes.errors != [])
    ensures DiagnosticsDropped(s, DropFirst(t))
  {
    SuffixStep(t.rules.errors, s.rules.errors);
    SuffixStep(t.probes.errors, s.probes.errors);
    hide Suffix;
  }

  lemma SuffixStep(later: seq<Message>, earlier: seq<Message>)
    requires Suffix(later, earlier)
    ensures later != [] ==> Suffix(later[1..], earlier)
  {
  }

  lemma FirstOwned(errors: seq<Message>)
    requires errors != []
    ensures Owned(errors) == OWNED_SIZE + errors[0].capacity + Owned(errors[1..])
  {
  }

  /** Other diagnostics, if the counter follows. */
  lemma ErrorsReplaced(s: State, r: seq<Message>, p: seq<Message>)
    requires s.Valid() && Owned(r) + Owned(p) <= Owned(s.rules.errors) + Owned(s.probes.errors)
    ensures Owned(s.rules.errors) + Owned(s.probes.errors) <= s.used
    ensures s.(used := s.used - (Owned(s.rules.errors) + Owned(s.probes.errors)) + Owned(r) + Owned(p),
      rules := s.rules.(errors := r), probes := s.probes.(errors := p)).Valid()
  {
    hide Total, Sum, UsedBy, Owned;
  }

  lemma DropFirstIsValid(t: State)
    requires t.Valid() && (t.rules.errors != [] || t.probes.errors != [])
    ensures DropFirst(t).Valid()
    ensures Owned(t.rules.errors) + Owned(t.probes.errors) <= t.used
    ensures DropFirst(t).used == t.used
      - (Owned(t.rules.errors) + Owned(t.probes.errors))
      + (Owned(DropFirst(t).rules.errors) + Owned(DropFirst(t).probes.errors))
  {
    hide Total, Sum, UsedBy, State.Valid, Owned;
    if t.rules.errors != [] {
      FirstOwned(t.rules.errors);
      ErrorsReplaced(t, t.rules.errors[1..], t.probes.errors);
    } else {
      FirstOwned(t.probes.errors);
      ErrorsReplaced(t, t.rules.errors, t.probes.errors[1..]);
    }
  }

  lemma SmallerMap<K(!new)>(kept: map<K, Entry>, m: map<K, Entry>)
    requires forall k :: k in kept ==> k in m && kept[k] == m[k]
    ensures |kept| <= |m| && kept.Keys <= m.Keys
  {
    var gone := m.Keys - kept.Keys;
    assert m.Keys == kept.Keys + gone;
  }

  lemma EvictionIsComplete(s: State, u: State, t: State)
    requires u.Valid() && EntriesEvicted(s, u) && CountsKept(u) && DiagnosticsDropped(u, t)
    requires u.Capacity() <= s.limit || u.AllProtected()
    requires u.Capacity() <= s.limit ==> t == u
    requires t.Capacity() <= s.limit || (t.rules.errors == [] && t.probes.errors == [])
    requires s.WithinCounts() && s.Capacity() <= s.limit ==> u == s
    requires s.WithinCounts() ==> exists time :: EvictedInOrder(s, u, time)
    ensures Evicted(s, t)
  {
    hide EvictedInOrder, OldestEvicted, CountsKept, State.Valid, Suffix, EntriesEvicted;
    assert t.AllProtected() <==> u.AllProtected();
    hide State.AllProtected;
    assert s.limit == u.limit == t.limit by {
      SameLimit(s, u, t);
    }
    hide DiagnosticsDropped, State.Capacity;
    assert EvictionStops(s, u, t);
  }

  lemma SameLimit(s: State, u: State, t: State)
    requires EntriesEvicted(s, u) && DiagnosticsDropped(u, t)
    ensures s.limit == u.limit == t.limit
  {
  }

  lemma FloorIsBelow(s: State)
    ensures s.Floor() <= s.Accounted()
    ensures s.AllProtected() && s.rules.errors == [] && s.probes.errors == [] ==> s.Floor() == s.Accounted()
  {
    PinnedTotal(s.files.filesystem, s.files.pins);
    PinnedTotal(s.rules.entries, s.rules.pending);
    PinnedTotal(s.probes.entries, s.ProtectedProbes());
    if s.files.directories == map[] {
      SumOfNothing(Sizes(s.files.directories));
    }
  }

  lemma EvictionKeepsFloor(s: State, u: State)
    requires s.Valid() && u.Valid() && EntriesEvicted(s, u)
    ensures u.Floor() == s.Floor()
  {
    hide Total, Sum, Owned;
    EvictionKeepsPinned(s.files.filesystem, u.files.filesystem, s.files.pins);
    EvictionKeepsPinned(s.rules.entries, u.rules.entries, s.rules.pending);
    EvictionKeepsPinned(s.probes.entries, u.probes.entries, s.ProtectedProbes());
  }

  lemma EvictionShrinks(s: State, u: State)
    requires s.Valid() && u.Valid() && EntriesEvicted(s, u)
    ensures u.Accounted() <= s.Accounted()
  {
    TotalShrinks(s.files.directories, u.files.directories);
    TotalShrinks(s.files.filesystem, u.files.filesystem);
    TotalShrinks(s.rules.entries, u.rules.entries);
    TotalShrinks(s.probes.entries, u.probes.entries);
  }

  lemma TotalShrinks<K(!new)>(m: map<K, Entry>, kept: map<K, Entry>)
    requires forall k :: k in kept ==> k in m && kept[k] == m[k]
    ensures Total(kept) <= Total(m)
  {
    assert Pinned(m, kept.Keys) == kept;
    PinnedTotal(m, kept.Keys);
  }

  lemma DroppingKeepsFloor(u: State, t: State)
    requires u.Valid() && t.Valid() && DiagnosticsDropped(u, t)
    ensures t.Floor() == u.Floor() && t.Accounted() <= u.Accounted()
  {
    hide Total, Sum;
    OwnedDropped(u.rules.errors, |u.rules.errors| - |t.rules.errors|);
    OwnedDropped(u.probes.errors, |u.probes.errors| - |t.probes.errors|);
  }

  /** Everything that eviction leaves alone. */
  predicate EvictionLeaves(s: State, t: State) {
    t == s.(
      used := t.used,
      files := s.files.(directories := t.files.directories, filesystem := t.files.filesystem),
      rules := s.rules.(entries := t.rules.entries, errors := t.rules.errors),
      probes := s.probes.(entries := t.probes.entries, errors := t.probes.errors))
  }

  lemma EvictionIsLocal(s: State, t: State)
    requires Evicted(s, t)
    ensures EvictionLeaves(s, t)
  {
    hide OldestEvicted, CountsKept, EvictionStops, State.Valid, Suffix;
  }

  lemma EvictionChangesNoEntry(s: State, t: State)
    requires Evicted(s, t)
    ensures forall c :: c in t.rules.entries ==> c in s.rules.entries && t.rules.entries[c] == s.rules.entries[c]
    ensures forall k :: k in t.probes.entries ==> k in s.probes.entries && t.probes.entries[k] == s.probes.entries[k]
    ensures forall k :: k in s.probes.entries && k in s.ProtectedProbes() ==> k in t.probes.entries
    ensures forall c :: c in s.rules.entries && c in s.rules.pending ==> c in t.rules.entries
  {
    hide CountsKept, EvictionStops, State.Valid, Suffix;
  }

  lemma EvictionChangesNoFile(s: State, t: State)
    requires Evicted(s, t)
    ensures forall k :: k in t.files.directories ==> k in s.files.directories && t.files.directories[k] == s.files.directories[k]
    ensures forall k :: k in t.files.filesystem ==> k in s.files.filesystem && t.files.filesystem[k] == s.files.filesystem[k]
    ensures t.clock == s.clock
  {
    hide CountsKept, EvictionStops, State.Valid, Suffix;
  }

  lemma EvictionDropsEarliest(s: State, t: State)
    requires Evicted(s, t)
    ensures Suffix(t.rules.errors, s.rules.errors)
  {
    hide OldestEvicted, CountsKept, EvictionStops, State.Valid, Suffix;
  }

  lemma SuffixTwice(a: seq<Message>, b: seq<Message>, c: seq<Message>)
    requires Suffix(b, a) && Suffix(c, b)
    ensures Suffix(c, a)
  {
  }

  lemma SuffixLast(a: seq<Message>, b: seq<Message>)
    requires Suffix(b, a) && b != []
    ensures a != [] && b[|b| - 1] == a[|a| - 1]
  {
  }

  lemma EvictionTakesOldestRules(s: State, t: State)
    requires Evicted(s, t)
    ensures OldestEvicted(s.rules.entries, t.rules.entries, s.rules.pending)
  {
    hide OldestEvicted, CountsKept, EvictionStops, State.Valid, Suffix;
  }

  lemma EvictingExcess(s: State, u: State)
    requires s.Valid() && u.Valid() && EntriesEvicted(s, u)
    ensures u.Capacity() <= s.Capacity()
  {
    EvictionShrinks(s, u);
    hide State.Valid, State.Accounted, OldestEvicted;
  }

  /** The command's programs were used after everything else. */
  ghost predicate Newest(s: State, c: Command) {
    && c in s.rules.entries && s.rules.entries[c].lastUsed == s.clock
    && forall d :: d in s.rules.entries && d != c ==> s.rules.entries[d].lastUsed < s.clock
  }

  lemma SomeUnprotected(kept: map<Command, Entry>, pending: set<Command>) returns (d: Command)
    requires |kept| > |pending|
    ensures d in kept && d !in pending
  {
    assert !(kept.Keys <= pending) by {
      if kept.Keys <= pending {
        SmallerSet(kept.Keys, pending);
      }
    }
    d :| d in kept && d !in pending;
  }

  /** Of more entries than there can be requests, the newest is never the one to go. */
  lemma NewestStays(s: State, kept: map<Command, Entry>, c: Command)
    requires s.Valid() && Newest(s, c) && OldestEvicted(s.rules.entries, kept, s.rules.pending)
    requires |kept| >= Min(|s.rules.entries|, MAX_RULE_CACHE_ENTRIES)
    ensures c in kept
  {
    assert |s.rules.pending| <= MAX_PENDING_RULE_REQUESTS;
    hide State.Valid;
    if |kept| >= MAX_RULE_CACHE_ENTRIES {
      var d := SomeUnprotected(kept, s.rules.pending);
    } else {
      var gone := s.rules.entries.Keys - kept.Keys;
      assert s.rules.entries.Keys == kept.Keys + gone;
      assert |gone| == 0;
    }
  }

  lemma SmallerSet<K>(a: set<K>, b: set<K>)
    requires a <= b
    ensures |a| <= |b|
  {
    assert b == a + (b - a);
  }

  lemma EvictionIsIdle(s: State, t: State)
    requires Evicted(s, t)
    ensures s.WithinCounts() && s.Capacity() <= s.limit ==> t == s
  {
    hide OldestEvicted, CountsKept, State.Valid, Suffix;
  }

  lemma FloorHoldsPinned(s: State, k: nat)
    requires s.Valid() && k in s.files.pins
    ensures k in s.files.filesystem && s.Floor() >= s.files.filesystem[k].bytes
  {
    TotalWithout(Pinned(s.files.filesystem, s.files.pins), k);
    hide Total, Sum, Owned;
  }

  /** Eviction ends within the limit exactly when what it may not touch is within the limit. */
  lemma EvictionAccounts(s: State, t: State)
    requires s.Valid() && t.Valid() && Evicted(s, t)
    ensures t.Accounted() <= s.Accounted() && t.Floor() == s.Floor() <= t.Accounted()
    ensures t.Accounted() <= s.limit || t.Accounted() == s.Floor()
  {
    var u: State :| u.Valid() && EntriesEvicted(s, u) && DiagnosticsDropped(u, t) && EvictionStops(s, u, t);
    EvictionKeepsFloor(s, u);
    EvictionShrinks(s, u);
    DroppingKeepsFloor(u, t);
    FloorIsBelow(t);
  }

  lemma EvictionEnds(s: State, t: State)
    requires Evicted(s, t)
    ensures t.Capacity() <= s.limit || (t.AllProtected() && t.rules.errors == [] && t.probes.errors == [])
  {
    hide State.Valid, EntriesEvicted, DiagnosticsDropped, State.AllProtected, CountsKept, EvictedInOrder, State.Capacity;
  }

  /** Room is made exactly if what eviction may not touch leaves it. */
  lemma EvictionMakesRoom(s: State, t: State)
    requires s.Valid() && t.Valid() && Evicted(s, t)
    ensures t.Capacity() <= s.limit <==> s.Least() <= s.limit
  {
    EvictionAccounts(s, t);
    EvictionIsLocal(s, t);
    EvictionEnds(s, t);
    FloorIsBelow(t);
    assert t.GrowthReserve() == s.GrowthReserve() && t.AdmissionReserve() == s.AdmissionReserve();
    hide State.Valid, State.Floor, State.Accounted, State.AllProtected, Evicted, EvictionLeaves, State.GrowthReserve,
      State.AdmissionReserve;
  }

  /** The probe results are within their count exactly if the protected ones are. */
  lemma EvictionCountsProbes(s: State, t: State)
    requires Evicted(s, t)
    ensures |t.probes.entries| <= MAX_PROBE_CACHE_ENTRIES <==>
            |Pinned(s.probes.entries, s.ProtectedProbes())| <= MAX_PROBE_CACHE_ENTRIES
  {
    EvictionOfProbes(s, t);
    hide *;
    ProtectedCount(s.probes.entries, t.probes.entries, s.ProtectedProbes());
  }

  lemma EvictionOfProbes(s: State, t: State)
    requires Evicted(s, t)
    ensures OldestEvicted(s.probes.entries, t.probes.entries, s.ProtectedProbes())
    ensures |t.probes.entries| <= MAX_PROBE_CACHE_ENTRIES || t.probes.entries.Keys <= s.ProtectedProbes()
  {
    hide OldestEvicted, State.Valid, Suffix, EvictedInOrder, State.Capacity, State.AllProtected;
    var u: State :| u.Valid() && EntriesEvicted(s, u) && DiagnosticsDropped(u, t) && EvictionStops(s, u, t);
    assert t.probes.entries == u.probes.entries && u.ProtectedProbes() == s.ProtectedProbes();
  }

  lemma ProtectedCount(m: map<nat, Entry>, kept: map<nat, Entry>, protected: set<nat>)
    requires OldestEvicted(m, kept, protected)
    ensures |Pinned(m, protected)| <= |kept|
    ensures kept.Keys <= protected ==> kept == Pinned(m, protected)
  {
    SmallerMap(Pinned(m, protected), kept);
  }

  lemma EvictionOrder(s: State, t: State) returns (u: State, time: nat)
    requires Evicted(s, t) && s.WithinCounts()
    ensures OnlyEntriesDiffer(s, u) && EvictedInOrder(s, u, time)
    ensures DiagnosticsDropped(u, t)
  {
    hide OldestEvicted, CountsKept, State.Valid, DiagnosticsDropped, EvictedInOrder;
    u :| u.Valid() && EntriesEvicted(s, u) && DiagnosticsDropped(u, t) && EvictionStops(s, u, t);
    time :| EvictedInOrder(s, u, time);
  }

  lemma DroppingKeepsEntries(u: State, t: State, v: Victim)
    requires DiagnosticsDropped(u, t)
    ensures Evictable(t, v) == Evictable(u, v) && t.AllProtected() == u.AllProtected()
  {
  }

  /** The entry used last of all outlives every other one that may be evicted. */
  lemma LatestGoesLast(s: State, t: State, v: Victim)
    requires Evicted(s, t) && s.WithinCounts() && Evictable(s, v) && EntryOf(s, v).lastUsed == s.clock
    requires forall w: Victim :: Evictable(s, w) && w != v ==> EntryOf(s, w).lastUsed < s.clock
    ensures Evictable(t, v) || t.AllProtected()
  {
    hide *;
    var u, time := EvictionOrder(s, t);
    DroppingKeepsEntries(u, t, v);
    if !Evictable(u, v) {
      GoneByNow(s, u, v, time);
      forall w: Victim ensures !Evictable(u, w) {
        if Evictable(u, w) {
          VictimIsRecent(s, u, w, time);
        }
      }
      NothingEvictable(u);
    }
  }

  lemma GoneByNow(s: State, u: State, v: Victim, time: nat)
    requires OnlyEntriesDiffer(s, u) && EvictedInOrder(s, u, time) && Evictable(s, v) && !Evictable(u, v)
    ensures EntryOf(s, v).lastUsed <= time
  {
  }

  lemma NothingEvictable(u: State)
    requires forall w: Victim :: !Evictable(u, w)
    ensures u.AllProtected()
  {
    forall k: nat ensures k !in u.files.directories { assert !Evictable(u, DirectoryVictim(k)); }
    forall k | k in u.files.filesystem ensures k in u.files.pins { assert !Evictable(u, FilesystemVictim(k)); }
    forall c | c in u.rules.entries ensures c in u.rules.pending { assert !Evictable(u, RuleVictim(c)); }
    forall k | k in u.probes.entries ensures k in u.ProtectedProbes() { assert !Evictable(u, ProbeVictim(k)); }
  }

  lemma PinsStay(m: map<nat, Entry>, kept: map<nat, Entry>, pins: set<nat>)
    requires OldestEvicted(m, kept, pins) && pins <= m.Keys
    ensures pins <= kept.Keys
  {
  }

  lemma MapShrinks<K(!new)>(m: map<K, Entry>, k: K)
    requires k in m
    ensures |m - {k}| == |m| - 1
  {
    assert (m - {k}).Keys == m.Keys - {k};
  }

  lemma RemoveShrinks(s: State, v: Victim)
    requires Evictable(s, v)
    ensures Remove(s, v).EntryCount() < s.EntryCount()
  {
    match v {
      case DirectoryVictim(k) => MapShrinks(s.files.directories, k);
      case FilesystemVictim(k) => MapShrinks(s.files.filesystem, k);
      case RuleVictim(c) => MapShrinks(s.rules.entries, c);
      case ProbeVictim(k) => MapShrinks(s.probes.entries, k);
    }
  }

  function Initial(limit: nat, started: bool): State {
    State(limit, 0, 0, 0, 0, started, false,
      Files(map[], map[], {}, {}, false, 0),
      Snapshot(0, None, false, false, false, 0, None),
      Rules(map[], {}, {}, map[], {}, false, [], 0, 0, false, 0, true, false, None, None, false),
      Probes(map[], {}, map[], {}, {}, {}, false, [], 0, None, false, {}))
  }

  lemma InitialIsValid(limit: nat, started: bool)
    ensures Initial(limit, started).Valid() && Initial(limit, started).Accounted() == 0
  {
    var s := Initial(limit, started);
    SumOfNothing(Sizes(s.files.directories));
    SumOfNothing(Sizes(s.rules.entries));
    SumOfNothing(s.rules.Admissions());
    SumOfNothing(s.rules.ChunkSizes());
    SumOfNothing(s.probes.admissions);
  }
}
