/**
 Discovering the rule packs in the worker. Packs and their summaries are retained while they fit the request's byte
 limit, each summary twice: once in the worker's store and once in the catalog that the main thread accounts for.
 */
module RuleDiscovery {
  import opened Wrappers
  import CacheState
  import CacheSteps
  import TextOrder

  const MAX_DISCOVERED_PACKS: nat := 128

  /** The size of a `PackSummary` on a 64-bit target. */
  const SUMMARY_SIZE: nat := 200

  /** The bytes of `trusted-key`. */
  const TRUSTED_KEY: TextOrder.Text := [0x74, 0x72, 0x75, 0x73, 0x74, 0x65, 0x64, 0x2d, 0x6b, 0x65, 0x79]

  const TOO_LARGE: string := "rule pack exceeds the configured store limit"
  const INCOMPATIBLE: string := "rule pack is incompatible with this engine"

  datatype Version = Version(major: nat, minor: nat, patch: nat)

  const ENGINE_VERSION: Version := Version(0, 2, 0)

  /** An opened pack; `bytes` is what its mapping and metadata take. */
  datatype Pack = Pack(
    path: string, id: TextOrder.Text, version: string, commit: string, license: string,
    priority: nat, minimumEngine: Version, requiredOpcodes: nat, bytes: nat)

  /** `slack` is what the buffer of the error holds beyond its text. */
  datatype Summary = Summary(
    path: string, id: TextOrder.Text, version: string, commit: string, license: string,
    compatible: bool, error: Option<string>, slack: nat)

  datatype Failure = Failure(text: string, slack: nat)

  /** Opening depends on the file and on the bytes that it may take. */
  type Opener = (string, nat) -> Result<Pack, Failure>

  datatype Store = Store(packs: seq<Pack>, summaries: seq<Summary>)

  const EMPTY: Store := Store([], [])

  /** A store under construction and the bytes counted for it. */
  datatype Discovery = Discovery(store: Store, retained: nat)

  // ---------------------------------------------------------------------
  // Sizes
  // ---------------------------------------------------------------------

  function SummaryBytes(s: Summary): nat {
    SUMMARY_SIZE + |s.path| + |s.id| + |s.version| + |s.commit| + |s.license| +
    (if s.error.Some? then |s.error.value| + s.slack else 0)
  }

  function SummariesBytes(summaries: seq<Summary>): nat {
    if summaries == [] then 0
    else SummariesBytes(summaries[..|summaries| - 1]) + SummaryBytes(summaries[|summaries| - 1])
  }

  function PacksBytes(packs: seq<Pack>): nat {
    if packs == [] then 0 else packs[0].bytes + PacksBytes(packs[1..])
  }

  /** Clones own no more than their text. */
  function Copied(summaries: seq<Summary>): seq<Summary> {
    seq(|summaries|, i requires 0 <= i < |summaries| => summaries[i].(slack := 0))
  }

  /** What the catalog reply accounts for: the store, and the copy of its summaries. */
  function CatalogBytes(store: Store): nat {
    PacksBytes(store.packs) + SummariesBytes(store.summaries) + SummariesBytes(Copied(store.summaries))
  }

  lemma SummariesAppend(summaries: seq<Summary>, s: Summary)
    ensures SummariesBytes(summaries + [s]) == SummariesBytes(summaries) + SummaryBytes(s)
  {
    assert (summaries + [s])[..|summaries|] == summaries;
  }

  lemma {:induction false} CopiesAreNoLarger(summaries: seq<Summary>)
    ensures SummariesBytes(Copied(summaries)) <= SummariesBytes(summaries)
  {
    if summaries != [] {
      var n := |summaries| - 1;
      CopiesAreNoLarger(summaries[..n]);
      assert Copied(summaries)[..n] == Copied(summaries[..n]);
    }
  }

  lemma {:induction false} PacksConcat(a: seq<Pack>, b: seq<Pack>)
    ensures PacksBytes(a + b) == PacksBytes(a) + PacksBytes(b)
  {
    if a == [] {
      assert a + b == b;
    } else {
      assert (a + b)[1..] == a[1..] + b;
      PacksConcat(a[1..], b);
    }
  }

  // ---------------------------------------------------------------------
  // What discovery retains
  // ---------------------------------------------------------------------

  function Minus(a: nat, b: nat): nat { if a < b then 0 else a - b }

  predicate AtLeast(actual: Version, minimum: Version) {
    || actual.major > minimum.major
    || (actual.major == minimum.major && actual.minor > minimum.minor)
    || (actual.major == minimum.major && actual.minor == minimum.minor && actual.patch >= minimum.patch)
  }

  /** Versions compare as numbers of three digits, each below 65536. */
  lemma VersionsAreNumbers(a: Version, b: Version)
    requires a.minor < 0x1_0000 && a.patch < 0x1_0000 && b.minor < 0x1_0000 && b.patch < 0x1_0000
    ensures AtLeast(a, b) <==>
      (a.major * 0x1_0000 + a.minor) * 0x1_0000 + a.patch >= (b.major * 0x1_0000 + b.minor) * 0x1_0000 + b.patch
  {
  }

  /** No opcode is required that the engine would have to know. */
  predicate Compatible(p: Pack) {
    AtLeast(ENGINE_VERSION, p.minimumEngine) && p.requiredOpcodes == 0
  }

  function Accepted(p: Pack): Summary {
    Summary(p.path, p.id, p.version, p.commit, p.license, true, None, 0)
  }

  function Rejected(path: string, id: TextOrder.Text, error: string, slack: nat): Summary {
    Summary(path, id, "", "", "", false, Some(error), slack)
  }

  /** A row that does not fit is left out. */
  function Noted(d: Discovery, s: Summary, limit: nat): Discovery {
    if d.retained + 2 * SummaryBytes(s) > limit then d
    else Discovery(d.store.(summaries := d.store.summaries + [s]), d.retained + 2 * SummaryBytes(s))
  }

  predicate Fits(d: Discovery, p: Pack, limit: nat) {
    d.retained + p.bytes + 2 * SummaryBytes(Accepted(p)) <= limit
  }

  function Kept(d: Discovery, p: Pack): Discovery {
    Discovery(Store(d.store.packs + [p], d.store.summaries + [Accepted(p)]),
              d.retained + p.bytes + 2 * SummaryBytes(Accepted(p)))
  }

  function Taken(d: Discovery, path: string, open: Opener, limit: nat): Discovery {
    match open(path, Minus(limit, d.retained))
    case Err(failure) => Noted(d, Rejected(path, [], failure.text, failure.slack), limit)
    case Ok(p) =>
      if !Compatible(p) then Noted(d, Rejected(p.path, [], INCOMPATIBLE, 0), limit)
      else if !Fits(d, p, limit) then Noted(d, Rejected(p.path, [], TOO_LARGE, 0), limit)
      else Kept(d, p)
  }

  function AllNoted(d: Discovery, errors: seq<Failure>, limit: nat): Discovery {
    if errors == [] then d
    else
      var n := |errors| - 1;
      Noted(AllNoted(d, errors[..n], limit), Rejected("", TRUSTED_KEY, errors[n].text, errors[n].slack), limit)
  }

  function AllTaken(d: Discovery, files: seq<string>, open: Opener, limit: nat): Discovery {
    if files == [] then d
    else
      var n := |files| - 1;
      Taken(AllTaken(d, files[..n], open, limit), files[n], open, limit)
  }

  function Considered(files: seq<string>): seq<string> {
    if |files| > MAX_DISCOVERED_PACKS then files[..MAX_DISCOVERED_PACKS] else files
  }

  function Discovered(errors: seq<Failure>, files: seq<string>, open: Opener, limit: nat): Discovery {
    AllTaken(AllNoted(Discovery(EMPTY, 0), errors, limit), Considered(files), open, limit)
  }

  // ---------------------------------------------------------------------
  // The invariant of discovery
  // ---------------------------------------------------------------------

  /** The accepted summaries, in order. */
  function AcceptedOnly(summaries: seq<Summary>): seq<Summary> {
    if summaries == [] then []
    else
      var n := |summaries| - 1;
      AcceptedOnly(summaries[..n]) + if summaries[n].compatible then [summaries[n]] else []
  }

  function SummariesOf(packs: seq<Pack>): seq<Summary> {
    seq(|packs|, i requires 0 <= i < |packs| => Accepted(packs[i]))
  }

  /** What is counted is exactly what the packs and two copies of each summary take, and it fits. */
  ghost predicate Valid(d: Discovery, limit: nat) {
    && d.retained == PacksBytes(d.store.packs) + 2 * SummariesBytes(d.store.summaries)
    && d.retained <= limit
    && AcceptedOnly(d.store.summaries) == SummariesOf(d.store.packs)
    && forall p :: p in d.store.packs ==> Compatible(p)
  }

  lemma NotedIsValid(d: Discovery, s: Summary, limit: nat)
    requires Valid(d, limit) && !s.compatible
    ensures Valid(Noted(d, s, limit), limit)
  {
    SummariesAppend(d.store.summaries, s);
    assert (d.store.summaries + [s])[..|d.store.summaries|] == d.store.summaries;
  }

  lemma KeptIsValid(d: Discovery, p: Pack, limit: nat)
    requires Valid(d, limit) && Compatible(p) && Fits(d, p, limit)
    ensures Valid(Kept(d, p), limit)
  {
    SummariesAppend(d.store.summaries, Accepted(p));
    assert (d.store.summaries + [Accepted(p)])[..|d.store.summaries|] == d.store.summaries;
    PacksConcat(d.store.packs, [p]);
    assert SummariesOf(d.store.packs + [p]) == SummariesOf(d.store.packs) + [Accepted(p)];
  }

  lemma TakenIsValid(d: Discovery, path: string, open: Opener, limit: nat)
    requires Valid(d, limit)
    ensures Valid(Taken(d, path, open, limit), limit)
  {
    hide Valid, Noted, Kept, Compatible, Fits;
    match open(path, Minus(limit, d.retained)) {
      case Err(failure) => NotedIsValid(d, Rejected(path, [], failure.text, failure.slack), limit);
      case Ok(p) =>
        NotedIsValid(d, Rejected(p.path, [], INCOMPATIBLE, 0), limit);
        NotedIsValid(d, Rejected(p.path, [], TOO_LARGE, 0), limit);
        if Compatible(p) && Fits(d, p, limit) {
          KeptIsValid(d, p, limit);
        }
    }
  }

  lemma {:induction false} AllNotedIsValid(d: Discovery, errors: seq<Failure>, limit: nat)
    requires Valid(d, limit)
    ensures Valid(AllNoted(d, errors, limit), limit)
  {
    if errors != [] {
      var n := |errors| - 1;
      AllNotedIsValid(d, errors[..n], limit);
      NotedIsValid(AllNoted(d, errors[..n], limit), Rejected("", TRUSTED_KEY, errors[n].text, errors[n].slack), limit);
    }
  }

  lemma {:induction false} AllTakenIsValid(d: Discovery, files: seq<string>, open: Opener, limit: nat)
    requires Valid(d, limit)
    ensures Valid(AllTaken(d, files, open, limit), limit)
  {
    if files != [] {
      var n := |files| - 1;
      AllTakenIsValid(d, files[..n], open, limit);
      TakenIsValid(AllTaken(d, files[..n], open, limit), files[n], open, limit);
    }
  }

  /** Whatever the packs, keys and limit: the store fits, and its packs are those of its accepted summaries. */
  lemma DiscoveredIsValid(errors: seq<Failure>, files: seq<string>, open: Opener, limit: nat)
    ensures Valid(Discovered(errors, files, open, limit), limit)
  {
    assert SummariesOf([]) == [];
    AllNotedIsValid(Discovery(EMPTY, 0), errors, limit);
    AllTakenIsValid(AllNoted(Discovery(EMPTY, 0), errors, limit), Considered(files), open, limit);
  }

  lemma {:induction false} RetainedGrows(d: Discovery, files: seq<string>, open: Opener, limit: nat, n: nat)
    requires n <= |files|
    ensures AllTaken(d, files[..n], open, limit).retained <= AllTaken(d, files, open, limit).retained
    ensures AllTaken(d, files[..n], open, limit).store.packs <= AllTaken(d, files, open, limit).store.packs
    decreases |files|
  {
    if n < |files| {
      RetainedGrows(d, files[..|files| - 1], open, limit, n);
      assert files[..|files| - 1][..n] == files[..n];
    } else {
      assert files[..n] == files;
    }
  }

  /** A compatible pack that is left out would not have fitted, even beside what was retained before it alone. */
  lemma LeftOutDoesNotFit(errors: seq<Failure>, files: seq<string>, open: Opener, limit: nat, i: nat, p: Pack)
    requires i < |Considered(files)|
    requires var before := AllTaken(AllNoted(Discovery(EMPTY, 0), errors, limit), Considered(files)[..i], open, limit);
      open(Considered(files)[i], Minus(limit, before.retained)) == Ok(p)
    requires Compatible(p) && p !in Discovered(errors, files, open, limit).store.packs
    ensures Discovered(errors, files, open, limit).retained + p.bytes + 2 * SummaryBytes(Accepted(p)) > limit
  {
    var start := AllNoted(Discovery(EMPTY, 0), errors, limit);
    var all := Considered(files);
    var before := AllTaken(start, all[..i], open, limit);
    RetainedGrows(start, all, open, limit, i);
    RetainedGrows(start, all, open, limit, i + 1);
    assert all[..i + 1][..i] == all[..i];
    assert Fits(before, p, limit) ==> AllTaken(start, all[..i + 1], open, limit) == Kept(before, p);
    assert Fits(before, p, limit) ==> p in Kept(before, p).store.packs;
  }

  // ---------------------------------------------------------------------
  // Order of the packs
  // ---------------------------------------------------------------------

  /** Higher priority first, then by identity. */
  predicate Before(a: Pack, b: Pack) {
    a.priority > b.priority || (a.priority == b.priority && TextOrder.Less(a.id, b.id))
  }

  lemma BeforeOrders(a: Pack, b: Pack)
    ensures Before(a, b) <==>
      a.priority > b.priority || (a.priority == b.priority && exists k: nat :: TextOrder.DiffersBelow(a.id, b.id, k))
  {
    TextOrder.LessIsLexicographic(a.id, b.id);
  }

  /** Stable: equal packs keep their order. */
  function Inserted(p: Pack, packs: seq<Pack>): seq<Pack> {
    if packs == [] || Before(p, packs[0]) then [p] + packs else [packs[0]] + Inserted(p, packs[1..])
  }

  function Sorted(packs: seq<Pack>): seq<Pack> {
    if packs == [] then [] else Inserted(packs[|packs| - 1], Sorted(packs[..|packs| - 1]))
  }

  lemma {:induction false} InsertedKeeps(p: Pack, packs: seq<Pack>)
    ensures multiset(Inserted(p, packs)) == multiset(packs) + multiset{p}
    ensures PacksBytes(Inserted(p, packs)) == PacksBytes(packs) + p.bytes
  {
    if packs == [] || Before(p, packs[0]) {
      PacksConcat([p], packs);
    } else {
      InsertedKeeps(p, packs[1..]);
      assert packs == [packs[0]] + packs[1..];
      PacksConcat([packs[0]], Inserted(p, packs[1..]));
    }
  }

  /** Sorting moves packs about and nothing more. */
  lemma {:induction false} SortedKeeps(packs: seq<Pack>)
    ensures multiset(Sorted(packs)) == multiset(packs)
    ensures PacksBytes(Sorted(packs)) == PacksBytes(packs)
  {
    if packs != [] {
      var n := |packs| - 1;
      SortedKeeps(packs[..n]);
      InsertedKeeps(packs[n], Sorted(packs[..n]));
      assert packs == packs[..n] + [packs[n]];
      PacksConcat(packs[..n], [packs[n]]);
    }
  }

  ghost predicate Ordered(packs: seq<Pack>) {
    forall i, j :: 0 <= i < j < |packs| ==> !Before(packs[j], packs[i])
  }

  /** What is not before `a` is not before anything that `a` comes before. */
  lemma BeforeCarriesOver(a: Pack, b: Pack, c: Pack)
    requires Before(a, b) && !Before(c, b)
    ensures !Before(c, a)
  {
    if Before(c, a) && c.priority == a.priority == b.priority {
      TextOrder.LessIsTransitive(c.id, a.id, b.id);
    }
  }

  lemma {:induction false} InsertedIsOrdered(p: Pack, packs: seq<Pack>)
    requires Ordered(packs)
    ensures Ordered(Inserted(p, packs))
  {
    hide Before;
    if packs == [] {
    } else if Before(p, packs[0]) {
      forall j | 0 <= j < |packs| ensures !Before(packs[j], p) {
        if j == 0 {
          BeforeIsAsymmetric(p, packs[0]);
        } else {
          BeforeCarriesOver(p, packs[0], packs[j]);
        }
      }
    } else {
      InsertedIsOrdered(p, packs[1..]);
      InsertedKeeps(p, packs[1..]);
      var rest := Inserted(p, packs[1..]);
      forall j | 0 <= j < |rest| ensures !Before(rest[j], packs[0]) {
        assert rest[j] in multiset(packs[1..]) + multiset{p};
      }
    }
  }

  lemma BeforeIsAsymmetric(a: Pack, b: Pack)
    requires Before(a, b)
    ensures !Before(b, a)
  {
    if a.priority == b.priority {
      TextOrder.LessIsAsymmetric(a.id, b.id);
    }
  }

  lemma {:induction false} SortedIsOrdered(packs: seq<Pack>)
    ensures Ordered(Sorted(packs))
  {
    if packs != [] {
      SortedIsOrdered(packs[..|packs| - 1]);
      InsertedIsOrdered(packs[|packs| - 1], Sorted(packs[..|packs| - 1]));
    }
  }

  /** The catalog of the discovered packs, sorted, is within the limit. */
  lemma CatalogIsWithinLimit(errors: seq<Failure>, files: seq<string>, open: Opener, limit: nat)
    ensures var d := Discovered(errors, files, open, limit);
      CatalogBytes(Store(Sorted(d.store.packs), d.store.summaries)) <= d.retained <= limit
  {
    var d := Discovered(errors, files, open, limit);
    DiscoveredIsValid(errors, files, open, limit);
    SortedKeeps(d.store.packs);
    CopiesAreNoLarger(d.store.summaries);
  }

  /**
   The reservation that the main thread makes covers the request and the limit it
   sends, so the catalog of that request fits the reservation.
   */
  lemma CatalogFitsReservation(s: CacheState.State, errors: seq<Failure>, files: seq<string>, open: Opener)
    ensures var limit := CacheState.Minus(CacheSteps.DiscoveryBudget(s), s.rules.configuration);
      var d := Discovered(errors, files, open, limit);
      CatalogBytes(Store(Sorted(d.store.packs), d.store.summaries)) <=
      CacheSteps.DiscoveryReserved(s).rules.catalog.value.bytes
  {
    CatalogIsWithinLimit(errors, files, open, CacheState.Minus(CacheSteps.DiscoveryBudget(s), s.rules.configuration));
  }

  // ---------------------------------------------------------------------
  // The worker
  // ---------------------------------------------------------------------

  /** Counts a summary twice and keeps it, if both copies fit. */
  method PushBoundedSummary(store: Store, retained: nat, s: Summary, limit: nat) returns (grown: Store, counted: nat)
    ensures Discovery(grown, counted) == Noted(Discovery(store, retained), s, limit)
  {
    grown, counted := store, retained;
    var bytes := 2 * SummaryBytes(s);
    if counted + bytes > limit {
      return;
    }
    counted := counted + bytes;
    grown := grown.(summaries := grown.summaries + [s]);
  }

  method TakeFile(store: Store, retained: nat, path: string, open: Opener, limit: nat)
    returns (grown: Store, counted: nat)
    ensures Discovery(grown, counted) == Taken(Discovery(store, retained), path, open, limit)
  {
    grown, counted := store, retained;
    match open(path, Minus(limit, retained)) {
      case Ok(p) =>
        var compatible := Compatible(p);
        var bytes := 2 * SummaryBytes(Accepted(p));
        if compatible && retained + p.bytes + bytes <= limit {
          counted := counted + p.bytes + bytes;
          grown := Store(grown.packs + [p], grown.summaries + [Accepted(p)]);
        } else {
          var error := if compatible then TOO_LARGE else INCOMPATIBLE;
          grown, counted := PushBoundedSummary(grown, counted, Rejected(p.path, [], error, 0), limit);
        }
      case Err(failure) =>
        grown, counted := PushBoundedSummary(grown, counted, Rejected(path, [], failure.text, failure.slack), limit);
    }
  }

  lemma NothingDiscovered(errors: seq<Failure>, files: seq<string>, open: Opener, limit: nat)
    ensures AllNoted(Discovery(EMPTY, 0), errors[..0], limit) == Discovery(EMPTY, 0)
    ensures Discovered(errors, files, open, limit) ==
      AllTaken(AllNoted(Discovery(EMPTY, 0), errors, limit), Considered(files), open, limit)
    ensures CatalogBytes(EMPTY) <= limit && Ordered(EMPTY.packs)
  {
    hide AllTaken;
  }

  lemma NextNoted(d: Discovery, errors: seq<Failure>, i: nat, limit: nat)
    requires i < |errors|
    ensures AllNoted(d, errors[..i + 1], limit) ==
      Noted(AllNoted(d, errors[..i], limit), Rejected("", TRUSTED_KEY, errors[i].text, errors[i].slack), limit)
  {
    assert errors[..i + 1][..i] == errors[..i];
    hide Noted, Rejected;
  }

  lemma NoneTaken(d: Discovery, files: seq<string>, open: Opener, limit: nat)
    ensures AllTaken(d, files[..0], open, limit) == d
  {
  }

  lemma NextTaken(d: Discovery, files: seq<string>, i: nat, open: Opener, limit: nat)
    requires i < |files|
    ensures AllTaken(d, files[..i + 1], open, limit) == Taken(AllTaken(d, files[..i], open, limit), files[i], open, limit)
  {
    assert files[..i + 1][..i] == files[..i];
    hide Taken;
  }

  /**
   `patience` is how often the question whether to go on is answered with yes.
   A cancelled discovery leaves nothing behind.
   */
  method DiscoverBoundedWhile(errors: seq<Failure>, files: seq<string>, open: Opener, limit: nat, patience: nat)
    returns (store: Store)
    ensures |errors| + |Considered(files)| > patience ==> store == EMPTY
    ensures |errors| + |Considered(files)| <= patience ==>
      var d := Discovered(errors, files, open, limit); store == Store(Sorted(d.store.packs), d.store.summaries)
    ensures CatalogBytes(store) <= limit && Ordered(store.packs)
  {
    CatalogIsWithinLimit(errors, files, open, limit);
    SortedIsOrdered(Discovered(errors, files, open, limit).store.packs);
    NothingDiscovered(errors, files, open, limit);
    hide Noted, Taken, AllNoted, AllTaken, Discovered, Sorted, Ordered, CatalogBytes, Considered, Rejected;
    var retained := 0;
    store := EMPTY;
    for i := 0 to |errors|
      invariant i <= patience && Discovery(store, retained) == AllNoted(Discovery(EMPTY, 0), errors[..i], limit)
    {
      if i >= patience {
        return EMPTY;
      }
      NextNoted(Discovery(EMPTY, 0), errors, i, limit);
      store, retained :=
        PushBoundedSummary(store, retained, Rejected("", TRUSTED_KEY, errors[i].text, errors[i].slack), limit);
    }
    assert errors[..|errors|] == errors;
    var considered := Considered(files);
    ghost var start := Discovery(store, retained);
    NoneTaken(start, considered, open, limit);
    for i := 0 to |considered|
      invariant |errors| + i <= patience && Discovery(store, retained) == AllTaken(start, considered[..i], open, limit)
    {
      if |errors| + i >= patience {
        return EMPTY;
      }
      NextTaken(start, considered, i, open, limit);
      store, retained := TakeFile(store, retained, considered[i], open, limit);
    }
    assert considered[..|considered|] == considered;
    store := store.(packs := Sorted(store.packs));
  }
}
