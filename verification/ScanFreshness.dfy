/**
 Directory scans in the completion cache: pending markers, request tokens,
 per-directory generations and their pruning. Whatever the worker answers, and
 in whatever order, a reply to a scan enqueued before the latest refresh of its
 directory is never installed.
 */
module ScanFreshness {

  const MAX_PENDING_SCANS: nat := 512
  const MAX_DIRECTORY_CACHE_ENTRIES: nat := 4096

  datatype ScanKey = ScanKey(directory: string, prefix: string, executableOnly: bool)

  /** What a scan request carries besides its token; the worker echoes both in the reply. */
  datatype Request = Request(key: ScanKey, generation: nat)

  lemma RemovalSize<T>(a: set<T>, b: set<T>)
    ensures |a - b| <= |a|
  {
    assert a == (a - b) + (a * b);
  }

  /** A token is stale when its scan was enqueued before the latest refresh of the directory. */
  predicate Stale(key: ScanKey, token: nat, refreshedAt: map<string, nat>) {
    !key.executableOnly && key.directory in refreshedAt && token <= refreshedAt[key.directory]
  }

  function GenerationOf(key: ScanKey, generations: map<string, nat>): nat {
    if key.executableOnly || key.directory !in generations then 0 else generations[key.directory]
  }

  ghost predicate Bounded(values: map<string, nat>, clock: nat) {
    forall d :: d in values ==> values[d] <= clock
  }

  ghost predicate IssuedBelow(issued: map<nat, Request>, requestClock: nat, generationClock: nat) {
    forall t :: t in issued ==> t <= requestClock && issued[t].generation <= generationClock
  }

  ghost predicate Traceable(tokens: map<ScanKey, nat>, issued: map<nat, Request>) {
    forall k :: k in tokens ==> tokens[k] in issued && issued[tokens[k]].key == k
  }

  /** A stale request that could still be answered asks under an older generation than the current one. */
  ghost predicate StaleLags(tokens: map<ScanKey, nat>, issued: map<nat, Request>,
                            refreshedAt: map<string, nat>, generations: map<string, nat>) {
    forall k :: k in tokens && tokens[k] in issued && Stale(k, tokens[k], refreshedAt) ==>
      k.directory in generations && issued[tokens[k]].generation < generations[k.directory]
  }

  ghost predicate NoneStale(entries: map<ScanKey, nat>, refreshedAt: map<string, nat>) {
    forall k :: k in entries ==> !Stale(k, entries[k], refreshedAt)
  }

  /** A newly issued token is above every refresh, so it adds nothing stale and re-uses no number. */
  lemma IssuingKeeps(tokens: map<ScanKey, nat>, issued: map<nat, Request>, refreshedAt: map<string, nat>,
                     generations: map<string, nat>, key: ScanKey, clock: nat, generationClock: nat)
    requires IssuedBelow(issued, clock, generationClock)
    requires Bounded(refreshedAt, clock) && Bounded(generations, generationClock)
    requires Traceable(tokens, issued) && StaleLags(tokens, issued, refreshedAt, generations)
    ensures clock + 1 !in issued
    ensures var issued' := issued[clock + 1 := Request(key, GenerationOf(key, generations))];
      && IssuedBelow(issued', clock + 1, generationClock)
      && Traceable(tokens[key := clock + 1], issued')
      && StaleLags(tokens[key := clock + 1], issued', refreshedAt, generations)
  {
  }

  /** A refresh makes every earlier request of the directory stale, and raises the generation above all of them. */
  lemma RefreshKeeps(tokens: map<ScanKey, nat>, issued: map<nat, Request>, entries: map<ScanKey, nat>,
                     refreshedAt: map<string, nat>, generations: map<string, nat>,
                     directory: string, clock: nat, generationClock: nat)
    requires IssuedBelow(issued, clock, generationClock) && Bounded(generations, generationClock)
    requires StaleLags(tokens, issued, refreshedAt, generations) && NoneStale(entries, refreshedAt)
    requires forall k :: k in entries ==> k.directory != directory || k.executableOnly
    ensures StaleLags(tokens, issued, refreshedAt[directory := clock], generations[directory := generationClock + 1])
    ensures NoneStale(entries, refreshedAt[directory := clock])
    ensures Bounded(generations[directory := generationClock + 1], generationClock + 1)
    ensures IssuedBelow(issued, clock, generationClock + 1)
  {
  }

  lemma TraceableGrows(entries: map<ScanKey, nat>, issued: map<nat, Request>, token: nat, request: Request)
    requires Traceable(entries, issued) && token !in issued
    ensures Traceable(entries, issued[token := request])
  {
  }

  /** The installed scans a refresh of the directory makes out of date; executable ones stay. */
  function Superseded(entries: map<ScanKey, nat>, directory: string): set<ScanKey> {
    set k | k in entries && k.directory == directory && !k.executableOnly
  }

  lemma DroppingKeeps(entries: map<ScanKey, nat>, tokens: map<ScanKey, nat>, issued: map<nat, Request>,
                      refreshedAt: map<string, nat>, generations: map<string, nat>,
                      stale: set<ScanKey>, gone: set<ScanKey>)
    requires Traceable(tokens, issued) && StaleLags(tokens, issued, refreshedAt, generations)
    requires Traceable(entries, issued) && NoneStale(entries, refreshedAt)
    ensures Traceable(tokens - gone, issued) && StaleLags(tokens - gone, issued, refreshedAt, generations)
    ensures Traceable(entries - stale, issued) && NoneStale(entries - stale, refreshedAt)
  {
  }

  class ScanCache {
    /** Installed scans, each with the token of the request it answers. */
    var entries: map<ScanKey, nat>
    var pending: set<ScanKey>
    var scanDeferred: set<ScanKey>
    var scanTokens: map<ScanKey, nat>
    var scanRequestClock: nat
    var directoryGenerations: map<string, nat>
    var directoryGenerationClock: nat
    var workerAttached: bool

    /** Every request ever enqueued, by token; stands for the channel to the worker and everything in it. */
    var issued: map<nat, Request>
    /** The request clock at the latest refresh of each directory. */
    ghost var refreshedAt: map<string, nat>

    ghost predicate Valid()
      reads this
    {
      && (forall k :: k in scanTokens ==> k in pending)
      && (forall k :: k in scanDeferred ==> k in pending)
      && |pending| <= MAX_PENDING_SCANS
      && IssuedBelow(issued, scanRequestClock, directoryGenerationClock)
      && Bounded(refreshedAt, scanRequestClock)
      && Bounded(directoryGenerations, directoryGenerationClock)
      && Traceable(scanTokens, issued)
      && StaleLags(scanTokens, issued, refreshedAt, directoryGenerations)
      && Traceable(entries, issued)
      && Fresh()
    }

    /** No installed scan answers a request that predates the latest refresh of its directory. */
    ghost predicate Fresh()
      reads this
    {
      NoneStale(entries, refreshedAt)
    }

    constructor ()
      ensures Valid() && entries == map[] && pending == {} && workerAttached
    {
      entries, pending, scanDeferred, scanTokens := map[], {}, {}, map[];
      scanRequestClock, directoryGenerationClock := 0, 0;
      directoryGenerations := map[];
      workerAttached := true;
      issued, refreshedAt := map[], map[];
    }

    /** A full pending set gives up a victim, a deferred one if there is any. */
    method MakeRoom() returns (ghost victims: set<ScanKey>)
      requires Valid()
      modifies this`pending, this`scanDeferred, this`scanTokens
      ensures Valid() && |pending| < MAX_PENDING_SCANS
      ensures |old(pending)| < MAX_PENDING_SCANS ==> victims == {}
      ensures |old(pending)| >= MAX_PENDING_SCANS ==> |victims| == 1
      ensures victims <= if old(scanDeferred) != {} then old(scanDeferred) else old(pending)
      ensures pending == old(pending) - victims
      ensures scanDeferred == old(scanDeferred) - victims
      ensures scanTokens == old(scanTokens) - victims
    {
      hide Traceable, StaleLags, NoneStale, IssuedBelow, Bounded;
      victims := {};
      if |pending| >= MAX_PENDING_SCANS {
        var victim: ScanKey;
        if scanDeferred != {} {
          victim :| victim in scanDeferred;
        } else {
          victim :| victim in pending;
        }
        victims := {victim};
        DroppingKeeps(entries, scanTokens, issued, refreshedAt, directoryGenerations, {}, victims);
        pending := pending - {victim};
        scanDeferred := scanDeferred - {victim};
        scanTokens := scanTokens - {victim};
      }
    }

    /** Numbers a request for an admitted key and hands it to the worker; a full queue defers it. */
    method Issue(key: ScanKey, sent: bool)
      requires Valid() && key in pending && key !in scanDeferred
      modifies this`scanDeferred, this`scanTokens, this`scanRequestClock, this`issued
      ensures Valid()
      ensures scanRequestClock == old(scanRequestClock) + 1
      ensures issued == old(issued)[scanRequestClock := Request(key, GenerationOf(key, directoryGenerations))]
      ensures scanTokens == old(scanTokens)[key := scanRequestClock]
      ensures scanDeferred == if sent then old(scanDeferred) else old(scanDeferred) + {key}
    {
      hide Traceable, StaleLags, NoneStale, IssuedBelow;
      var generation := GenerationOf(key, directoryGenerations);
      IssuingKeeps(scanTokens, issued, refreshedAt, directoryGenerations, key, scanRequestClock, directoryGenerationClock);
      TraceableGrows(entries, issued, scanRequestClock + 1, Request(key, generation));
      scanRequestClock := scanRequestClock + 1;
      issued := issued[scanRequestClock := Request(key, generation)];
      scanTokens := scanTokens[key := scanRequestClock];
      if !sent {
        scanDeferred := scanDeferred + {key};
      }
    }

    lemma DeferredArePending()
      requires Valid()
      ensures scanDeferred <= pending && |pending| <= MAX_PENDING_SCANS
    {
    }

    /** Marks a key pending unless it already is; true when a request must be issued for it. */
    method Admit(key: ScanKey) returns (issue: bool)
      requires Valid()
      modifies this`pending, this`scanDeferred, this`scanTokens
      ensures Valid()
      ensures issue <==> !(key in old(pending) && key !in old(scanDeferred))
      ensures !issue ==>
                pending == old(pending) && scanDeferred == old(scanDeferred) && scanTokens == old(scanTokens)
      ensures issue ==> key in pending && key !in scanDeferred
      ensures key in old(pending) || |old(pending)| < MAX_PENDING_SCANS ==>
                && pending == old(pending) + {key}
                && scanDeferred == (if issue then old(scanDeferred) - {key} else old(scanDeferred))
                && scanTokens == old(scanTokens)
    {
      hide Traceable, StaleLags, NoneStale, IssuedBelow, Bounded;
      DeferredArePending();
      if key in pending {
        if key !in scanDeferred {
          return false;
        }
        scanDeferred := scanDeferred - {key};
        return true;
      }
      ghost var victims := MakeRoom();
      MarkPending(key);
      return true;
    }

    method MarkPending(key: ScanKey)
      requires Valid() && |pending| < MAX_PENDING_SCANS
      modifies this`pending
      ensures Valid() && pending == old(pending) + {key}
    {
      hide Traceable, StaleLags, NoneStale, IssuedBelow, Bounded;
      pending := pending + {key};
    }

    /** Without a worker the request is numbered and given up at once. */
    method GiveUp(key: ScanKey)
      requires Valid()
      modifies this`pending, this`scanDeferred, this`scanTokens
      ensures Valid()
      ensures pending == old(pending) - {key}
      ensures scanDeferred == old(scanDeferred) - {key}
      ensures scanTokens == old(scanTokens) - {key}
    {
      pending := pending - {key};
      scanDeferred := scanDeferred - {key};
      scanTokens := scanTokens - {key};
    }

    /** Issues the request of an admitted key, and gives it up again without a worker. */
    method Dispatch(key: ScanKey, sent: bool)
      requires Valid() && key in pending && key !in scanDeferred
      modifies this`pending, this`scanDeferred, this`scanTokens, this`scanRequestClock, this`issued
      ensures Valid()
      ensures scanRequestClock == old(scanRequestClock) + 1
      ensures issued == old(issued)[scanRequestClock := Request(key, GenerationOf(key, directoryGenerations))]
      ensures pending == if workerAttached then old(pending) else old(pending) - {key}
      ensures scanDeferred == old(scanDeferred) + if workerAttached && !sent then {key} else {}
      ensures scanTokens ==
              if workerAttached then old(scanTokens)[key := scanRequestClock] else old(scanTokens) - {key}
    {
      hide Valid, GenerationOf;
      Issue(key, sent);
      if !workerAttached {
        GiveUp(key);
      }
    }

    /** Schedules a scan. `expired` is the age test of an existing entry, `sent` whether the queue took the request. */
    method Enqueue(key: ScanKey, force: bool, expired: bool, sent: bool)
      requires Valid()
      modifies this`pending, this`scanDeferred, this`scanTokens, this`scanRequestClock, this`issued
      ensures Valid()
      ensures var skip := !(force || expired || key !in entries) ||
                          (key in old(pending) && key !in old(scanDeferred));
        if skip then
          && pending == old(pending) && scanDeferred == old(scanDeferred) && scanTokens == old(scanTokens)
          && scanRequestClock == old(scanRequestClock) && issued == old(issued)
        else
          && scanRequestClock == old(scanRequestClock) + 1
          && issued == old(issued)[scanRequestClock := Request(key, GenerationOf(key, directoryGenerations))]
          && (workerAttached ==>
                key in pending && key in scanTokens && scanTokens[key] == scanRequestClock && (key in scanDeferred <==> !sent))
          && (!workerAttached ==> key !in pending && key !in scanTokens && key !in scanDeferred)
          && (key in old(pending) || |old(pending)| < MAX_PENDING_SCANS ==>
                && pending == (if workerAttached then old(pending) + {key} else old(pending) - {key})
                && scanDeferred == old(scanDeferred) - {key} + (if workerAttached && !sent then {key} else {})
                && scanTokens == if workerAttached then old(scanTokens)[key := scanRequestClock] else old(scanTokens) - {key})
    {
      hide Valid, GenerationOf;
      if !(force || expired || key !in entries) {
        return;
      }
      var issue := Admit(key);
      if issue {
        Dispatch(key, sent);
      }
    }

    /** Forgets every directory that no entry, pending marker or deferred scan mentions. */
    method PruneGenerations()
      requires Valid()
      modifies this`directoryGenerations
      ensures Valid()
      ensures forall d :: d in directoryGenerations ==>
                d in old(directoryGenerations) && directoryGenerations[d] == old(directoryGenerations)[d]
      ensures forall d :: d in old(directoryGenerations) ==>
                (d in directoryGenerations <==>
                 exists k :: (k in entries || k in pending || k in scanDeferred) && k.directory == d)
    {
      directoryGenerations :=
        map d | d in directoryGenerations &&
                ((exists k :: k in entries && k.directory == d) ||
                 (exists k :: k in pending && k.directory == d) ||
                 (exists k :: k in scanDeferred && k.directory == d)) :: directoryGenerations[d];
    }

    /** A new prompt: every non-executable scan of the directory is dropped and a broad one is forced. */
    method RefreshDirectory(directory: string, sent: bool) returns (key: ScanKey)
      requires Valid()
      modifies this
      ensures Valid()
      ensures key == ScanKey(directory, "", false)
      ensures refreshedAt == old(refreshedAt)[directory := old(scanRequestClock)]
      ensures directory in directoryGenerations
      ensures directoryGenerationClock == old(directoryGenerationClock) + 1
      ensures directoryGenerations[directory] == directoryGenerationClock
      ensures forall k :: k in entries <==> k in old(entries) && (k.directory != directory || k.executableOnly)
      ensures forall k :: k in entries ==> entries[k] == old(entries)[k]
      ensures scanRequestClock == old(scanRequestClock) + 1
      ensures issued == old(issued)[scanRequestClock := Request(key, directoryGenerationClock)]
      ensures workerAttached == old(workerAttached)
      ensures workerAttached ==> key in scanTokens && scanTokens[key] == scanRequestClock
      ensures forall d :: d != directory ==>
        (d in directoryGenerations <==>
         && d in old(directoryGenerations)
         && (old(directory in directoryGenerations || |directoryGenerations| < MAX_DIRECTORY_CACHE_ENTRIES)
             || exists k :: (k in old(entries) || k in old(pending) || k in old(scanDeferred)) && k.directory == d))
      ensures forall d :: d in directoryGenerations && d != directory ==> directoryGenerations[d] == old(directoryGenerations)[d]
    {
      hide Valid, Superseded;
      if directory !in directoryGenerations && |directoryGenerations| >= MAX_DIRECTORY_CACHE_ENTRIES {
        PruneGenerations();
      }
      key := ScanKey(directory, "", false);
      DropStale(directory, key);
      RaiseGeneration(directory);
      Enqueue(key, true, true, sent);
    }

    /** From here on every earlier scan of the directory is out of date. */
    method RaiseGeneration(directory: string)
      requires Valid()
      requires forall k :: k in entries ==> k.directory != directory || k.executableOnly
      modifies this`directoryGenerations, this`directoryGenerationClock, this`refreshedAt
      ensures Valid()
      ensures refreshedAt == old(refreshedAt)[directory := scanRequestClock]
      ensures directoryGenerationClock == old(directoryGenerationClock) + 1
      ensures directoryGenerations == old(directoryGenerations)[directory := directoryGenerationClock]
    {
      RefreshKeeps(scanTokens, issued, entries, refreshedAt, directoryGenerations,
                   directory, scanRequestClock, directoryGenerationClock);
      directoryGenerationClock := directoryGenerationClock + 1;
      directoryGenerations := directoryGenerations[directory := directoryGenerationClock];
      refreshedAt := refreshedAt[directory := scanRequestClock];
    }

    /** Drops the installed non-executable scans of a directory, and the markers of those and of the broad one. */
    method DropStale(directory: string, broad: ScanKey)
      requires Valid()
      modifies this`entries, this`pending, this`scanDeferred, this`scanTokens
      ensures Valid()
      ensures forall k :: k in entries <==> k in old(entries) && (k.directory != directory || k.executableOnly)
      ensures forall k :: k in entries ==> entries[k] == old(entries)[k]
      ensures var gone := Superseded(old(entries), directory) + {broad};
        && pending == old(pending) - gone
        && scanDeferred == old(scanDeferred) - gone
        && scanTokens == old(scanTokens) - gone
    {
      hide Traceable, StaleLags, NoneStale, IssuedBelow, Bounded;
      var stale := Superseded(entries, directory);
      var gone := stale + {broad};
      DroppingKeeps(entries, scanTokens, issued, refreshedAt, directoryGenerations, stale, gone);
      RemovalSize(pending, gone);
      entries := entries - stale;
      pending := pending - gone;
      scanDeferred := scanDeferred - gone;
      scanTokens := scanTokens - gone;
    }

    /**
     One `Scan` reply. The worker coalesces, re-orders and drops requests, but
     what it echoes is always the key, generation and token of one request.
     */
    method ReceiveScan(key: ScanKey, generation: nat, token: nat) returns (installed: bool)
      requires Valid() && token in issued && issued[token] == Request(key, generation)
      modifies this`pending, this`scanDeferred, this`scanTokens, this`entries
      ensures Valid()
      ensures installed <==>
                key in old(scanTokens) && old(scanTokens)[key] == token && generation == GenerationOf(key, directoryGenerations)
      ensures installed ==> !Stale(key, token, refreshedAt)
      ensures entries == if installed then old(entries)[key := token] else old(entries)
      ensures pending == if installed then old(pending) - {key} else old(pending)
      ensures scanDeferred == if installed then old(scanDeferred) - {key} else old(scanDeferred)
      ensures scanTokens == if installed then old(scanTokens) - {key} else old(scanTokens)
    {
      if key !in scanTokens || scanTokens[key] != token {
        return false;
      }
      if generation != GenerationOf(key, directoryGenerations) {
        return false;
      }
      pending := pending - {key};
      scanDeferred := scanDeferred - {key};
      scanTokens := scanTokens - {key};
      entries := entries[key := token];
      return true;
    }

    /** The byte limit drops an installed scan. */
    method Evict(key: ScanKey)
      requires Valid()
      modifies this`entries
      ensures Valid() && entries == old(entries) - {key}
    {
      entries := entries - {key};
    }

    /** The worker's channel closed (`restarted` false) or the cache replaced the worker. */
    method LoseWorker(restarted: bool)
      requires Valid()
      modifies this`workerAttached, this`pending, this`scanDeferred, this`scanTokens
      ensures Valid() && pending == {} && scanDeferred == {} && scanTokens == map[] && workerAttached == restarted
    {
      workerAttached := restarted;
      pending, scanDeferred, scanTokens := {}, {}, map[];
    }
  }

  datatype Event =
    | Refresh(directory: string, sent: bool)
    | Want(key: ScanKey, force: bool, expired: bool, sent: bool)
    | Reply(key: ScanKey, generation: nat, token: nat)
    | Drop(key: ScanKey)
    | Lost(restarted: bool)

  /**
   Any run of the cache: refreshes, scans wanted by the engine, replies to any
   request ever enqueued in any order and any number of times, evictions and
   worker losses. Every installed scan is fresh after every step.
   */
  method Run(cache: ScanCache, events: seq<Event>)
    requires cache.Valid()
    modifies cache
    ensures cache.Valid() && cache.Fresh()
    ensures forall d :: d in old(cache.refreshedAt) ==>
              d in cache.refreshedAt && cache.refreshedAt[d] >= old(cache.refreshedAt[d])
  {
    for i := 0 to |events|
      invariant cache.Valid()
      invariant forall d :: d in old(cache.refreshedAt) ==>
                  d in cache.refreshedAt && cache.refreshedAt[d] >= old(cache.refreshedAt[d])
    {
      match events[i]
      case Refresh(directory, sent) =>
        var _ := cache.RefreshDirectory(directory, sent);
      case Want(key, force, expired, sent) =>
        cache.Enqueue(key, force, expired, sent);
      case Reply(key, generation, token) =>
        if token in cache.issued && cache.issued[token] == Request(key, generation) {
          var installed := cache.ReceiveScan(key, generation, token);
          assert installed ==> !Stale(key, token, cache.refreshedAt);
        }
      case Drop(key) =>
        cache.Evict(key);
      case Lost(restarted) =>
        cache.LoseWorker(restarted);
    }
  }
}
