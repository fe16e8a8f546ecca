/**
 The rule half of the cache and its workers: a bounded queue, a worker that re-orders what it has received, a
 generation counter, and a one-credit acknowledgement that serialises `Rules` replies, across worker restarts.
 */
module RuleProtocol {
  import opened Wrappers
  import CacheState

  const MAX_WORKER_REQUESTS: nat := 512
  const MAX_WORKER_RESPONSES: nat := 8
  const MAX_PENDING_RULE_REQUESTS: nat := 512

  type Command = string

  datatype Request =
    | Load(command: Command, generation: nat)
    | Discover(generation: nat)
    | Scan(key: nat)
    | Other

  /** The worker's rule store: nothing, or what discovery found under one generation. */
  datatype Store = Empty | Discovered(generation: nat)

  /** How a load ends. It can be cancelled only by a change of generation. */
  datatype Ending = Accepted | Rejected | Cancelled

  datatype Reply =
    | Rules(command: Command, generation: nat, origin: Store, ending: Ending)
    | Catalog(generation: nat)
    | OtherReply

  datatype Phase =
    | Idle
    | Serving(request: Request)
    | Loading(command: Command, generation: nat)   // the generation matched; blocks are being decoded
    | Discovering(generation: nat)                 // the generation matched; the old store is dropped
    | Replying(reply: Reply)                       // credit withdrawn for a `Rules` reply
    | Waiting                                      // until the credit comes back

  datatype Worker = Worker(phase: Phase, deferred: seq<Request>, store: Store)

  /** `configuration` is the size of the retained configuration, if there is one. */
  datatype Main = Main(
    generation: nat,
    limit: nat,
    configuration: Option<nat>,
    ready: bool,
    catalogDeferred: bool,
    pending: set<Command>,
    deferred: set<Command>,
    loadReservation: Option<nat>,
    catalogReservation: Option<nat>,
    readyToAck: bool,
    published: map<Command, Store>)

  /**
   `sent` and `answered` count `LoadRules` requests sent and `Rules` replies
   consumed, `abandoned` the loads whose worker was replaced, lost or stopped.
   */
  datatype System = System(
    main: Main,
    attached: bool,
    credit: bool,
    requests: seq<Request>,
    replies: seq<Reply>,
    worker: Worker,
    sent: nat,
    answered: nat,
    abandoned: nat)

  function One(b: bool): nat { if b then 1 else 0 }

  const FRESH: Worker := Worker(Idle, [], Empty)

  /** `started` says whether the first worker could be started. */
  function Start(limit: nat, started: bool): System {
    System(Main(0, limit, None, true, false, {}, {}, None, None, false, map[]), started, true, [], [], FRESH, 0, 0, 0)
  }

  // ---------------------------------------------------------------------
  // Main-thread steps
  // ---------------------------------------------------------------------

  /** Whether the queue of an attached worker takes one more request. */
  predicate Room(s: System) { s.attached && |s.requests| < MAX_WORKER_REQUESTS }

  function Acknowledge(s: System): System {
    if s.main.readyToAck then s.(main := s.main.(readyToAck := false), credit := s.credit || s.attached) else s
  }

  /** The worker, both channels and all that was asked of it are gone; `attached` says whether there is a new one. */
  function Forget(s: System, attached: bool): System {
    s.(attached := attached, credit := true, requests := [], replies := [], worker := FRESH,
       abandoned := s.abandoned + One(s.main.loadReservation.Some?),
       main := s.main.(loadReservation := None, catalogReservation := None, pending := {}, deferred := {}))
  }

  /** No eviction can make room for this configuration under this limit. */
  predicate NeverFits(m: Main) {
    CacheState.MAX_RULE_CONFIGURATION_ACCOUNTED_BYTES + CacheState.MAX_RULE_ADMISSION_BYTES +
    (if m.configuration.Some? then m.configuration.value else 0) > m.limit
  }

  /** The configuration is given up, and with it the worker's store. The flag of an unacknowledged reply stays. */
  function Refuse(s: System, restarted: bool): System {
    var t := Forget(s, restarted);
    t.(main := t.main.(configuration := None, catalogDeferred := false, ready := true))
  }

  /** `fits` is the outcome of the byte-limit comparisons. */
  predicate CanDiscover(s: System, fits: bool) {
    && s.main.configuration.Some? && s.main.loadReservation.None? && s.main.catalogReservation.None?
    && fits && Room(s)
  }

  function SendDiscover(s: System): System
    requires Room(s)
  {
    s.(main := s.main.(catalogReservation := Some(s.main.generation), catalogDeferred := false),
       requests := s.requests + [Discover(s.main.generation)])
  }

  /**
   What a new configuration meets: bytes in flight that exceed the limit before
   (`crowded`) or after (`full`) it is installed, too little room for discovery
   (`!fits`), and whether the restarts that follow find a new worker.
   */
  datatype Circumstances = Circumstances(crowded: bool, full: bool, fits: bool, restarted: bool, replaced: bool)

  /** The new generation, with the credit returned and nothing asked for. */
  function NewGeneration(s: System, bytes: nat): System {
    var t := Acknowledge(s.(main := s.main.(generation := s.main.generation + 1, configuration := Some(bytes))));
    t.(main := t.main.(ready := false, catalogDeferred := false, pending := {}, deferred := {}, published := map[]))
  }

  function Configure(s: System, bytes: nat, c: Circumstances): System {
    var t := NewGeneration(if c.crowded then Forget(s, c.restarted) else s, bytes);
    if c.full then Refuse(t, c.replaced)
    else if CanDiscover(t, c.fits) then SendDiscover(t)
    else if NeverFits(t.main) then Refuse(t, c.replaced)
    else DeferDiscovery(t)
  }

  /** With a worker the discovery is owed; without one the rules count as discovered. */
  function DeferDiscovery(s: System): System {
    s.(main := s.main.(catalogDeferred := s.attached, ready := !s.attached))
  }

  /** A new byte limit; the caller acknowledges first. Work sized for the old limit may need a new worker. */
  function Reconfigure(s: System, limit: nat, crowded: bool, restarted: bool, c: Circumstances): System {
    var t := Acknowledge(s);
    if limit == t.main.limit then t
    else
      var u := NewLimit(t, limit, crowded, restarted);
      if u.main.configuration.Some? then Configure(u, u.main.configuration.value, c) else Invalidate(u)
  }

  function NewLimit(s: System, limit: nat, crowded: bool, restarted: bool): System {
    var t := s.(main := s.main.(limit := limit));
    if crowded then Forget(t, restarted) else t
  }

  /** Without a configuration a new limit only invalidates the outstanding requests. */
  function Invalidate(s: System): System {
    s.(main := s.main.(generation := s.main.generation + 1, pending := {}, deferred := {}))
  }

  /** A full queue defers the load; without a worker the request is over. */
  function SendLoad(s: System, command: Command): System {
    if Room(s) then
      s.(main := s.main.(loadReservation := Some(s.main.generation), deferred := s.main.deferred - {command}),
         requests := s.requests + [Load(command, s.main.generation)],
         sent := s.sent + 1)
    else if s.attached then
      s.(main := s.main.(deferred := s.main.deferred + {command}))
    else
      s.(main := s.main.(pending := s.main.pending - {command}, deferred := s.main.deferred - {command}))
  }

  /** `fits` is the byte-limit comparison, `snapshotBusy` an outstanding snapshot reservation. */
  function RulePrograms(s: System, command: Command, fits: bool, snapshotBusy: bool): System {
    var m := s.main;
    if command in m.published || !m.ready then s
    else if command in m.deferred then
      if m.loadReservation.None? && !snapshotBusy then SendLoad(s, command) else s
    else if command in m.pending then s
    else if m.loadReservation.Some? || snapshotBusy || |m.pending| >= MAX_PENDING_RULE_REQUESTS || !fits then s
    else
      var s1 := s.(main := m.(pending := m.pending + {command}));
      if m.deferred == {} then SendLoad(s1, command)
      else s1.(main := s1.main.(deferred := m.deferred + {command}))
  }

  function RetryDiscover(s: System, fits: bool, replaced: bool): System {
    if !s.main.catalogDeferred then s
    else if CanDiscover(s, fits) then SendDiscover(s)
    else if NeverFits(s.main) then Refuse(s, replaced)
    else if !s.attached then s.(main := s.main.(catalogDeferred := false, ready := true))
    else s
  }

  /** The tail of `poll`; `command` is the least deferred command. */
  function RetryDeferred(s: System, command: Command, fits: bool, snapshotBusy: bool, replaced: bool): System {
    var t := RetryDiscover(s, fits, replaced);
    if !t.main.ready || t.main.loadReservation.Some? || snapshotBusy || command !in t.main.deferred then t
    else if t.attached && !Room(t) then t
    else SendLoad(t, command)
  }

  /** The worker's channel turns out to be disconnected. */
  function Lose(s: System): System {
    var t := Forget(s, false);
    t.(main := t.main.(readyToAck := false, catalogDeferred := false, ready := true))
  }

  function SendOther(s: System, r: Request): System {
    if (r.Scan? || r.Other?) && Room(s) then s.(requests := s.requests + [r]) else s
  }

  /** `kept` is whether the cache publishes the programs of a current reply or rejects them. */
  function Consume(m: Main, reply: Reply, kept: bool): Main {
    match reply
    case Rules(command, g, origin, ending) =>
      var m1 := m.(readyToAck := true,
                   loadReservation := if m.loadReservation == Some(g) then None else m.loadReservation);
      if g != m.generation then m1
      else
        m1.(pending := m1.pending - {command}, deferred := m1.deferred - {command},
            published := if ending.Accepted? && kept then m1.published[command := origin] else m1.published)
    case Catalog(g) =>
      var m1 := m.(catalogReservation := if m.catalogReservation == Some(g) then None else m.catalogReservation);
      if g != m.generation then m1 else m1.(ready := true, catalogDeferred := false)
    case OtherReply => m
  }

  function Evict(s: System, command: Command): System {
    s.(main := s.main.(published := s.main.published - {command}))
  }

  function Receive(s: System, kept: bool): System {
    if s.replies == [] then s
    else
      s.(main := Consume(s.main, s.replies[0], kept), replies := s.replies[1..],
         answered := if s.replies[0].Rules? then s.answered + 1 else s.answered)
  }

  // ---------------------------------------------------------------------
  // Worker steps
  // ---------------------------------------------------------------------

  predicate HasLoad(requests: seq<Request>) {
    exists i :: 0 <= i < |requests| && requests[i].Load?
  }

  function FirstLoad(requests: seq<Request>): (i: nat)
    requires HasLoad(requests)
    ensures i < |requests| && requests[i].Load?
  {
    if requests[0].Load? then 0
    else
      assert HasLoad(requests[1..]) by {
        var j :| 0 <= j < |requests| && requests[j].Load?;
        assert requests[1..][j - 1].Load?;
      }
      1 + FirstLoad(requests[1..])
  }

  /** Deferred rule loads first, then deferred work in order, then the queue. */
  function Next(s: System): System {
    var w := s.worker;
    if !w.phase.Idle? then s
    else if HasLoad(w.deferred) then
      var i := FirstLoad(w.deferred);
      s.(worker := w.(phase := Serving(w.deferred[i]), deferred := w.deferred[..i] + w.deferred[i + 1..]))
    else if w.deferred != [] then
      s.(worker := w.(phase := Serving(w.deferred[0]), deferred := w.deferred[1..]))
    else if s.requests != [] then
      s.(worker := w.(phase := Serving(s.requests[0])), requests := s.requests[1..])
    else s
  }

  function WithoutScan(requests: seq<Request>, key: nat): seq<Request> {
    if requests == [] then []
    else (if requests[0] == Scan(key) then [] else [requests[0]]) + WithoutScan(requests[1..], key)
  }

  /**
   Starts the taken request. A scan first coalesces equal scans out of the
   deferred list and out of `absorbed` queued messages, and steps back behind
   any rule load it uncovers.
   */
  function Begin(s: System, absorbed: nat): System {
    var w := s.worker;
    if !w.phase.Serving? then s
    else
      match w.phase.request
      case Load(command, g) =>
        if g != s.main.generation then
          s.(credit := false, worker := w.(phase := Replying(Rules(command, g, Empty, Cancelled))))
        else s.(worker := w.(phase := Loading(command, g)))
      case Discover(g) =>
        if g != s.main.generation then
          s.(worker := w.(phase := Replying(Catalog(g)), store := Empty))
        else s.(worker := w.(phase := Discovering(g), store := Empty))
      case Scan(key) =>
        var n := if absorbed <= |s.requests| then absorbed else |s.requests|;
        var kept := WithoutScan(w.deferred, key) + WithoutScan(s.requests[..n], key);
        var s1 := s.(requests := s.requests[n..]);
        if HasLoad(kept) then s1.(worker := w.(phase := Idle, deferred := kept + [Scan(key)]))
        else s1.(worker := w.(phase := Replying(OtherReply), deferred := kept))
      case Other =>
        s.(worker := w.(phase := Replying(OtherReply)))
  }

  /** Decoding ends with its one terminal reply, as `RuleLoad` shows. Only an accepted load carries the store's programs. */
  function FinishLoading(s: System, ending: Ending): System {
    match s.worker.phase
    case Loading(command, g) =>
      if ending.Cancelled? && g == s.main.generation then s
      else
        var origin := if ending.Accepted? then s.worker.store else Empty;
        s.(credit := false, worker := s.worker.(phase := Replying(Rules(command, g, origin, ending))))
    case _ => s
  }

  function FinishDiscovering(s: System): System {
    match s.worker.phase
    case Discovering(g) =>
      s.(worker := s.worker.(phase := Replying(Catalog(g)),
                             store := if g == s.main.generation then Discovered(g) else Empty))
    case _ => s
  }

  function SendReply(s: System): System {
    match s.worker.phase
    case Replying(reply) =>
      if |s.replies| >= MAX_WORKER_RESPONSES then s
      else
        s.(replies := s.replies + [reply],
           worker := s.worker.(phase := if reply.Rules? then Waiting else Idle))
    case _ => s
  }

  function Resume(s: System): System {
    if s.worker.phase.Waiting? && s.credit then s.(worker := s.worker.(phase := Idle)) else s
  }

  datatype Event =
    | EConfigure(bytes: nat, c: Circumstances)
    | EReconfigure(limit: nat, crowded: bool, restarted: bool, c: Circumstances)
    | EAcknowledge
    | ELose
    | EStop
    | ERulePrograms(command: Command, fits: bool, snapshotBusy: bool)
    | ERetry(command: Command, fits: bool, snapshotBusy: bool, replaced: bool)
    | ESendOther(request: Request)
    | EReceive(kept: bool)
    | EEvict(command: Command)
    | ENext
    | EBegin(absorbed: nat)
    | EFinishLoading(ending: Ending)
    | EFinishDiscovering
    | ESendReply
    | EResume

  function Step(s: System, e: Event): System {
    match e
    case EConfigure(bytes, c) => Configure(s, bytes, c)
    case EReconfigure(limit, crowded, restarted, c) => Reconfigure(s, limit, crowded, restarted, c)
    case EAcknowledge => Acknowledge(s)
    case ELose => Lose(s)
    case EStop => Forget(s, false)
    case ERulePrograms(command, fits, busy) => RulePrograms(s, command, fits, busy)
    case ERetry(command, fits, busy, replaced) => RetryDeferred(s, command, fits, busy, replaced)
    case ESendOther(r) => SendOther(s, r)
    case EReceive(kept) => Receive(s, kept)
    case EEvict(command) => Evict(s, command)
    case ENext => Next(s)
    case EBegin(absorbed) => Begin(s, absorbed)
    case EFinishLoading(ending) => FinishLoading(s, ending)
    case EFinishDiscovering => FinishDiscovering(s)
    case ESendReply => SendReply(s)
    case EResume => Resume(s)
  }

  function Execute(start: System, events: seq<Event>): System
    decreases |events|
  {
    if events == [] then start
    else Step(Execute(start, events[..|events| - 1]), events[|events| - 1])
  }

  // ---------------------------------------------------------------------
  // The inductive invariant
  // ---------------------------------------------------------------------

  /** A rule request on its way, whether as a request, as work, or as a reply. */
  datatype Ticket = LoadTicket(generation: nat) | CatalogTicket(generation: nat)

  predicate Carries(r: Request, t: Ticket) {
    match r
    case Load(_, g) => t == LoadTicket(g)
    case Discover(g) => t == CatalogTicket(g)
    case _ => false
  }

  predicate Answers(r: Reply, t: Ticket) {
    match r
    case Rules(_, g, _, _) => t == LoadTicket(g)
    case Catalog(g) => t == CatalogTicket(g)
    case OtherReply => false
  }

  function Requested(requests: seq<Request>, t: Ticket): nat {
    if requests == [] then 0 else One(Carries(requests[0], t)) + Requested(requests[1..], t)
  }

  function Answered(replies: seq<Reply>, t: Ticket): nat {
    if replies == [] then 0 else One(Answers(replies[0], t)) + Answered(replies[1..], t)
  }

  function Working(phase: Phase, t: Ticket): nat {
    match phase
    case Serving(r) => One(Carries(r, t))
    case Loading(_, g) => One(t == LoadTicket(g))
    case Discovering(g) => One(t == CatalogTicket(g))
    case Replying(r) => One(Answers(r, t))
    case _ => 0
  }

  /** How many copies of a rule request are anywhere between its send and the consumption of its reply. */
  function Outstanding(s: System, t: Ticket): nat {
    Requested(s.requests, t) + Requested(s.worker.deferred, t) + Working(s.worker.phase, t) + Answered(s.replies, t)
  }

  predicate Reserved(m: Main, t: Ticket) {
    match t
    case LoadTicket(g) => m.loadReservation == Some(g)
    case CatalogTicket(g) => m.catalogReservation == Some(g)
  }

  /** Reservations and outstanding rule requests are the same thing, and there is at most one. */
  ghost predicate TicketsMatchReservations(s: System) {
    && (forall t :: Outstanding(s, t) == One(Reserved(s.main, t)))
    && !(s.main.loadReservation.Some? && s.main.catalogReservation.Some?)
    && (s.main.loadReservation.Some? ==> s.main.loadReservation.value <= s.main.generation)
    && (s.main.catalogReservation.Some? ==> s.main.catalogReservation.value <= s.main.generation)
    && s.sent == s.answered + s.abandoned + One(s.main.loadReservation.Some?)
  }

  /** What a load of the present generation must read: with a configuration what was discovered for it, else nothing. */
  function StoreNow(m: Main): Store {
    if m.configuration.Some? then Discovered(m.generation) else Empty
  }

  /** An accepted load of the present generation has read that; every other carries nothing. */
  predicate OriginFits(m: Main, r: Reply) {
    r.Rules? ==> if r.ending.Accepted? then r.generation == m.generation ==> r.origin == StoreNow(m) else r.origin == Empty
  }

  /** Whatever a live load will read, or has read, belongs to the current generation. */
  ghost predicate StoreIsCurrent(s: System) {
    && (s.main.configuration.None? ==>
          && s.worker.store.Empty?
          && s.main.catalogReservation.None?
          && (forall c :: c in s.main.published ==> s.main.published[c].Empty?)
          && (forall r :: r in s.replies && r.Rules? ==> r.origin.Empty?)
          && (s.worker.phase.Replying? && s.worker.phase.reply.Rules? ==> s.worker.phase.reply.origin.Empty?))
    && (s.main.ready && s.attached ==> s.worker.store == StoreNow(s.main))
    && (s.main.ready ==> s.main.catalogReservation.None? && !s.main.catalogDeferred)
    && (s.main.catalogDeferred ==> s.main.configuration.Some? && !NeverFits(s.main))
    && (s.main.loadReservation == Some(s.main.generation) ==> s.main.ready)
    && (forall r :: r in s.replies ==> OriginFits(s.main, r))
    && (forall r :: r in s.replies && r.Catalog? && r.generation == s.main.generation ==>
          s.worker.store == Discovered(s.main.generation))
    && (s.worker.phase.Replying? ==> OriginFits(s.main, s.worker.phase.reply))
    && (s.worker.phase.Replying? && s.worker.phase.reply.Catalog? &&
        s.worker.phase.reply.generation == s.main.generation ==>
          s.worker.store == Discovered(s.main.generation))
    && (forall c :: c in s.main.published ==> s.main.published[c] == StoreNow(s.main))
  }

  function RulesCount(replies: seq<Reply>): nat {
    if replies == [] then 0 else One(replies[0].Rules?) + RulesCount(replies[1..])
  }

  /** `Rules` replies that are being sent, in the channel, or consumed but not yet acknowledged. */
  function Unacknowledged(s: System): nat {
    One(s.worker.phase.Replying? && s.worker.phase.reply.Rules?) + RulesCount(s.replies) + One(s.main.readyToAck)
  }

  /** While the credit is withdrawn exactly one reply is unacknowledged; otherwise none is. */
  ghost predicate CreditMatches(s: System) {
    && Unacknowledged(s) == One(!s.credit)
    && (!s.credit ==> s.worker.phase.Waiting? || (s.worker.phase.Replying? && s.worker.phase.reply.Rules?))
  }

  /** Without a worker nothing is on its way; a stopped cache may keep the flag of its last reply. */
  predicate Silent(s: System) {
    && s.requests == [] && s.replies == [] && s.worker == FRESH
    && s.main.loadReservation.None? && s.main.catalogReservation.None?
  }

  ghost predicate Inv(s: System) {
    && TicketsMatchReservations(s) && StoreIsCurrent(s)
    && if s.attached then CreditMatches(s) else Silent(s)
  }

  lemma {:induction false} RequestedConcat(a: seq<Request>, b: seq<Request>, t: Ticket)
    ensures Requested(a + b, t) == Requested(a, t) + Requested(b, t)
  {
    if a == [] {
      assert a + b == b;
    } else {
      RequestedConcat(a[1..], b, t);
      assert (a + b)[1..] == a[1..] + b;
    }
  }

  lemma {:induction false} AnsweredAppend(replies: seq<Reply>, r: Reply, t: Ticket)
    ensures Answered(replies + [r], t) == Answered(replies, t) + One(Answers(r, t))
    ensures RulesCount(replies + [r]) == RulesCount(replies) + One(r.Rules?)
  {
    if replies == [] {
      assert replies + [r] == [r];
    } else {
      AnsweredAppend(replies[1..], r, t);
      assert (replies + [r])[1..] == replies[1..] + [r];
    }
  }

  lemma RequestedWithout(requests: seq<Request>, i: nat, t: Ticket)
    requires i < |requests|
    ensures Requested(requests, t) ==
            Requested(requests[..i] + requests[i + 1..], t) + One(Carries(requests[i], t))
  {
    RequestedConcat(requests[..i], requests[i + 1..], t);
    RequestedConcat(requests[..i], requests[i..], t);
    assert requests == requests[..i] + requests[i..];
    assert requests[i..][1..] == requests[i + 1..];
  }

  /** Coalescing scans never touches a rule request. */
  lemma {:induction false} CoalescingKeepsTickets(requests: seq<Request>, key: nat, t: Ticket)
    ensures Requested(WithoutScan(requests, key), t) == Requested(requests, t)
  {
    if requests != [] {
      CoalescingKeepsTickets(requests[1..], key, t);
      RequestedConcat(if requests[0] == Scan(key) then [] else [requests[0]], WithoutScan(requests[1..], key), t);
    }
  }

  function Occurrences(requests: seq<Request>, r: Request): nat {
    if requests == [] then 0 else One(requests[0] == r) + Occurrences(requests[1..], r)
  }

  /** Coalescing takes every equal scan, and leaves all other requests, scans included, in their order. */
  lemma {:induction false} CoalescingKeepsOthers(requests: seq<Request>, key: nat, r: Request)
    ensures Occurrences(WithoutScan(requests, key), r) == if r == Scan(key) then 0 else Occurrences(requests, r)
    ensures Scan(key) !in requests ==> WithoutScan(requests, key) == requests
  {
    if requests != [] {
      CoalescingKeepsOthers(requests[1..], key, r);
      if requests[0] != Scan(key) {
        assert ([requests[0]] + WithoutScan(requests[1..], key))[1..] == WithoutScan(requests[1..], key);
        assert requests == [requests[0]] + requests[1..];
      } else {
        assert [] + WithoutScan(requests[1..], key) == WithoutScan(requests[1..], key);
      }
    }
  }

  lemma {:induction false} AnsweredMember(replies: seq<Reply>, r: Reply, t: Ticket)
    requires r in replies && Answers(r, t)
    ensures Answered(replies, t) >= 1
  {
    if replies[0] != r {
      AnsweredMember(replies[1..], r, t);
    }
  }

  lemma AcknowledgeInv(s: System)
    requires Inv(s)
    ensures Inv(Acknowledge(s))
  {
    forall t ensures Outstanding(Acknowledge(s), t) == Outstanding(s, t) {
    }
  }

  lemma SendDiscoverInv(s: System)
    requires Inv(s) && !s.main.ready && s.main.configuration.Some? && Room(s)
    requires s.main.loadReservation.None? && s.main.catalogReservation.None?
    ensures Inv(SendDiscover(s))
  {
    var g := s.main.generation;
    forall t ensures Outstanding(SendDiscover(s), t) == Outstanding(s, t) + One(t == CatalogTicket(g)) {
      RequestedConcat(s.requests, [Discover(g)], t);
    }
  }

  /** A boundary leaves the programs that were published; the caller drops them where their store is out of date. */
  ghost predicate Boundary(s: System) {
    && s.sent == s.answered + s.abandoned
    && Silent(s)
    && (s.main.catalogDeferred ==> s.main.configuration.Some? && !NeverFits(s.main))
    && (s.main.ready ==> !s.main.catalogDeferred)
    && (forall c :: c in s.main.published ==> s.main.published[c] == StoreNow(s.main))
    && (s.main.configuration.None? ==> forall c :: c in s.main.published ==> s.main.published[c].Empty?)
  }

  lemma ForgetInv(s: System, attached: bool)
    requires TicketsMatchReservations(s) && StoreIsCurrent(s)
    ensures Boundary(Forget(s, attached))
  {
  }

  lemma BoundaryInv(s: System)
    requires Boundary(s) && (s.attached ==> s.credit && !s.main.readyToAck)
    requires s.attached && s.main.ready ==> s.main.configuration.None?
    ensures Inv(s)
  {
    forall t ensures Outstanding(s, t) == 0 && !Reserved(s.main, t) {
    }
  }

  /** Every reply on its way was asked for under a generation the main thread has already reached. */
  lemma RepliesAreOld(s: System)
    requires TicketsMatchReservations(s)
    ensures forall r :: r in s.replies && r.Rules? ==> r.generation <= s.main.generation
    ensures forall r :: r in s.replies && r.Catalog? ==> r.generation <= s.main.generation
    ensures s.worker.phase.Replying? && s.worker.phase.reply.Rules? ==>
              s.worker.phase.reply.generation <= s.main.generation
    ensures s.worker.phase.Replying? && s.worker.phase.reply.Catalog? ==>
              s.worker.phase.reply.generation <= s.main.generation
  {
    forall r | r in s.replies && r.Rules? ensures r.generation <= s.main.generation {
      AnsweredMember(s.replies, r, LoadTicket(r.generation));
      assert Outstanding(s, LoadTicket(r.generation)) >= 1;
    }
    forall r | r in s.replies && r.Catalog? ensures r.generation <= s.main.generation {
      AnsweredMember(s.replies, r, CatalogTicket(r.generation));
      assert Outstanding(s, CatalogTicket(r.generation)) >= 1;
    }
    if s.worker.phase.Replying? && s.worker.phase.reply.Rules? {
      assert Outstanding(s, LoadTicket(s.worker.phase.reply.generation)) >= 1;
    }
    if s.worker.phase.Replying? && s.worker.phase.reply.Catalog? {
      assert Outstanding(s, CatalogTicket(s.worker.phase.reply.generation)) >= 1;
    }
  }

  lemma NewGenerationInv(s: System, bytes: nat)
    requires Inv(s)
    ensures Inv(NewGeneration(s, bytes)) && !NewGeneration(s, bytes).main.readyToAck
  {
    RepliesAreOld(s);
    var s0 := s.(main := s.main.(generation := s.main.generation + 1, configuration := Some(bytes), ready := false,
                                 catalogDeferred := false, pending := {}, deferred := {}, published := map[]));
    forall t ensures Outstanding(s0, t) == Outstanding(s, t) {
    }
    assert Inv(s0);
    AcknowledgeInv(s0);
    assert NewGeneration(s, bytes) == Acknowledge(s0);
  }

  /** A worker that was replaced before the new generation gets its credit with it. */
  lemma NewGenerationAfterRestart(s: System, restarted: bool, bytes: nat)
    requires Inv(s)
    ensures Inv(NewGeneration(Forget(s, restarted), bytes))
    ensures !NewGeneration(Forget(s, restarted), bytes).main.readyToAck
  {
    ForgetInv(s, restarted);
    BoundaryInv(NewGeneration(Forget(s, restarted), bytes));
  }

  /** A refused configuration restarts the worker after the acknowledgement, when nothing is published any more. */
  lemma RefuseInv(s: System, restarted: bool)
    requires Inv(s) && !s.main.readyToAck && s.main.published == map[]
    ensures Inv(Refuse(s, restarted))
  {
    ForgetInv(s, restarted);
    BoundaryInv(Refuse(s, restarted));
  }

  lemma DeferInv(s: System)
    requires Inv(s) && s.main.configuration.Some? && !NeverFits(s.main) && !s.main.ready
    ensures Inv(DeferDiscovery(s))
  {
    forall t ensures Outstanding(DeferDiscovery(s), t) == Outstanding(s, t) {
    }
  }

  lemma ConfigureInv(s: System, bytes: nat, c: Circumstances)
    requires Inv(s)
    ensures Inv(Configure(s, bytes, c))
  {
    var t := NewGeneration(if c.crowded then Forget(s, c.restarted) else s, bytes);
    if c.crowded {
      NewGenerationAfterRestart(s, c.restarted, bytes);
    } else {
      NewGenerationInv(s, bytes);
    }
    RefuseInv(t, c.replaced);
    if CanDiscover(t, c.fits) {
      SendDiscoverInv(t);
    } else if !NeverFits(t.main) {
      DeferInv(t);
    }
  }

  /** The marks that a new configuration sets anew: a discovery is no longer owed, and a new worker has none to offer. */
  function Unmarked(s: System, crowded: bool): System {
    s.(main := s.main.(catalogDeferred := false, ready := s.main.ready && !(crowded && s.main.configuration.Some?)))
  }

  /** A deferred discovery may not fit the new limit, so the configuration is installed anew. */
  lemma NewLimitInv(s: System, limit: nat, crowded: bool, restarted: bool)
    requires Inv(s) && !s.main.readyToAck
    ensures var t := NewLimit(s, limit, crowded, restarted);
      Inv(Unmarked(t, crowded)) && (t.main.configuration.None? ==> Unmarked(t, crowded) == t)
  {
    var t := NewLimit(s, limit, crowded, restarted);
    if crowded {
      ForgetInv(s, restarted);
      BoundaryInv(Unmarked(t, crowded));
    } else {
      forall u ensures Outstanding(Unmarked(t, crowded), u) == Outstanding(s, u) {
      }
    }
  }

  lemma ConfigureForgetsMarks(s: System, crowded: bool, bytes: nat, c: Circumstances)
    ensures Configure(Unmarked(s, crowded), bytes, c) == Configure(s, bytes, c)
  {
    var t := Unmarked(s, crowded);
    assert NewGeneration(t, bytes) == NewGeneration(s, bytes);
    assert NewGeneration(Forget(t, c.restarted), bytes) == NewGeneration(Forget(s, c.restarted), bytes);
  }

  lemma ReconfigureInv(s: System, limit: nat, crowded: bool, restarted: bool, c: Circumstances)
    requires Inv(s)
    ensures Inv(Reconfigure(s, limit, crowded, restarted, c))
  {
    AcknowledgeInv(s);
    var t := Acknowledge(s);
    NewLimitInv(t, limit, crowded, restarted);
    var u := NewLimit(t, limit, crowded, restarted);
    hide Inv, NewLimit, Configure;
    if limit != t.main.limit {
      if u.main.configuration.None? {
        InvalidateInv(u);
      } else {
        ConfigureForgetsMarks(u, crowded, u.main.configuration.value, c);
        ConfigureInv(Unmarked(u, crowded), u.main.configuration.value, c);
      }
    }
  }

  lemma InvalidateInv(s: System)
    requires Inv(s) && s.main.configuration.None?
    ensures Inv(Invalidate(s))
  {
    RepliesAreOld(s);
    forall t ensures Outstanding(Invalidate(s), t) == Outstanding(s, t) {
    }
  }

  lemma SendLoadInv(s: System, command: Command)
    requires Inv(s) && s.main.ready && s.main.loadReservation.None?
    ensures Inv(SendLoad(s, command))
  {
    var s' := SendLoad(s, command);
    var g := s.main.generation;
    if Room(s) {
      forall t ensures Outstanding(s', t) == Outstanding(s, t) + One(t == LoadTicket(g)) {
        RequestedConcat(s.requests, [Load(command, g)], t);
      }
    } else {
      forall t ensures Outstanding(s', t) == Outstanding(s, t) {
      }
    }
  }

  lemma SameTickets(s: System, s': System)
    requires Inv(s)
    requires s' == s.(main := s'.main)
    requires s'.main == s.main.(pending := s'.main.pending, deferred := s'.main.deferred, published := s'.main.published)
    requires forall c :: c in s'.main.published ==> c in s.main.published && s'.main.published[c] == s.main.published[c]
    ensures Inv(s')
  {
    forall t ensures Outstanding(s', t) == Outstanding(s, t) {
    }
  }

  lemma RuleProgramsInv(s: System, command: Command, fits: bool, busy: bool)
    requires Inv(s)
    ensures Inv(RulePrograms(s, command, fits, busy))
  {
    var m := s.main;
    if command in m.published || !m.ready {
    } else if command in m.deferred {
      if m.loadReservation.None? && !busy {
        SendLoadInv(s, command);
      }
    } else if command !in m.pending && m.loadReservation.None? {
      var s1 := s.(main := m.(pending := m.pending + {command}));
      SameTickets(s, s1);
      SendLoadInv(s1, command);
      SameTickets(s1, s1.(main := s1.main.(deferred := m.deferred + {command})));
    }
  }

  /** A deferred discovery could always fit, so retrying it never gives the worker up. */
  lemma RetryDiscoverInv(s: System, fits: bool, replaced: bool)
    requires Inv(s)
    ensures Inv(RetryDiscover(s, fits, replaced))
    ensures RetryDiscover(s, fits, replaced).attached == s.attached
    ensures RetryDiscover(s, fits, replaced).abandoned == s.abandoned
  {
    if s.main.catalogDeferred {
      if CanDiscover(s, fits) {
        SendDiscoverInv(s);
      } else if !s.attached {
        BoundaryInv(RetryDiscover(s, fits, replaced));
      }
    }
  }

  lemma RetryInv(s: System, command: Command, fits: bool, busy: bool, replaced: bool)
    requires Inv(s)
    ensures Inv(RetryDeferred(s, command, fits, busy, replaced))
  {
    RetryDiscoverInv(s, fits, replaced);
    var t := RetryDiscover(s, fits, replaced);
    if t.main.ready && t.main.loadReservation.None? {
      SendLoadInv(t, command);
    }
  }

  lemma LoseInv(s: System)
    requires Inv(s)
    ensures Inv(Lose(s)) && Inv(Forget(s, false))
  {
    ForgetInv(s, false);
    BoundaryInv(Forget(s, false));
    BoundaryInv(Lose(s));
  }

  lemma SendOtherInv(s: System, r: Request)
    requires Inv(s)
    ensures Inv(SendOther(s, r))
  {
    if r.Scan? || r.Other? {
      forall t ensures Outstanding(SendOther(s, r), t) == Outstanding(s, t) {
        RequestedConcat(s.requests, [r], t);
      }
    }
  }

  lemma ReceiveTickets(s: System, kept: bool)
    requires TicketsMatchReservations(s) && s.replies != []
    ensures TicketsMatchReservations(Receive(s, kept))
    ensures var r := s.replies[0];
      && (r.Rules? ==> s.main.loadReservation == Some(r.generation))
      && (r.Catalog? ==> s.main.catalogReservation == Some(r.generation) && s.main.loadReservation.None?)
  {
    var r := s.replies[0];
    forall t ensures Outstanding(Receive(s, kept), t) == Outstanding(s, t) - One(Answers(r, t)) {
    }
    if r.Rules? {
      assert Outstanding(s, LoadTicket(r.generation)) >= 1;
    } else if r.Catalog? {
      assert Outstanding(s, CatalogTicket(r.generation)) >= 1;
    }
  }

  lemma ReceiveStore(s: System, kept: bool)
    requires StoreIsCurrent(s) && TicketsMatchReservations(s) && s.replies != []
    ensures StoreIsCurrent(Receive(s, kept))
  {
    ReceiveTickets(s, kept);
    hide TicketsMatchReservations, NeverFits;
    var s' := Receive(s, kept);
    assert s.replies[0] in s.replies && forall q :: q in s'.replies ==> q in s.replies;
  }

  lemma ReceiveInv(s: System, kept: bool)
    requires Inv(s)
    ensures Inv(Receive(s, kept))
  {
    if s.replies != [] {
      hide TicketsMatchReservations, StoreIsCurrent;
      ReceiveTickets(s, kept);
      ReceiveStore(s, kept);
    }
  }

  lemma NextInv(s: System)
    requires Inv(s)
    ensures Inv(Next(s))
  {
    var s' := Next(s);
    forall t ensures Outstanding(s', t) == Outstanding(s, t) {
      if s.worker.phase.Idle? && HasLoad(s.worker.deferred) {
        RequestedWithout(s.worker.deferred, FirstLoad(s.worker.deferred), t);
      }
    }
  }

  lemma AbsorbedTickets(deferred: seq<Request>, requests: seq<Request>, key: nat, n: nat, t: Ticket)
    requires n <= |requests|
    ensures Requested(WithoutScan(deferred, key) + WithoutScan(requests[..n], key), t) + Requested(requests[n..], t) ==
            Requested(deferred, t) + Requested(requests, t)
  {
    assert requests == requests[..n] + requests[n..];
    RequestedConcat(requests[..n], requests[n..], t);
    CoalescingKeepsTickets(deferred, key, t);
    CoalescingKeepsTickets(requests[..n], key, t);
    RequestedConcat(WithoutScan(deferred, key), WithoutScan(requests[..n], key), t);
  }

  lemma BeginScanTickets(s: System, absorbed: nat, t: Ticket)
    requires s.worker.phase.Serving? && s.worker.phase.request.Scan?
    ensures Outstanding(Begin(s, absorbed), t) == Outstanding(s, t)
  {
    hide WithoutScan, Requested, Answered, HasLoad;
    var key := s.worker.phase.request.key;
    var n := if absorbed <= |s.requests| then absorbed else |s.requests|;
    AbsorbedTickets(s.worker.deferred, s.requests, key, n, t);
    DeferredScanTickets(WithoutScan(s.worker.deferred, key) + WithoutScan(s.requests[..n], key), key, t);
  }

  lemma DeferredScanTickets(kept: seq<Request>, key: nat, t: Ticket)
    ensures Requested(kept + [Scan(key)], t) == Requested(kept, t)
  {
    RequestedConcat(kept, [Scan(key)], t);
  }

  lemma BeginTickets(s: System, absorbed: nat, t: Ticket)
    ensures Outstanding(Begin(s, absorbed), t) == Outstanding(s, t)
  {
    if s.worker.phase.Serving? && s.worker.phase.request.Scan? {
      hide *;
      BeginScanTickets(s, absorbed, t);
    } else {
      ServingKeepsPlaces(s, absorbed, t);
      hide Begin, Requested, Answered, Working;
    }
  }

  lemma ServingKeepsPlaces(s: System, absorbed: nat, t: Ticket)
    requires s.worker.phase.Serving? ==> !s.worker.phase.request.Scan?
    ensures var s' := Begin(s, absorbed);
      && s'.requests == s.requests && s'.worker.deferred == s.worker.deferred && s'.replies == s.replies
      && Working(s'.worker.phase, t) == Working(s.worker.phase, t)
  {
    hide WithoutScan, HasLoad;
  }

  lemma NoTwoCatalogs(s: System, g: nat, other: nat)
    requires TicketsMatchReservations(s) && Working(s.worker.phase, CatalogTicket(g)) == 1
    ensures Answered(s.replies, CatalogTicket(other)) == 0
  {
    assert Outstanding(s, CatalogTicket(g)) == One(Reserved(s.main, CatalogTicket(g)));
    assert Outstanding(s, CatalogTicket(other)) == One(Reserved(s.main, CatalogTicket(other)));
  }

  /** While a discovery is at work no catalog is on its way. */
  lemma NoCatalogReply(s: System, g: nat)
    requires TicketsMatchReservations(s) && Working(s.worker.phase, CatalogTicket(g)) == 1
    ensures s.main.catalogReservation == Some(g)
    ensures forall r :: r in s.replies ==> !r.Catalog?
  {
    assert Outstanding(s, CatalogTicket(g)) >= 1;
    forall r | r in s.replies ensures !r.Catalog? {
      if r.Catalog? {
        AnsweredMember(s.replies, r, CatalogTicket(r.generation));
        NoTwoCatalogs(s, g, r.generation);
      }
    }
  }

  lemma BeginMatches(s: System, absorbed: nat)
    requires TicketsMatchReservations(s)
    ensures TicketsMatchReservations(Begin(s, absorbed))
  {
    forall t ensures Outstanding(Begin(s, absorbed), t) == Outstanding(s, t) {
      BeginTickets(s, absorbed, t);
    }
    hide Outstanding, WithoutScan, HasLoad;
  }

  lemma BeginStore(s: System, absorbed: nat)
    requires StoreIsCurrent(s) && TicketsMatchReservations(s)
    ensures StoreIsCurrent(Begin(s, absorbed))
  {
    RepliesAreOld(s);
    if s.worker.phase.Serving? && s.worker.phase.request.Discover? {
      NoCatalogReply(s, s.worker.phase.request.generation);
    }
    hide Outstanding, WithoutScan, HasLoad, TicketsMatchReservations, OriginFits;
    assert s.worker.phase.Serving? && s.worker.phase.request.Load? ==>
      OriginFits(s.main, Rules(s.worker.phase.request.command, s.worker.phase.request.generation, Empty, Cancelled)) by {
      CancelledFits(s.main, s.worker.phase);
    }
    assert OriginFits(s.main, OtherReply) && forall g :: OriginFits(s.main, Catalog(g)) by {
      OthersFit(s.main);
    }
  }

  lemma CancelledFits(m: Main, phase: Phase)
    ensures phase.Serving? && phase.request.Load? ==>
      OriginFits(m, Rules(phase.request.command, phase.request.generation, Empty, Cancelled))
  {
  }

  lemma OthersFit(m: Main)
    ensures OriginFits(m, OtherReply) && forall g :: OriginFits(m, Catalog(g))
  {
  }

  lemma BeginInv(s: System, absorbed: nat)
    requires Inv(s)
    ensures Inv(Begin(s, absorbed))
  {
    hide TicketsMatchReservations, StoreIsCurrent, WithoutScan, HasLoad;
    BeginMatches(s, absorbed);
    BeginStore(s, absorbed);
  }

  lemma FinishLoadingInv(s: System, ending: Ending)
    requires Inv(s)
    ensures Inv(FinishLoading(s, ending))
  {
    if s.worker.phase.Loading? {
      var s' := FinishLoading(s, ending);
      forall t ensures Outstanding(s', t) == Outstanding(s, t) {
      }
      assert Outstanding(s, LoadTicket(s.worker.phase.generation)) >= 1;
    }
  }

  lemma FinishDiscoveringInv(s: System)
    requires Inv(s)
    ensures Inv(FinishDiscovering(s))
  {
    if s.worker.phase.Discovering? {
      var s' := FinishDiscovering(s);
      forall t ensures Outstanding(s', t) == Outstanding(s, t) {
      }
      NoCatalogReply(s, s.worker.phase.generation);
    }
  }

  lemma SendReplyInv(s: System)
    requires Inv(s)
    ensures Inv(SendReply(s))
  {
    if s.worker.phase.Replying? && |s.replies| < MAX_WORKER_RESPONSES {
      var s' := SendReply(s);
      var r := s.worker.phase.reply;
      forall t ensures Outstanding(s', t) == Outstanding(s, t) {
        AnsweredAppend(s.replies, r, t);
      }
      AnsweredAppend(s.replies, r, LoadTicket(0));
    }
  }

  lemma ResumeInv(s: System)
    requires Inv(s)
    ensures Inv(Resume(s))
  {
    forall t ensures Outstanding(Resume(s), t) == Outstanding(s, t) {
    }
  }

  lemma EvictInv(s: System, command: Command)
    requires Inv(s)
    ensures Inv(Evict(s, command))
  {
    SameTickets(s, Evict(s, command));
  }

  lemma StepInv(s: System, e: Event)
    requires Inv(s)
    ensures Inv(Step(s, e))
  {
    hide Inv, Configure, Reconfigure, Acknowledge, Lose, Forget, RulePrograms, RetryDeferred, SendOther, Receive, Next,
      Begin, FinishLoading, FinishDiscovering, SendReply, Resume;
    match e
    case EConfigure(bytes, c) => ConfigureInv(s, bytes, c);
    case EReconfigure(limit, crowded, restarted, c) => ReconfigureInv(s, limit, crowded, restarted, c);
    case EAcknowledge => AcknowledgeInv(s);
    case ELose => LoseInv(s);
    case EStop => LoseInv(s);
    case ERulePrograms(command, fits, busy) => RuleProgramsInv(s, command, fits, busy);
    case ERetry(command, fits, busy, replaced) => RetryInv(s, command, fits, busy, replaced);
    case ESendOther(r) => SendOtherInv(s, r);
    case EReceive(kept) => ReceiveInv(s, kept);
    case EEvict(command) => EvictInv(s, command);
    case ENext => NextInv(s);
    case EBegin(absorbed) => BeginInv(s, absorbed);
    case EFinishLoading(ending) => FinishLoadingInv(s, ending);
    case EFinishDiscovering => FinishDiscoveringInv(s);
    case ESendReply => SendReplyInv(s);
    case EResume => ResumeInv(s);
  }

  lemma {:induction false} ExecuteInv(limit: nat, started: bool, events: seq<Event>)
    ensures Inv(Execute(Start(limit, started), events))
    decreases |events|
  {
    if events != [] {
      ExecuteInv(limit, started, events[..|events| - 1]);
      StepInv(Execute(Start(limit, started), events[..|events| - 1]), events[|events| - 1]);
    }
  }

  // ---------------------------------------------------------------------
  // Main results, over every run and all its workers
  // ---------------------------------------------------------------------

  /**
   Every `LoadRules` is answered by exactly one `Rules` reply, even when the
   generation moves on meanwhile: the requests sent and the replies consumed
   differ by the one that is reserved, and that one is in exactly one place.
   */
  lemma EveryLoadIsAnsweredOnce(limit: nat, started: bool, events: seq<Event>)
    ensures var s := Execute(Start(limit, started), events);
      && s.sent == s.answered + s.abandoned + One(s.main.loadReservation.Some?)
      && (forall g: nat :: Outstanding(s, LoadTicket(g)) == One(s.main.loadReservation == Some(g)))
  {
    ExecuteInv(limit, started, events);
  }

  /** At most one rule request, load or discovery, is on its way, and it is the one that holds a reservation. */
  lemma RuleRequestsAreExclusive(limit: nat, started: bool, events: seq<Event>, t: Ticket, u: Ticket)
    ensures var s := Execute(Start(limit, started), events);
      Outstanding(s, t) > 0 && Outstanding(s, u) > 0 ==> t == u && Reserved(s.main, t) && Outstanding(s, t) == 1
  {
    ExecuteInv(limit, started, events);
    var s := Execute(Start(limit, started), events);
    assert Outstanding(s, t) == One(Reserved(s.main, t));
    assert Outstanding(s, u) == One(Reserved(s.main, u));
  }

  /**
   A published program comes from the store discovered under the current
   generation, or from no store at all where there is no configuration, despite
   the re-ordering in `Next` and `Begin`. So does what a load is reading, and what
   a reply of an accepted load carries; no other reply carries anything.
   */
  lemma PublishedProgramsAreCurrent(limit: nat, started: bool, events: seq<Event>)
    ensures var s := Execute(Start(limit, started), events);
      && (forall c :: c in s.main.published ==>
            s.main.published[c] == if s.main.configuration.Some? then Discovered(s.main.generation) else Empty)
      && (s.worker.phase.Loading? && s.worker.phase.generation == s.main.generation ==>
            s.worker.store == if s.main.configuration.Some? then Discovered(s.main.generation) else Empty)
      && (forall r :: r in s.replies && r.Rules? && !r.ending.Accepted? ==> r.origin == Empty)
      && (forall r :: r in s.replies && r.Rules? && r.ending.Accepted? && r.generation == s.main.generation ==>
            r.origin == if s.main.configuration.Some? then Discovered(s.main.generation) else Empty)
  {
    ExecuteInv(limit, started, events);
    var s := Execute(Start(limit, started), events);
    if s.worker.phase.Loading? && s.worker.phase.generation == s.main.generation {
      assert Outstanding(s, LoadTicket(s.main.generation)) >= 1;
    }
    forall r | r in s.replies && r.Rules? ensures OriginFits(s.main, r) {
    }
  }

  /** At most one `Rules` reply is unacknowledged, so the worker never holds two decoded results. */
  lemma OneUnacknowledgedReply(limit: nat, started: bool, events: seq<Event>)
    ensures Unacknowledged(Execute(Start(limit, started), events)) <= 1
  {
    ExecuteInv(limit, started, events);
  }

  /**
   A retry never restarts the worker, in any reachable state: whether a
   configuration could ever fit is settled when it, or the limit, is installed.
   */
  lemma RetryKeepsTheWorker(limit: nat, started: bool, events: seq<Event>, command: Command, fits: bool, busy: bool, replaced: bool)
    ensures var s := Execute(Start(limit, started), events);
      && (s.main.catalogDeferred ==> !NeverFits(s.main))
      && RetryDeferred(s, command, fits, busy, replaced).attached == s.attached
      && RetryDeferred(s, command, fits, busy, replaced).abandoned == s.abandoned
  {
    ExecuteInv(limit, started, events);
    RetryDiscoverInv(Execute(Start(limit, started), events), fits, replaced);
  }

  // ---------------------------------------------------------------------
  // Everything that is owed comes
  // ---------------------------------------------------------------------

  /** The worker waits for a request, and nothing is on its way, or unacknowledged. */
  predicate AtRest(s: System) {
    && s.worker.phase.Idle? && s.worker.deferred == [] && s.requests == []
    && s.replies == [] && !s.main.readyToAck
  }

  /** A step of the worker, or of the main thread receiving and acknowledging. */
  predicate Works(e: Event) {
    || e.EReceive? || e.EAcknowledge? || e.ENext? || e.EBegin? || e.EFinishLoading? || e.EFinishDiscovering?
    || e.ESendReply? || e.EResume?
  }

  /** The next step on the way to rest. */
  function NextWork(s: System): Event {
    if s.main.readyToAck then EAcknowledge
    else if s.replies != [] then EReceive(true)
    else
      match s.worker.phase
      case Idle => ENext
      case Serving(_) => EBegin(0)
      case Loading(_, _) => EFinishLoading(Accepted)
      case Discovering(_) => EFinishDiscovering
      case Replying(_) => ESendReply
      case Waiting => EResume
  }

  function PhaseWork(w: Worker): nat {
    match w.phase
    case Idle => 1
    case Serving(r) => if r.Scan? && HasLoad(w.deferred) then 12 else 8
    case Loading(_, _) => 7
    case Discovering(_) => 7
    case Replying(_) => 6
    case Waiting => 2
  }

  function WorkLeft(s: System): nat {
    10 * |s.requests| + 10 * |s.worker.deferred| + PhaseWork(s.worker) + 3 * |s.replies| + One(s.main.readyToAck)
  }

  lemma {:induction false} WithoutScanShrinks(requests: seq<Request>, key: nat)
    ensures |WithoutScan(requests, key)| <= |requests|
    ensures HasLoad(WithoutScan(requests, key)) ==> HasLoad(requests)
  {
    if requests != [] {
      WithoutScanShrinks(requests[1..], key);
      var rest := WithoutScan(requests[1..], key);
      var head: seq<Request> := if requests[0] == Scan(key) then [] else [requests[0]];
      if HasLoad(head + rest) {
        var i :| 0 <= i < |head + rest| && (head + rest)[i].Load?;
        if i < |head| {
          assert requests[0].Load?;
        } else {
          assert rest[i - |head|].Load?;
          var j :| 0 <= j < |requests[1..]| && requests[1..][j].Load?;
          assert requests[j + 1].Load?;
        }
      }
    }
  }

  lemma BeginDecreases(s: System)
    requires s.worker.phase.Serving?
    ensures WorkLeft(Begin(s, 0)) < WorkLeft(s)
  {
    if s.worker.phase.request.Scan? {
      var key := s.worker.phase.request.key;
      WithoutScanShrinks(s.worker.deferred, key);
      assert s.requests[..0] == [] && WithoutScan([], key) == [] && s.requests[0..] == s.requests;
      assert WithoutScan(s.worker.deferred, key) + [] == WithoutScan(s.worker.deferred, key);
    }
    hide WithoutScan, HasLoad;
  }

  lemma NextDecreases(s: System)
    requires s.worker.phase.Idle? && (s.worker.deferred != [] || s.requests != [])
    ensures WorkLeft(Next(s)) < WorkLeft(s)
  {
    hide WithoutScan;
    if HasLoad(s.worker.deferred) {
      var i := FirstLoad(s.worker.deferred);
    } else if s.worker.deferred != [] {
      assert !HasLoad(s.worker.deferred[1..]) by {
        var rest := s.worker.deferred[1..];
        forall i | 0 <= i < |rest| ensures !rest[i].Load? {
          assert rest[i] == s.worker.deferred[i + 1];
        }
      }
    }
  }

  lemma WorkDecreases(s: System)
    requires Inv(s) && s.attached && !AtRest(s)
    ensures var t := Step(s, NextWork(s));
      WorkLeft(t) < WorkLeft(s) && t.attached && t.main.generation == s.main.generation && t.main.limit == s.main.limit
    ensures Works(NextWork(s))
  {
    if !s.main.readyToAck && s.replies == [] {
      match s.worker.phase {
        case Idle => NextDecreases(s);
        case Serving(_) => BeginDecreases(s);
        case _ =>
      }
    }
    hide Inv, HasLoad, WithoutScan;
  }

  lemma RestIsQuiet(s: System)
    requires Inv(s) && s.attached && AtRest(s)
    ensures s.main.loadReservation.None? && s.main.catalogReservation.None? && s.credit
    ensures s.sent == s.answered + s.abandoned
  {
    forall t ensures Outstanding(s, t) == 0 && !Reserved(s.main, t) {
    }
    assert s.main.loadReservation.Some? ==> Reserved(s.main, LoadTicket(s.main.loadReservation.value));
    assert s.main.catalogReservation.Some? ==> Reserved(s.main, CatalogTicket(s.main.catalogReservation.value));
  }

  /**
   From every reachable state with a worker, it and the receiving main thread alone come to rest: every load and
   discovery is answered, every reservation given back, and every reply acknowledged.
   */
  lemma {:induction false} EverythingComesToRest(limit: nat, started: bool, events: seq<Event>) returns (more: seq<Event>)
    requires Execute(Start(limit, started), events).attached
    ensures forall e :: e in more ==> Works(e)
    ensures var s := Execute(Start(limit, started), events + more);
      && AtRest(s) && s.attached && s.main.loadReservation.None? && s.main.catalogReservation.None? && s.credit
      && s.sent == s.answered + s.abandoned
      && s.main.generation == Execute(Start(limit, started), events).main.generation
    decreases WorkLeft(Execute(Start(limit, started), events))
  {
    hide Inv, WorkLeft, NextWork, Step, Works, AtRest, Start;
    var s := Execute(Start(limit, started), events);
    ExecuteInv(limit, started, events);
    if AtRest(s) {
      more := [];
      assert events + [] == events;
      RestIsQuiet(s);
    } else {
      var e := NextWork(s);
      WorkDecreases(s);
      assert (events + [e])[..|events + [e]| - 1] == events;
      var rest := EverythingComesToRest(limit, started, events + [e]);
      more := [e] + rest;
      assert events + more == events + [e] + rest;
    }
  }

  // ---------------------------------------------------------------------
  // One load
  // ---------------------------------------------------------------------

  const CALM: Circumstances := Circumstances(false, false, true, false, false)

  /** The rules have been discovered under the first generation. */
  function Ready(limit: nat, bytes: nat): System {
    System(Main(1, limit, Some(bytes), true, false, {}, {}, None, None, false, map[]),
           true, true, [], [], Worker(Idle, [], Discovered(1)), 0, 0, 0)
  }

  lemma ConfigurationIsDiscovered(limit: nat, bytes: nat)
    ensures var a := Configure(Start(limit, true), bytes, CALM);
      var b := FinishDiscovering(Begin(Next(a), 0));
      && a.main.catalogReservation == Some(1) && !a.main.ready
      && Receive(SendReply(b), true) == Ready(limit, bytes)
  {
    var a := Configure(Start(limit, true), bytes, CALM);
    assert a.requests == [Discover(1)] && a.worker == FRESH && a.main.generation == 1;
    var b := Next(a);
    assert b.worker.phase == Serving(Discover(1)) && b.requests == [];
    var c := FinishDiscovering(Begin(b, 0));
    assert c.worker == Worker(Replying(Catalog(1)), [], Discovered(1));
  }

  /** A configured command's programs are published from the store; a rejected load publishes nothing. */
  lemma LoadIsPublished(limit: nat, bytes: nat, command: Command, ending: Ending)
    requires !ending.Cancelled?
    ensures var a := RulePrograms(Ready(limit, bytes), command, true, false);
      var b := FinishLoading(Begin(Next(a), 0), ending);
      var c := Resume(Acknowledge(Receive(SendReply(b), true)));
      && a.main.pending == {command} && a.main.loadReservation == Some(1) && a.requests == [Load(command, 1)]
      && c.main.published == (if ending.Accepted? then map[command := Discovered(1)] else map[])
      && c.main.pending == {} && c.main.loadReservation.None? && c.worker == Ready(limit, bytes).worker
      && c.sent == c.answered == 1 && c.credit
  {
    var a := RulePrograms(Ready(limit, bytes), command, true, false);
    assert a.main == Ready(limit, bytes).main.(pending := {command}, loadReservation := Some(1));
    assert a == Ready(limit, bytes).(main := a.main, requests := [Load(command, 1)], sent := 1);
    var b := Begin(Next(a), 0);
    assert b == a.(requests := [], worker := Worker(Loading(command, 1), [], Discovered(1)));
    var c := FinishLoading(b, ending);
    var origin := if ending.Accepted? then Discovered(1) else Empty;
    assert c == b.(credit := false, worker := Worker(Replying(Rules(command, 1, origin, ending)), [], Discovered(1)));
  }
}
