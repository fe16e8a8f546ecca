/**
 The Readline thread and the probe worker: two bounded queues, a shared generation counter, `Wake` messages that a
 full queue drops, and `Cancelled` replies that decide when SIGCHLD may be unblocked again.
 */
module ProbeProtocol {
  import opened Wrappers

  // The system is a transition system. A cancellation is two steps of the main
  // thread (the atomic increment, then the `Wake` send), and the worker's phases
  // keep "has compared the generation, has not yet received" apart from the rest,
  // because the races live between those points.

  const MAX_PROBE_WORKER_REQUESTS: nat := 8
  const MAX_PROBE_WORKER_RESPONSES: nat := 8
  const MAX_PENDING_PROBES: nat := 32

  type ProbeKey = string

  /** One submitted probe: its cache key and the generation it was sent under. */
  type Token = (ProbeKey, nat)

  datatype Request = Run(token: Token) | Wake

  datatype Response = Outcome(token: Token) | Cancelled(generation: nat)

  datatype Phase =
    | Checking                          // about to load the generation
    | Announcing(generation: nat)       // sending `Cancelled`
    | Receiving                         // generation compared, about to receive
    | Refusing(token: Token)            // sending the outcome of a rejected submit
    | Polling                           // about to collect finished probes
    | Reporting(outcomes: seq<Token>)   // sending collected outcomes

  datatype Worker = Worker(phase: Phase, observed: nat, live: map<ProbeKey, nat>)

  datatype Main = Main(
    pending: set<ProbeKey>,
    admissions: map<(nat, ProbeKey), nat>,
    cancelPending: Option<nat>,
    masked: bool,
    attached: bool)

  /** `cancelling` holds between the increment of the shared generation and the `Wake` send. */
  datatype System = System(
    main: Main,
    cancelling: bool,
    generation: nat,
    requests: seq<Request>,
    responses: seq<Response>,
    worker: Worker)

  const INITIAL_MAIN: Main := Main({}, map[], None, false, false)

  const INITIAL: System :=
    System(INITIAL_MAIN, false, 0, [], [], Worker(Checking, 0, map[]))

  // ---------------------------------------------------------------------
  // Main-thread steps
  // ---------------------------------------------------------------------

  /** Starting a worker hands it the current generation as already observed. */
  function Attach(s: System): System {
    if s.main.attached || s.cancelling then s
    else
      s.(main := s.main.(attached := true), requests := [], responses := [],
         worker := Worker(Checking, s.generation, map[]))
  }

  /** The main-thread half of admitting one probe whose send was, or was not, accepted. */
  function AdmitProbe(m: Main, generation: nat, key: ProbeKey, bytes: nat, sent: bool): Main {
    if sent then
      m.(pending := m.pending + {key},
         admissions := m.admissions[(generation, key) := bytes],
         masked := true)
    else
      // The mask was taken before the send and is dropped again only if nothing needs it.
      m.(masked := m.pending != {} || m.cancelPending.Some?)
  }

  predicate MaySubmit(m: Main, key: ProbeKey) {
    m.attached && key !in m.pending && |m.pending| < MAX_PENDING_PROBES
  }

  function Submit(s: System, key: ProbeKey, bytes: nat): System {
    if s.cancelling || !MaySubmit(s.main, key) then s
    else
      var sent := |s.requests| < MAX_PROBE_WORKER_REQUESTS;
      s.(main := AdmitProbe(s.main, s.generation, key, bytes, sent),
         requests := if sent then s.requests + [Run((key, s.generation))] else s.requests)
  }

  predicate CancelNeeded(m: Main) {
    m.pending != {} || m.cancelPending.Some? || m.masked
  }

  /** The local half of `cancel_probes` with a worker attached. */
  function BeginCancel(s: System): System {
    if s.cancelling || !s.main.attached || !CancelNeeded(s.main) then s
    else
      s.(main := s.main.(pending := {}), generation := s.generation + 1, cancelling := true)
  }

  function FinishCancel(s: System): System {
    if !s.cancelling then s
    else
      s.(main := s.main.(cancelPending := Some(s.generation)),
         cancelling := false,
         requests := if |s.requests| < MAX_PROBE_WORKER_REQUESTS then s.requests + [Wake] else s.requests)
  }

  /** Drops the admissions of every generation below `generation`. */
  function FinishGeneration(admissions: map<(nat, ProbeKey), nat>, generation: nat): map<(nat, ProbeKey), nat> {
    map t | t in admissions && t.0 >= generation :: admissions[t]
  }

  /** What the main thread does with one response, given its current generation. */
  function Consume(m: Main, generation: nat, response: Response): Main {
    match response
    case Outcome(token) =>
      var m1 := m.(admissions := m.admissions - {(token.1, token.0)});
      if token.1 != generation then m1
      else
        var pending := m1.pending - {token.0};
        m1.(pending := pending,
            masked := if pending == {} && m1.cancelPending.None? then false else m1.masked)
    case Cancelled(g) =>
      var m1 := m.(admissions := FinishGeneration(m.admissions, g));
      if m1.cancelPending != Some(g) then m1
      else
        m1.(cancelPending := None,
            masked := if m1.pending == {} then false else m1.masked)
  }

  function Receive(s: System): System {
    if s.cancelling || !s.main.attached || s.responses == [] then s
    else
      s.(main := Consume(s.main, s.generation, s.responses[0]), responses := s.responses[1..])
  }

  /** The worker is gone: a closed channel (`resetGeneration` false), or a missed acknowledgement deadline. */
  function Detach(s: System, resetGeneration: bool): System {
    if s.cancelling then s
    else
      s.(main := INITIAL_MAIN, generation := if resetGeneration then 0 else s.generation,
         requests := [], responses := [], worker := Worker(Checking, 0, map[]))
  }

  // ---------------------------------------------------------------------
  // Worker steps
  // ---------------------------------------------------------------------

  function CheckGeneration(s: System): System {
    if !s.main.attached || !s.worker.phase.Checking? then s
    else if s.worker.observed != s.generation then
      s.(worker := Worker(Announcing(s.generation), s.generation, map[]))
    else
      s.(worker := s.worker.(phase := Receiving))
  }

  /** Sends whatever the phase holds, when the response queue has room. */
  function Send(s: System): System {
    if !s.main.attached || |s.responses| >= MAX_PROBE_WORKER_RESPONSES then s
    else
      match s.worker.phase
      case Announcing(g) =>
        s.(worker := s.worker.(phase := Receiving), responses := s.responses + [Cancelled(g)])
      case Refusing(token) =>
        s.(worker := s.worker.(phase := Polling), responses := s.responses + [Outcome(token)])
      case Reporting(outcomes) =>
        if outcomes == [] then s.(worker := s.worker.(phase := Checking))
        else
          s.(worker := s.worker.(phase := Reporting(outcomes[1..])),
             responses := s.responses + [Outcome(outcomes[0])])
      case _ => s
  }

  /** Receives the head of the queue; `accepted` is the supervisor's answer to a submit. */
  function Take(s: System, accepted: bool): System {
    if !s.main.attached || !s.worker.phase.Receiving? || s.requests == [] then s
    else
      var w := s.worker;
      var rest := s.(requests := s.requests[1..]);
      match s.requests[0]
      case Wake => rest.(worker := w.(phase := Polling))
      case Run(token) =>
        if token.1 != w.observed then rest.(worker := w.(phase := Polling))
        else if accepted then rest.(worker := w.(phase := Polling, live := w.live[token.0 := token.1]))
        else rest.(worker := w.(phase := Refusing(token)))
  }

  /** `recv_timeout` gives up; only possible while some probe is running. */
  function Timeout(s: System): System {
    if !s.main.attached || !s.worker.phase.Receiving? || s.worker.live == map[] then s
    else s.(worker := s.worker.(phase := Polling))
  }

  /** The supervisor reports that the probes `finished` ended; keys that are not running are ignored. */
  function Poll(s: System, finished: seq<ProbeKey>): System {
    if !s.main.attached || !s.worker.phase.Polling? then s
    else
      var (outcomes, live) := Collect(finished, s.worker.live);
      s.(worker := s.worker.(phase := Reporting(outcomes), live := live))
  }

  /** Moves every finished running probe out of `live`, and no other; none is lost and none is duplicated. */
  function Collect(finished: seq<ProbeKey>, live: map<ProbeKey, nat>): (r: (seq<Token>, map<ProbeKey, nat>))
    ensures forall t :: LiveCount(live, t) == SeqCount(r.0, t) + LiveCount(r.1, t)
    ensures forall k :: k in r.1 <==> k in live && k !in finished
    ensures forall k :: k in r.1 ==> r.1[k] == live[k]
    ensures forall t :: t in r.0 <==> t.0 in finished && t.0 in live && live[t.0] == t.1
  {
    if finished == [] then ([], live)
    else if finished[0] !in live then Collect(finished[1..], live)
    else
      var key := finished[0];
      var (outcomes, rest) := Collect(finished[1..], live - {key});
      ([(key, live[key])] + outcomes, rest)
  }

  /** Every step either side can take. */
  datatype Event =
    | EAttach
    | ESubmit(key: ProbeKey, bytes: nat)
    | EBeginCancel
    | EFinishCancel
    | EReceive
    | EDetach(resetGeneration: bool)
    | ECheck
    | ESend
    | ETake(accepted: bool)
    | ETimeout
    | EPoll(finished: seq<ProbeKey>)

  /** Events that are not enabled leave the system unchanged. */
  function Step(s: System, e: Event): System {
    match e
    case EAttach => Attach(s)
    case ESubmit(key, bytes) => Submit(s, key, bytes)
    case EBeginCancel => BeginCancel(s)
    case EFinishCancel => FinishCancel(s)
    case EReceive => Receive(s)
    case EDetach(reset) => Detach(s, reset)
    case ECheck => CheckGeneration(s)
    case ESend => Send(s)
    case ETake(accepted) => Take(s, accepted)
    case ETimeout => Timeout(s)
    case EPoll(finished) => Poll(s, finished)
  }

  /** The state after an arbitrary interleaving of both threads. */
  function Execute(events: seq<Event>): System
    decreases |events|
  {
    if events == [] then INITIAL
    else Step(Execute(events[..|events| - 1]), events[|events| - 1])
  }

  // ---------------------------------------------------------------------
  // The inductive invariant
  // ---------------------------------------------------------------------

  function One(b: bool): nat { if b then 1 else 0 }

  function RunCount(requests: seq<Request>, t: Token): nat {
    if requests == [] then 0 else One(requests[0] == Run(t)) + RunCount(requests[1..], t)
  }

  function OutcomeCount(responses: seq<Response>, t: Token): nat {
    if responses == [] then 0 else One(responses[0] == Outcome(t)) + OutcomeCount(responses[1..], t)
  }

  function SeqCount(tokens: seq<Token>, t: Token): nat {
    if tokens == [] then 0 else One(tokens[0] == t) + SeqCount(tokens[1..], t)
  }

  function LiveCount(live: map<ProbeKey, nat>, t: Token): nat {
    One(t.0 in live && live[t.0] == t.1)
  }

  function PhaseCount(phase: Phase, t: Token): nat {
    match phase
    case Refusing(token) => One(token == t)
    case Reporting(outcomes) => SeqCount(outcomes, t)
    case _ => 0
  }

  /** In how many places a submitted probe is: queued, running, or on its way back. */
  function InFlight(s: System, t: Token): nat {
    RunCount(s.requests, t) + LiveCount(s.worker.live, t) + PhaseCount(s.worker.phase, t) + OutcomeCount(s.responses, t)
  }

  /**
   Each submitted probe is in exactly one place, and its key is pending exactly
   while the generation it was submitted under is current.
   */
  ghost predicate TokensConserved(s: System) {
    && (forall t: Token :: InFlight(s, t) <= 1)
    && (forall t: Token :: InFlight(s, t) == 1 ==> t.1 <= s.generation)
    && (forall k :: k in s.main.pending <==> InFlight(s, (k, s.generation)) == 1)
  }

  /** An admission under the current generation and a pending mark always come together. */
  ghost predicate AdmissionsMatchPending(m: Main, generation: nat) {
    && (forall t :: t in m.admissions ==> t.0 <= generation)
    && (forall k :: (generation, k) in m.admissions <==> k in m.pending)
  }

  /** From the generation comparison until the next receive. */
  predicate BetweenCheckAndTake(phase: Phase) {
    phase.Announcing? || phase.Receiving?
  }

  /** A worker past its comparison with a stale generation still has an older message to take first. */
  predicate WakePending(s: System) {
    BetweenCheckAndTake(s.worker.phase) && s.worker.observed != s.generation ==>
      if s.requests == [] then s.cancelling
      else s.requests[0].Wake? || s.requests[0].token.1 != s.generation
  }

  ghost predicate MaskDiscipline(s: System) {
    && (s.main.masked <==> (s.main.pending != {} || s.main.cancelPending.Some? || s.cancelling))
    && (s.main.cancelPending.Some? && !s.cancelling ==> s.main.cancelPending.value == s.generation)
    && (s.cancelling ==> s.main.pending == {} && s.main.attached)
    && (s.cancelling && s.main.cancelPending.Some? ==> s.main.cancelPending.value < s.generation)
    && (!s.cancelling && s.main.cancelPending.None? && s.main.attached ==> s.worker.observed == s.generation)
  }

  /** A cancellation that the worker has seen is acknowledged, or about to be; until then old admissions stay. */
  ghost predicate CancellationsAnswered(s: System) {
    && ((s.cancelling || s.main.cancelPending.Some?) && s.worker.observed == s.generation ==>
          s.worker.phase == Announcing(s.generation) || Cancelled(s.generation) in s.responses)
    && (forall t :: t in s.main.admissions && t.0 < s.generation ==> s.cancelling || s.main.cancelPending.Some?)
  }

  ghost predicate WorkerConsistent(s: System) {
    && s.worker.observed <= s.generation
    && (forall k :: k in s.worker.live ==> s.worker.live[k] == s.worker.observed)
    && (s.worker.phase.Announcing? ==> s.worker.phase.generation == s.worker.observed)
    && (forall r :: r in s.responses && r.Cancelled? ==> r.generation <= s.worker.observed)
    && |s.requests| <= MAX_PROBE_WORKER_REQUESTS
    && |s.responses| <= MAX_PROBE_WORKER_RESPONSES
  }

  ghost predicate Detached(s: System) {
    !s.main.attached ==>
      && s.main == INITIAL_MAIN
      && !s.cancelling
      && s.requests == []
      && s.responses == []
      && s.worker == Worker(Checking, 0, map[])
  }

  ghost predicate Inv(s: System) {
    && TokensConserved(s)
    && AdmissionsMatchPending(s.main, s.generation)
    && WakePending(s)
    && MaskDiscipline(s)
    && CancellationsAnswered(s)
    && WorkerConsistent(s)
    && Detached(s)
  }

  lemma {:induction false} RunCountAppend(requests: seq<Request>, r: Request, t: Token)
    ensures RunCount(requests + [r], t) == RunCount(requests, t) + One(r == Run(t))
  {
    if requests == [] {
      assert requests + [r] == [r];
    } else {
      RunCountAppend(requests[1..], r, t);
      assert (requests + [r])[1..] == requests[1..] + [r];
    }
  }

  lemma {:induction false} OutcomeCountAppend(responses: seq<Response>, r: Response, t: Token)
    ensures OutcomeCount(responses + [r], t) == OutcomeCount(responses, t) + One(r == Outcome(t))
  {
    if responses == [] {
      assert responses + [r] == [r];
    } else {
      OutcomeCountAppend(responses[1..], r, t);
      assert (responses + [r])[1..] == responses[1..] + [r];
    }
  }

  lemma InitialInv()
    ensures Inv(INITIAL)
  {
  }

  lemma AttachInv(s: System)
    requires Inv(s)
    ensures Inv(Attach(s))
  {
  }

  lemma SubmitTokens(s: System, key: ProbeKey, bytes: nat)
    requires TokensConserved(s)
    ensures TokensConserved(Submit(s, key, bytes))
  {
    var s' := Submit(s, key, bytes);
    if !s.cancelling && MaySubmit(s.main, key) && |s.requests| < MAX_PROBE_WORKER_REQUESTS {
      var token := (key, s.generation);
      forall t ensures InFlight(s', t) == InFlight(s, t) + One(t == token) {
        RunCountAppend(s.requests, Run(token), t);
      }
      assert InFlight(s, token) == 0;
    } else {
      forall t ensures InFlight(s', t) == InFlight(s, t) {
      }
    }
  }

  lemma SubmitInv(s: System, key: ProbeKey, bytes: nat)
    requires Inv(s)
    ensures Inv(Submit(s, key, bytes))
  {
    hide TokensConserved;
    SubmitTokens(s, key, bytes);
  }

  lemma BeginCancelInv(s: System)
    requires Inv(s)
    ensures Inv(BeginCancel(s))
  {
    var s' := BeginCancel(s);
    forall t ensures InFlight(s', t) == InFlight(s, t) {
    }
    if s.requests != [] && s.requests[0].Run? {
      assert InFlight(s, s.requests[0].token) == 1;
    }
  }

  lemma FinishCancelInv(s: System)
    requires Inv(s)
    ensures Inv(FinishCancel(s))
  {
    var s' := FinishCancel(s);
    forall t ensures InFlight(s', t) == InFlight(s, t) {
      RunCountAppend(s.requests, Wake, t);
    }
  }

  lemma ReceiveTokens(s: System)
    requires TokensConserved(s)
    ensures TokensConserved(Receive(s))
    ensures !s.cancelling && s.main.attached && s.responses != [] && s.responses[0].Outcome? ==>
              var t := s.responses[0].token; t.1 <= s.generation && (t.1 == s.generation ==> t.0 in s.main.pending)
  {
    var s' := Receive(s);
    if !s.cancelling && s.main.attached && s.responses != [] {
      var r := s.responses[0];
      forall t ensures InFlight(s', t) == InFlight(s, t) - One(r == Outcome(t)) {
      }
      if r.Outcome? {
        assert InFlight(s, r.token) == 1;
      }
    }
  }

  lemma ReceiveInv(s: System)
    requires Inv(s)
    ensures Inv(Receive(s))
  {
    hide TokensConserved;
    ReceiveTokens(s);
  }

  lemma DetachInv(s: System, reset: bool)
    requires Inv(s)
    ensures Inv(Detach(s, reset))
  {
  }

  lemma CheckInv(s: System)
    requires Inv(s)
    ensures Inv(CheckGeneration(s))
  {
    var s' := CheckGeneration(s);
    forall t ensures InFlight(s', t) <= InFlight(s, t) {
    }
    forall t: Token | t.1 == s.generation ensures InFlight(s', t) == InFlight(s, t) {
    }
  }

  lemma SendCount(s: System, t: Token)
    ensures InFlight(Send(s), t) == InFlight(s, t)
  {
    var s' := Send(s);
    if s'.responses != s.responses {
      match s.worker.phase
      case Announcing(g) => OutcomeCountAppend(s.responses, Cancelled(g), t);
      case Refusing(token) => OutcomeCountAppend(s.responses, Outcome(token), t);
      case Reporting(outcomes) => OutcomeCountAppend(s.responses, Outcome(outcomes[0]), t);
      case _ =>
    }
  }

  lemma SendInv(s: System)
    requires Inv(s)
    ensures Inv(Send(s))
  {
    forall t { SendCount(s, t); }
    assert Send(s).main == s.main && Send(s).generation == s.generation;
    assert TokensConserved(Send(s));
  }

  predicate Discards(s: System) {
    s.requests != [] && s.requests[0].Run? && s.requests[0].token.1 != s.worker.observed
  }

  /** Taking a message moves its token, unless the worker discards it. */
  lemma TakeCount(s: System, accepted: bool, t: Token)
    requires s.main.attached && s.worker.phase.Receiving? && s.requests != []
    requires InFlight(s, t) <= 1
    requires forall k :: k in s.worker.live ==> s.worker.live[k] == s.worker.observed
    ensures InFlight(Take(s, accepted), t) == InFlight(s, t) - One(Discards(s) && s.requests[0].token == t)
    ensures Discards(s) && s.requests[0].token == t ==> InFlight(s, t) == 1
  {
  }

  lemma TakeTokens(s: System, accepted: bool)
    requires TokensConserved(s) && WorkerConsistent(s) && WakePending(s)
    ensures TokensConserved(Take(s, accepted))
  {
    if s.main.attached && s.worker.phase.Receiving? && s.requests != [] {
      forall t { TakeCount(s, accepted, t); }
      hide InFlight, WorkerConsistent;
    }
  }

  lemma TakeInv(s: System, accepted: bool)
    requires Inv(s)
    ensures Inv(Take(s, accepted))
  {
    hide TokensConserved;
    TakeTokens(s, accepted);
  }

  lemma PollInv(s: System, finished: seq<ProbeKey>)
    requires Inv(s)
    ensures Inv(Poll(s, finished))
  {
    var s' := Poll(s, finished);
    forall t ensures InFlight(s', t) == InFlight(s, t) {
    }
  }

  lemma TimeoutInv(s: System)
    requires Inv(s)
    ensures Inv(Timeout(s))
  {
    forall t ensures InFlight(Timeout(s), t) == InFlight(s, t) {
    }
  }

  lemma StepInv(s: System, e: Event)
    requires Inv(s)
    ensures Inv(Step(s, e))
  {
    hide Inv, Attach, Submit, BeginCancel, FinishCancel, Receive, Detach, CheckGeneration, Send, Take, Timeout, Poll;
    match e
    case EAttach => AttachInv(s);
    case ESubmit(key, bytes) => SubmitInv(s, key, bytes);
    case EBeginCancel => BeginCancelInv(s);
    case EFinishCancel => FinishCancelInv(s);
    case EReceive => ReceiveInv(s);
    case EDetach(reset) => DetachInv(s, reset);
    case ECheck => CheckInv(s);
    case ESend => SendInv(s);
    case ETake(accepted) => TakeInv(s, accepted);
    case ETimeout => TimeoutInv(s);
    case EPoll(finished) => PollInv(s, finished);
  }

  lemma {:induction false} ExecuteInv(events: seq<Event>)
    ensures Inv(Execute(events))
    decreases |events|
  {
    if events == [] {
      InitialInv();
    } else {
      ExecuteInv(events[..|events| - 1]);
      StepInv(Execute(events[..|events| - 1]), events[|events| - 1]);
    }
  }

  // ---------------------------------------------------------------------
  // Main results
  // ---------------------------------------------------------------------

  /**
   In every interleaving, a probe that may still be running is covered by the
   SIGCHLD mask, and between the main thread's methods the mask is held exactly
   when a probe is pending or a cancellation is unacknowledged.
   */
  lemma MaskCoversLiveProbes(events: seq<Event>)
    ensures var s := Execute(events);
      && (s.worker.live != map[] ==> s.main.masked)
      && (!s.cancelling ==> (s.main.masked <==> s.main.pending != {} || s.main.cancelPending.Some?))
  {
    ExecuteInv(events);
    var s := Execute(events);
    if s.worker.live != map[] {
      var k :| k in s.worker.live;
      assert LiveCount(s.worker.live, (k, s.worker.observed)) == 1;
      assert InFlight(s, (k, s.worker.observed)) == 1;
    }
  }

  /** The worker can only wait inside `recv`, with nothing running and an empty queue. */
  predicate Blocked(s: System) {
    s.main.attached && s.worker.phase.Receiving? && s.requests == [] && s.worker.live == map[]
  }

  /**
   No cancellation is missed: a blocked worker has observed the current
   generation, unless the canceller has yet to send its `Wake`, which then goes
   through because the queue is empty.
   */
  lemma BlockedWorkerIsCurrent(events: seq<Event>)
    ensures var s := Execute(events);
      Blocked(s) ==>
        && (s.worker.observed == s.generation || s.cancelling)
        && !Blocked(FinishCancel(s)) == s.cancelling
  {
    ExecuteInv(events);
  }

  /** No `Run` of the current generation is ever discarded, even when a `Wake` was dropped on a full queue. */
  lemma CurrentRunIsNeverDiscarded(events: seq<Event>)
    ensures var s := Execute(events);
      s.main.attached && s.worker.phase.Receiving? && Discards(s) ==> s.requests[0].token.1 < s.generation
  {
    ExecuteInv(events);
    var s := Execute(events);
    if s.main.attached && s.worker.phase.Receiving? && Discards(s) {
      assert InFlight(s, s.requests[0].token) == 1;
    }
  }

  /** A pending probe is always in exactly one place on its way through the worker, so it cannot be lost. */
  lemma PendingProbesAreConserved(events: seq<Event>, key: ProbeKey)
    ensures var s := Execute(events);
      && (key in s.main.pending <==> InFlight(s, (key, s.generation)) == 1)
      && (key in s.main.pending <==> (s.generation, key) in s.main.admissions)
  {
    ExecuteInv(events);
  }

  /** Once nothing is pending and no acknowledgement is outstanding, the worker runs nothing. */
  lemma QuietMeansIdle(events: seq<Event>)
    ensures var s := Execute(events);
      !s.cancelling && s.main.pending == {} && s.main.cancelPending.None? ==> s.worker.live == map[]
  {
    MaskCoversLiveProbes(events);
  }

  /** A submitted probe of the generation that the worker has seen starts, or is refused and reported as such. */
  lemma TakenProbeStartsOrIsRefused(s: System, token: Token, accepted: bool)
    requires s.main.attached && s.worker.phase.Receiving? && s.requests != []
    requires s.requests[0] == Run(token) && token.1 == s.worker.observed
    ensures var t := Take(s, accepted);
      t.requests == s.requests[1..] && t.main == s.main && t.responses == s.responses && t.generation == s.generation
    ensures accepted ==>
      Take(s, accepted).worker == Worker(Polling, s.worker.observed, s.worker.live[token.0 := token.1])
    ensures !accepted && |s.responses| < MAX_PROBE_WORKER_RESPONSES ==>
      var t := Send(Take(s, accepted));
      t.worker == Worker(Polling, s.worker.observed, s.worker.live) && t.responses == s.responses + [Outcome(token)]
  {
  }

  /** After polling, what has finished no longer runs and is about to be reported, and everything else still runs. */
  lemma PolledProbesAreReported(s: System, finished: seq<ProbeKey>)
    requires s.main.attached && s.worker.phase.Polling?
    ensures var t := Poll(s, finished);
      && t.worker.phase.Reporting?
      && (forall k :: k in finished ==> k !in t.worker.live)
      && (forall k :: k in s.worker.live && k !in finished ==> k in t.worker.live && t.worker.live[k] == s.worker.live[k])
      && (forall k :: k in finished && k in s.worker.live ==> (k, s.worker.live[k]) in t.worker.phase.outcomes)
  {
  }

  // ---------------------------------------------------------------------
  // Everything that is owed comes
  // ---------------------------------------------------------------------

  /** The worker waits, and nothing is on its way in either direction. */
  predicate AtRest(s: System) {
    && s.worker.phase.Receiving? && s.worker.live == map[]
    && s.requests == [] && s.responses == []
  }

  /** A step of the worker, or of the main thread receiving. */
  predicate Works(e: Event) {
    e.EReceive? || e.ECheck? || e.ESend? || e.ETake? || e.ETimeout? || e.EPoll?
  }

  /** The next step on the way to rest. */
  ghost function NextWork(s: System): Event {
    if s.responses != [] then EReceive
    else
      match s.worker.phase
      case Checking => ECheck
      case Receiving => if s.requests != [] then ETake(true) else ETimeout
      case Polling =>
        if s.worker.live == map[] then EPoll([])
        else
          var k :| k in s.worker.live;
          EPoll([k])
      case _ => ESend
  }

  function PhaseWork(w: Worker): nat {
    match w.phase
    case Refusing(_) => 25
    case Reporting(outcomes) => 5 * |outcomes| + if w.live == map[] then 8 else 18
    case Checking => if w.live == map[] then 6 else 16
    case Announcing(_) => if w.live == map[] then 4 else 14
    case Receiving => if w.live == map[] then 2 else 12
    case Polling => 10
  }

  function WorkLeft(s: System): nat {
    100 * |s.requests| + 40 * |s.worker.live| + |s.responses| + PhaseWork(s.worker)
  }

  lemma WithoutOne(m: map<ProbeKey, nat>, k: ProbeKey)
    requires k in m
    ensures |m - {k}| == |m| - 1
  {
    assert (m - {k}).Keys == m.Keys - {k};
  }

  lemma WithOne(m: map<ProbeKey, nat>, k: ProbeKey, g: nat)
    ensures |m[k := g]| <= |m| + 1
  {
    assert m[k := g].Keys == m.Keys + {k};
  }

  lemma PollingDecreases(s: System)
    requires s.main.attached && s.worker.phase.Polling? && s.responses == []
    ensures WorkLeft(Step(s, NextWork(s))) < WorkLeft(s)
  {
    if s.worker.live != map[] {
      var k := NextWork(s).finished[0];
      WithoutOne(s.worker.live, k);
      CollectOne(k, s.worker.live);
      hide Collect;
    }
  }

  lemma TakingDecreases(s: System)
    requires s.main.attached && s.worker.phase.Receiving? && s.responses == [] && s.requests != []
    ensures WorkLeft(Take(s, true)) < WorkLeft(s)
  {
    if s.requests[0].Run? {
      WithOne(s.worker.live, s.requests[0].token.0, s.requests[0].token.1);
    }
  }

  lemma SendingDecreases(s: System)
    requires s.main.attached && s.responses == []
    requires s.worker.phase.Announcing? || s.worker.phase.Refusing? || s.worker.phase.Reporting?
    ensures WorkLeft(Send(s)) < WorkLeft(s)
  {
  }

  lemma WorkDecreases(s: System)
    requires s.main.attached && !s.cancelling && !AtRest(s)
    ensures var t := Step(s, NextWork(s)); WorkLeft(t) < WorkLeft(s) && t.main.attached && !t.cancelling
    ensures Step(s, NextWork(s)).generation == s.generation && Works(NextWork(s))
  {
    if s.responses == [] {
      match s.worker.phase {
        case Polling => PollingDecreases(s);
        case Receiving =>
          if s.requests != [] {
            TakingDecreases(s);
          }
        case Checking =>
        case _ => SendingDecreases(s);
      }
    }
    hide WorkLeft, Collect;
  }

  lemma CollectOne(k: ProbeKey, live: map<ProbeKey, nat>)
    requires k in live
    ensures Collect([k], live) == ([(k, live[k])], live - {k})
  {
    assert [k][1..] == [] && [k][0] == k;
    var (outcomes, rest) := Collect([k][1..], live - {k});
    assert outcomes == [] && rest == live - {k};
    assert [(k, live[k])] + outcomes == [(k, live[k])];
  }

  /** At rest every probe is answered, every cancellation acknowledged, every admission given back, and SIGCHLD free. */
  lemma RestIsQuiet(s: System)
    requires Inv(s) && s.main.attached && !s.cancelling && AtRest(s)
    ensures s.main.pending == {} && s.main.cancelPending.None? && s.main.admissions == map[] && !s.main.masked
  {
    forall k ensures k !in s.main.pending {
      assert InFlight(s, (k, s.generation)) == 0;
    }
    forall t | t in s.main.admissions ensures t.0 == s.generation && t.1 in s.main.pending {
      assert t == (t.0, t.1);
    }
  }

  /**
   From every reachable state the worker and the receiving main thread alone come to rest, whatever was dropped on
   full queues: no cancellation waits for ever and no probe that ends is left pending.
   */
  lemma {:induction false} EverythingComesToRest(events: seq<Event>) returns (more: seq<Event>)
    requires Execute(events).main.attached && !Execute(events).cancelling
    ensures forall e :: e in more ==> Works(e)
    ensures var s := Execute(events + more);
      && AtRest(s) && s.main.attached && s.generation == Execute(events).generation
      && s.main.pending == {} && s.main.cancelPending.None? && s.main.admissions == map[] && !s.main.masked
    decreases WorkLeft(Execute(events))
  {
    hide Inv, WorkLeft, NextWork, Step, Works, AtRest, Execute;
    var s := Execute(events);
    if AtRest(s) {
      more := [];
      assert events + [] == events;
      ExecuteInv(events);
      RestIsQuiet(s);
    } else {
      var e := NextWork(s);
      WorkDecreases(s);
      ExecuteNext(events, e);
      var rest := EverythingComesToRest(events + [e]);
      more := [e] + rest;
      assert events + more == events + [e] + rest;
    }
  }

  /** One probe runs: its key is pending and admitted, and the mask is held. */
  function Running(key: ProbeKey, bytes: nat): System {
    System(Main({key}, map[(0, key) := bytes], None, true, true), false, 0, [], [], Worker(Polling, 0, map[key := 0]))
  }

  lemma ProbeStarts(key: ProbeKey, bytes: nat)
    ensures Execute([EAttach, ECheck, ESubmit(key, bytes), ETake(true)]) == Running(key, bytes)
  {
    var a := Step(Step(INITIAL, EAttach), ECheck);
    assert a == System(Main({}, map[], None, false, true), false, 0, [], [], Worker(Receiving, 0, map[]));
    var b := Step(a, ESubmit(key, bytes));
    assert b == a.(main := Running(key, bytes).main, requests := [Run((key, 0))]);
    assert Step(b, ETake(true)) == Running(key, bytes);
    hide Step;
    ExecuteFour(EAttach, ECheck, ESubmit(key, bytes), ETake(true));
  }

  /** Its result frees key, admission and mask. */
  lemma ProbeEnds(key: ProbeKey, bytes: nat)
    ensures var s := Step(Step(Running(key, bytes), EPoll([key])), ESend);
      s.responses == [Outcome((key, 0))] && s.worker.live == map[] && s.main == Running(key, bytes).main
    ensures Step(Step(Step(Running(key, bytes), EPoll([key])), ESend), EReceive).main == Main({}, map[], None, false, true)
  {
    CollectOne(key, map[key := 0]);
    hide Collect;
    var s := Step(Running(key, bytes), EPoll([key]));
    assert s == Running(key, bytes).(worker := Worker(Reporting([(key, 0)]), 0, map[]));
    var t := Step(s, ESend);
    assert t == s.(worker := Worker(Reporting([]), 0, map[]), responses := [Outcome((key, 0))]);
  }

  /** Cancelled, it is forgotten at once, and the mask stays until the worker has acknowledged. */
  lemma ProbeIsCancelled(key: ProbeKey, bytes: nat)
    ensures var s := Step(Step(Running(key, bytes), EBeginCancel), EFinishCancel);
      && s.main == Main({}, map[(0, key) := bytes], Some(1), true, true) && s.generation == 1
      && s.requests == [Wake] && s.worker.live == map[key := 0]
  {
  }

  lemma ExecuteNext(events: seq<Event>, e: Event)
    ensures Execute(events + [e]) == Step(Execute(events), e)
  {
    hide Step;
    assert (events + [e])[..|events|] == events;
  }

  lemma ExecuteTwoMore(events: seq<Event>, e: Event, f: Event)
    ensures Execute(events + [e, f]) == Step(Step(Execute(events), e), f)
  {
    hide *;
    ExecuteNext(events, e);
    ExecuteNext(events + [e], f);
    assert events + [e, f] == events + [e] + [f];
  }

  lemma ExecuteFour(a: Event, b: Event, c: Event, d: Event)
    ensures Execute([a, b, c, d]) == Step(Step(Step(Step(INITIAL, a), b), c), d)
  {
    ExecuteTwoMore([], a, b);
    assert [] + [a, b] == [a, b];
    ExecuteTwoMore([a, b], c, d);
    assert [a, b] + [c, d] == [a, b, c, d];
  }
}
