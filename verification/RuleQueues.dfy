/**
 The queues and endings of the rule protocol over every run: what may wait, that
 what waits is sent, and that only superseded loads are cancelled.
 */
module RuleQueues {
  import opened Wrappers
  import opened RuleProtocol

  /** Every queue is within its bound, and what waits was asked for. */
  ghost predicate Bounded(s: System) {
    && |s.requests| <= 512 && |s.replies| <= 8 && |s.main.pending| <= 512
    && s.main.deferred <= s.main.pending
  }

  lemma SmallerSet(a: set<Command>, b: set<Command>)
    requires a <= b
    ensures |a| <= |b|
  {
    assert b == a + (b - a);
  }

  lemma SendLoadIsBounded(s: System, command: Command)
    requires Bounded(s) && command in s.main.pending
    ensures Bounded(SendLoad(s, command))
  {
    SmallerSet(s.main.pending - {command}, s.main.pending);
  }

  lemma ConsumeIsBounded(m: Main, reply: Reply, kept: bool)
    requires |m.pending| <= 512 && m.deferred <= m.pending
    ensures |Consume(m, reply, kept).pending| <= 512 && Consume(m, reply, kept).deferred <= Consume(m, reply, kept).pending
  {
    if reply.Rules? {
      SmallerSet(m.pending - {reply.command}, m.pending);
    }
  }

  lemma ConfiguringIsBounded(s: System, bytes: nat, c: Circumstances)
    requires Bounded(s)
    ensures Bounded(Configure(s, bytes, c))
  {
  }

  lemma NewLimitIsBounded(s: System, limit: nat, crowded: bool, restarted: bool, c: Circumstances)
    requires Bounded(s)
    ensures Bounded(Reconfigure(s, limit, crowded, restarted, c))
  {
    var t := Acknowledge(s);
    if limit != t.main.limit {
      var u := NewLimit(t, limit, crowded, restarted);
      assert Bounded(u);
      if u.main.configuration.Some? {
        ConfiguringIsBounded(u, u.main.configuration.value, c);
      }
    }
    hide Configure;
  }

  lemma AskingIsBounded(s: System, command: Command, fits: bool, busy: bool)
    requires Bounded(s)
    ensures Bounded(RulePrograms(s, command, fits, busy))
  {
    if command in s.main.deferred {
      SendLoadIsBounded(s, command);
    } else if command !in s.main.pending && |s.main.pending| < 512 {
      SendLoadIsBounded(s.(main := s.main.(pending := s.main.pending + {command})), command);
    }
    hide SendLoad;
  }

  lemma RetryingIsBounded(s: System, command: Command, fits: bool, busy: bool, replaced: bool)
    requires Bounded(s)
    ensures Bounded(RetryDeferred(s, command, fits, busy, replaced))
  {
    var t := RetryDiscover(s, fits, replaced);
    assert Bounded(t);
    if command in t.main.deferred {
      SendLoadIsBounded(t, command);
    }
    hide SendLoad, RetryDiscover;
  }

  lemma WorkingIsBounded(s: System, e: Event)
    requires Bounded(s) && (e.ENext? || e.EBegin? || e.EFinishLoading? || e.EFinishDiscovering? || e.ESendReply? || e.EResume?)
    ensures Bounded(Step(s, e))
  {
    hide Configure, Reconfigure, RulePrograms, RetryDeferred, HasLoad, FirstLoad, WithoutScan;
  }

  lemma OtherStepsAreBounded(s: System, e: Event)
    requires Bounded(s) && (e.EAcknowledge? || e.ELose? || e.EStop? || e.ESendOther? || e.EReceive? || e.EEvict?)
    ensures Bounded(Step(s, e))
  {
    hide Configure, Reconfigure, RulePrograms, RetryDeferred, Next, Begin, FinishLoading, Consume;
    if e.EReceive? && s.replies != [] {
      ConsumeIsBounded(s.main, s.replies[0], e.kept);
    }
  }

  lemma StepIsBounded(s: System, e: Event)
    requires Bounded(s)
    ensures Bounded(Step(s, e))
  {
    hide Bounded, Configure, Reconfigure, RulePrograms, RetryDeferred, Next, Begin, FinishLoading, Receive;
    match e {
      case EConfigure(bytes, c) => ConfiguringIsBounded(s, bytes, c);
      case EReconfigure(limit, crowded, restarted, c) => NewLimitIsBounded(s, limit, crowded, restarted, c);
      case ERulePrograms(command, fits, busy) => AskingIsBounded(s, command, fits, busy);
      case ERetry(command, fits, busy, replaced) => RetryingIsBounded(s, command, fits, busy, replaced);
      case ENext => WorkingIsBounded(s, e);
      case EBegin(_) => WorkingIsBounded(s, e);
      case EFinishLoading(_) => WorkingIsBounded(s, e);
      case EFinishDiscovering => WorkingIsBounded(s, e);
      case ESendReply => WorkingIsBounded(s, e);
      case EResume => WorkingIsBounded(s, e);
      case _ => OtherStepsAreBounded(s, e);
    }
  }

  /** Over every run no queue overflows. */
  lemma {:induction false} QueuesAreBounded(limit: nat, started: bool, events: seq<Event>)
    ensures Bounded(Execute(Start(limit, started), events))
    decreases |events|
  {
    if events != [] {
      var n := |events| - 1;
      QueuesAreBounded(limit, started, events[..n]);
      StepIsBounded(Execute(Start(limit, started), events[..n]), events[n]);
    }
  }

  /** What is deferred and due is sent: its load goes out under the current generation and holds the reservation. */
  lemma DeferredLoadIsSent(s: System, command: Command, fits: bool, busy: bool, replaced: bool)
    requires s.main.ready && !s.main.catalogDeferred && command in s.main.deferred
    ensures var t := RetryDeferred(s, command, fits, busy, replaced);
      if s.main.loadReservation.None? && !busy && s.attached && |s.requests| < 512 then
        && t.requests == s.requests + [Load(command, s.main.generation)] && t.sent == s.sent + 1
        && t.main == s.main.(loadReservation := Some(s.main.generation), deferred := s.main.deferred - {command})
      else if s.main.loadReservation.None? && !busy && !s.attached then
        && t.requests == s.requests
        && t.main == s.main.(pending := s.main.pending - {command}, deferred := s.main.deferred - {command})
      else t == s
  {
  }

  /** A scan or another request is queued while there is room, behind everything that waits. */
  lemma OthersAreQueued(s: System, r: Request)
    requires r.Scan? || r.Other?
    ensures SendOther(s, r) == if s.attached && |s.requests| < 512 then s.(requests := s.requests + [r]) else s
  {
  }

  /** A lost worker leaves nothing to wait for; what was published stays. */
  lemma LostWorkerLeavesNothing(s: System)
    ensures var t := Lose(s);
      && !t.attached && t.main.ready && t.main.pending == {} && t.main.deferred == {} && t.requests == [] && t.replies == []
      && t.main.loadReservation.None? && t.main.catalogReservation.None? && !t.main.catalogDeferred
      && t.main.published == s.main.published && t.main.generation == s.main.generation
      && t.abandoned == s.abandoned + if s.main.loadReservation.Some? then 1 else 0
  {
  }

  // ---------------------------------------------------------------------
  // Cancelled loads
  // ---------------------------------------------------------------------

  predicate AskedBy(requests: seq<Request>, generation: nat) {
    forall r :: r in requests && r.Load? ==> r.generation <= generation
  }

  predicate Superseded(r: Reply, generation: nat) {
    r.Rules? && r.ending.Cancelled? ==> r.generation < generation
  }

  /** No load is ahead of its generation, and the cancelled ones are behind it. */
  ghost predicate NotAhead(s: System) {
    var g := s.main.generation;
    && AskedBy(s.requests, g) && AskedBy(s.worker.deferred, g)
    && (s.worker.phase.Serving? ==> AskedBy([s.worker.phase.request], g))
    && (s.worker.phase.Loading? ==> s.worker.phase.generation <= g)
    && (s.worker.phase.Replying? ==> Superseded(s.worker.phase.reply, g))
    && (forall r :: r in s.replies ==> Superseded(r, g))
  }

  /** Another main thread, the same or a later generation, and perhaps one more current request. */
  lemma LaterIsNotAhead(s: System, t: System)
    requires NotAhead(s) && s.main.generation <= t.main.generation
    requires t.worker == s.worker || t.worker == FRESH
    requires AskedBy(t.requests, t.main.generation)
    requires forall r :: r in t.replies ==> r in s.replies
    ensures NotAhead(t)
  {
  }

  lemma AskedMore(requests: seq<Request>, r: Request, g: nat)
    requires AskedBy(requests, g) && (r.Load? ==> r.generation <= g)
    ensures AskedBy(requests + [r], g)
  {
  }

  lemma AskedLater(requests: seq<Request>, g: nat, h: nat)
    requires AskedBy(requests, g) && g <= h
    ensures AskedBy(requests, h)
  {
  }

  lemma ForgottenIsNotAhead(s: System, attached: bool)
    requires NotAhead(s)
    ensures NotAhead(Forget(s, attached)) && NotAhead(Refuse(s, attached))
  {
    NoneAsked(s.main.generation);
    hide AskedBy;
    LaterIsNotAhead(s, Forget(s, attached));
    LaterIsNotAhead(s, Refuse(s, attached));
  }

  lemma NewGenerationIsNotAhead(s: System, bytes: nat)
    requires NotAhead(s)
    ensures NotAhead(NewGeneration(s, bytes))
  {
    AskedLater(s.requests, s.main.generation, s.main.generation + 1);
    LaterIsNotAhead(s, NewGeneration(s, bytes));
  }

  lemma DiscoveringIsNotAhead(s: System)
    requires NotAhead(s)
    ensures Room(s) ==> NotAhead(SendDiscover(s))
    ensures NotAhead(DeferDiscovery(s))
  {
    var g := s.main.generation;
    AskedMore(s.requests, Discover(g), g);
    LaterIsNotAhead(s, DeferDiscovery(s));
    if Room(s) {
      LaterIsNotAhead(s, SendDiscover(s));
    }
  }

  lemma ConfiguringIsNotAhead(s: System, bytes: nat, c: Circumstances)
    requires NotAhead(s)
    ensures NotAhead(Configure(s, bytes, c))
  {
    hide NotAhead, Forget, NewGeneration, Refuse, SendDiscover, DeferDiscovery, NeverFits;
    ForgottenIsNotAhead(s, c.restarted);
    var u := if c.crowded then Forget(s, c.restarted) else s;
    NewGenerationIsNotAhead(u, bytes);
    ForgottenIsNotAhead(NewGeneration(u, bytes), c.replaced);
    DiscoveringIsNotAhead(NewGeneration(u, bytes));
  }

  lemma NoneAsked(g: nat)
    ensures AskedBy([], g)
  {
  }

  lemma NewLimitIsNotAhead(s: System, limit: nat, crowded: bool, restarted: bool, c: Circumstances)
    requires NotAhead(s)
    ensures NotAhead(Reconfigure(s, limit, crowded, restarted, c))
  {
    var t := Acknowledge(s);
    assert AskedBy(s.requests, s.main.generation);
    LaterIsNotAhead(s, t);
    if limit != t.main.limit {
      var u := NewLimit(t, limit, crowded, restarted);
      NoneAsked(s.main.generation);
      LaterIsNotAhead(t, u);
      if u.main.configuration.Some? {
        ConfiguringIsNotAhead(u, u.main.configuration.value, c);
      } else {
        AskedLater(u.requests, u.main.generation, u.main.generation + 1);
        LaterIsNotAhead(u, Invalidate(u));
      }
    }
    hide Configure, NotAhead;
  }

  lemma SendLoadIsNotAhead(s: System, command: Command)
    requires NotAhead(s)
    ensures NotAhead(SendLoad(s, command))
  {
    var g := s.main.generation;
    AskedMore(s.requests, Load(command, g), g);
    LaterIsNotAhead(s, SendLoad(s, command));
  }

  lemma MarksAreNotAhead(s: System, main: Main)
    requires NotAhead(s) && main.generation == s.main.generation
    ensures NotAhead(s.(main := main))
  {
    LaterIsNotAhead(s, s.(main := main));
  }

  lemma AskingIsNotAhead(s: System, command: Command, fits: bool, busy: bool)
    requires NotAhead(s)
    ensures NotAhead(RulePrograms(s, command, fits, busy))
  {
    hide NotAhead, SendLoad;
    var m := s.main.(pending := s.main.pending + {command});
    MarksAreNotAhead(s, m);
    MarksAreNotAhead(s, m.(deferred := s.main.deferred + {command}));
    SendLoadIsNotAhead(s, command);
    SendLoadIsNotAhead(s.(main := m), command);
  }

  lemma RetryingIsNotAhead(s: System, command: Command, fits: bool, busy: bool, replaced: bool)
    requires NotAhead(s)
    ensures NotAhead(RetryDeferred(s, command, fits, busy, replaced))
  {
    hide NotAhead, SendLoad, SendDiscover, Refuse, NeverFits;
    MarksAreNotAhead(s, s.main.(catalogDeferred := false, ready := true));
    ForgottenIsNotAhead(s, replaced);
    DiscoveringIsNotAhead(s);
    assert NotAhead(RetryDiscover(s, fits, replaced));
    SendLoadIsNotAhead(RetryDiscover(s, fits, replaced), command);
    hide RetryDiscover;
  }

  lemma OthersAreNotAhead(s: System, e: Event)
    requires NotAhead(s) && (e.EAcknowledge? || e.ELose? || e.EStop? || e.EReceive? || e.EEvict? || e.ESendOther?)
    ensures NotAhead(Step(s, e))
  {
    var g := s.main.generation;
    NoneAsked(g);
    if e.ESendOther? && !e.request.Load? {
      AskedMore(s.requests, e.request, g);
    }
    assert AskedBy(s.requests, g);
    hide AskedBy, Configure, Reconfigure, RulePrograms, RetryDeferred, Next, Begin;
    assert Step(s, e).main.generation == g;
    assert AskedBy(Step(s, e).requests, g);
    hide NotAhead;
    LaterIsNotAhead(s, Step(s, e));
  }

  lemma {:induction false} CoalescedAsked(requests: seq<Request>, key: nat, g: nat)
    requires AskedBy(requests, g)
    ensures AskedBy(WithoutScan(requests, key), g)
  {
    if requests != [] {
      CoalescedAsked(requests[1..], key, g);
    }
  }

  lemma SomeAsked(requests: seq<Request>, i: nat, g: nat)
    requires AskedBy(requests, g) && i <= |requests|
    ensures AskedBy(requests[..i], g) && AskedBy(requests[i..], g)
    ensures i < |requests| ==> AskedBy([requests[i]], g) && AskedBy(requests[..i] + requests[i + 1..], g)
  {
  }

  lemma AskedTogether(a: seq<Request>, b: seq<Request>, g: nat)
    requires AskedBy(a, g) && AskedBy(b, g)
    ensures AskedBy(a + b, g)
  {
  }

  lemma NextIsNotAhead(s: System)
    requires NotAhead(s)
    ensures NotAhead(Next(s))
  {
    var w, g := s.worker, s.main.generation;
    if HasLoad(w.deferred) {
      SomeAsked(w.deferred, FirstLoad(w.deferred), g);
    }
    if w.deferred != [] {
      SomeAsked(w.deferred, 0, g);
      SomeAsked(w.deferred, 1, g);
    }
    if s.requests != [] {
      SomeAsked(s.requests, 0, g);
      SomeAsked(s.requests, 1, g);
    }
    hide AskedBy, HasLoad, FirstLoad, Superseded;
  }

  lemma BeginIsNotAhead(s: System, absorbed: nat)
    requires NotAhead(s)
    ensures NotAhead(Begin(s, absorbed))
  {
    var w, g := s.worker, s.main.generation;
    if w.phase.Serving? && w.phase.request.Scan? {
      var key := w.phase.request.key;
      var n := if absorbed <= |s.requests| then absorbed else |s.requests|;
      SomeAsked(s.requests, n, g);
      CoalescedAsked(w.deferred, key, g);
      CoalescedAsked(s.requests[..n], key, g);
      AskedTogether(WithoutScan(w.deferred, key), WithoutScan(s.requests[..n], key), g);
      AskedMore(WithoutScan(w.deferred, key) + WithoutScan(s.requests[..n], key), Scan(key), g);
    }
    if w.phase.Serving? && w.phase.request.Load? {
      assert w.phase.request in [w.phase.request];
      assert w.phase.request.generation <= g;
    }
    hide AskedBy, HasLoad, WithoutScan;
  }

  lemma FinishingIsNotAhead(s: System, e: Event)
    requires NotAhead(s) && (e.EFinishLoading? || e.EFinishDiscovering? || e.ESendReply? || e.EResume?)
    ensures NotAhead(Step(s, e))
  {
    hide AskedBy, Configure, Reconfigure, RulePrograms, RetryDeferred, Next, Begin, Receive;
  }

  lemma StepIsNotAhead(s: System, e: Event)
    requires NotAhead(s)
    ensures NotAhead(Step(s, e))
  {
    hide NotAhead, Configure, Reconfigure, RulePrograms, RetryDeferred, Next, Begin, FinishLoading, Receive;
    match e {
      case EConfigure(bytes, c) => ConfiguringIsNotAhead(s, bytes, c);
      case EReconfigure(limit, crowded, restarted, c) => NewLimitIsNotAhead(s, limit, crowded, restarted, c);
      case ERulePrograms(command, fits, busy) => AskingIsNotAhead(s, command, fits, busy);
      case ERetry(command, fits, busy, replaced) => RetryingIsNotAhead(s, command, fits, busy, replaced);
      case ENext => NextIsNotAhead(s);
      case EBegin(absorbed) => BeginIsNotAhead(s, absorbed);
      case EFinishLoading(_) => FinishingIsNotAhead(s, e);
      case EFinishDiscovering => FinishingIsNotAhead(s, e);
      case ESendReply => FinishingIsNotAhead(s, e);
      case EResume => FinishingIsNotAhead(s, e);
      case _ => OthersAreNotAhead(s, e);
    }
  }

  lemma {:induction false} RunIsNotAhead(limit: nat, started: bool, events: seq<Event>)
    ensures NotAhead(Execute(Start(limit, started), events))
    decreases |events|
  {
    if events != [] {
      var n := |events| - 1;
      RunIsNotAhead(limit, started, events[..n]);
      StepIsNotAhead(Execute(Start(limit, started), events[..n]), events[n]);
    }
  }

  /** Over every run only loads of superseded generations are reported as cancelled. */
  lemma OnlySupersededLoadsAreCancelled(limit: nat, started: bool, events: seq<Event>)
    ensures var s := Execute(Start(limit, started), events);
      forall r :: r in s.replies && r.Rules? && r.ending.Cancelled? ==> r.generation < s.main.generation
  {
    RunIsNotAhead(limit, started, events);
  }
}
