/**
 Borrowing Readline's keyboard timeout, a global that can only be read by overwriting it, and its event hook. Over
 every run, what is not borrowed is what others wrote last, and which of their writes are lost is stated exactly.
 */
module EventTimeout {
  import opened Wrappers

  const BACKGROUND_EVENT_INPUT_TIMEOUT_US: nat := 5_000
  const MENU_EVENT_INPUT_TIMEOUT_US: nat := 1_000

  datatype Hook = NoHook | Ours | Foreign(id: nat)

  /** What one running event callback remembers between its two halves. */
  datatype Context = Context(ownership: nat, previous: Option<nat>, installed: Option<nat>)

  /**
   Readline's own timeout and hook, the plugin's globals (`None` stands for a
   negative timeout), and the callbacks that are running, innermost last.
   */
  datatype State = State(
    timeout: nat,
    hook: Hook,
    original: Hook,
    previous: Option<nat>,
    installed: Option<nat>,
    ownership: nat,
    loaded: bool,
    depth: nat,
    unloadRequested: bool,
    contexts: seq<Context>)

  /** What a finishing callback decides about the hook. */
  datatype Decision = Forked | Busy | Sync(required: bool, fastPoll: bool, menuPending: bool) | Panicked

  datatype Event =
    | Load
    | Configure(required: bool, fastPoll: bool, menuPending: bool)
    | Prepare
    | Finish(decision: Decision)
    | EnterCallback
    | LeaveCallback
    | Unload
    | ForeignTimeout(value: nat)
    | ForeignHook(hook: Hook)

  // ---------------------------------------------------------------------
  // What the operations do
  // ---------------------------------------------------------------------

  /** What the timeout is after giving it back, however it stands now. */
  function GivenBack(s: State): nat {
    if s.previous.Some? && !(s.installed.Some? && s.timeout != s.installed.value) then s.previous.value else s.timeout
  }

  function Installed(s: State, value: nat): State {
    s.(timeout := value, installed := Some(value), ownership := s.ownership + 1,
       previous := if s.previous.None? || s.installed != Some(s.timeout) then Some(s.timeout) else s.previous)
  }

  function Restored(s: State): State {
    s.(timeout := GivenBack(s), previous := None, installed := None, ownership := s.ownership + 1)
  }

  function PollTimeout(menuPending: bool): nat {
    if menuPending then MENU_EVENT_INPUT_TIMEOUT_US else BACKGROUND_EVENT_INPUT_TIMEOUT_US
  }

  /** Installs, keeps or removes the hook. A foreign hook other than the chained one is left alone. */
  function Configured(s: State, required: bool, fastPoll: bool, menuPending: bool): State {
    if s.hook == Ours then
      if !required then Restored(s.(hook := s.original, ownership := s.ownership + 1))
      else if fastPoll then Installed(s, PollTimeout(menuPending))
      else Restored(s)
    else
      var t := Restored(s);
      if !required || t.hook != t.original then t
      else
        var u := if fastPoll then Installed(t, PollTimeout(menuPending)) else t;
        u.(hook := Ours, ownership := u.ownership + 1)
  }

  /** First half of an event callback: lends the timeout back to the chained hook. */
  function Prepared(s: State): State {
    var t := s.(contexts := s.contexts + [Context(s.ownership, s.previous, s.installed)]);
    if s.previous.Some? && s.installed.Some? then t.(timeout := GivenBack(s), previous := Some(GivenBack(s))) else t
  }

  predicate StillOwned(s: State, c: Context) {
    c.ownership == s.ownership && s.hook == Ours
  }

  /** Takes the timeout again if nothing changed hands in between. */
  function Resumed(s: State, c: Context): State {
    if c.previous.Some? && c.installed.Some? && StillOwned(s, c) && s.installed == c.installed then
      s.(timeout := c.installed.value, previous := Some(s.timeout))
    else s
  }

  function Decided(s: State, decision: Decision): State {
    match decision
    case Forked => Configured(s, false, false, false)
    case Busy => Configured(s, true, true, false)
    case Sync(required, fastPoll, menuPending) => Configured(s, required, fastPoll, menuPending)
    case Panicked => Configured(s, false, false, false)
  }

  function Unloaded(s: State): State {
    if !s.loaded then s
    else (if s.hook == Ours then Configured(s, false, false, false) else Restored(s)).(loaded := false)
  }

  /** The last callback to leave carries out a requested unload. */
  function Left(s: State): State
    requires s.depth > 0
  {
    var t := s.(depth := s.depth - 1);
    if t.depth == 0 && t.unloadRequested then Unloaded(t.(unloadRequested := false)) else t
  }

  /** Second half of an event callback. While the hook is still owned it always configures the hook anew. */
  function Finished(s: State, decision: Decision): State
    requires s.contexts != []
  {
    var n := |s.contexts| - 1;
    var c := s.contexts[n];
    var t := Resumed(s.(contexts := s.contexts[..n], depth := s.depth + 1), c);
    Left(if StillOwned(t, c) then Decided(t, decision) else t)
  }

  function UnloadAsked(s: State): State {
    var t := s.(ownership := s.ownership + 1, unloadRequested := true);
    if t.depth == 0 then Unloaded(t.(unloadRequested := false)) else t
  }

  function Loaded(s: State): State {
    if s.loaded then s else Configured(s.(original := s.hook, loaded := true), false, false, false)
  }

  function Step(s: State, e: Event): State {
    match e
    case Load => Loaded(s)
    case Configure(required, fastPoll, menuPending) =>
      if s.loaded then Configured(s, required, fastPoll, menuPending) else s
    case Prepare => Prepared(s)
    case Finish(decision) => if s.contexts != [] then Finished(s, decision) else s
    case EnterCallback => s.(depth := s.depth + 1)
    case LeaveCallback => if s.depth > 0 then Left(s) else s
    case Unload => UnloadAsked(s)
    case ForeignTimeout(value) => s.(timeout := value)
    case ForeignHook(foreign) => s.(hook := foreign)
  }

  function Execute(s: State, events: seq<Event>): State
    decreases |events|
  {
    if events == [] then s else Execute(Step(s, events[0]), events[1..])
  }

  function Initial(timeout: nat, hook: Hook): State {
    State(timeout, hook, NoHook, None, None, 0, false, 0, false, [])
  }

  // ---------------------------------------------------------------------
  // The invariant
  // ---------------------------------------------------------------------

  /** `last` is what others wrote last: it stands, or it is what will be restored. */
  predicate Transparent(s: State, last: nat) {
    && s.previous.Some? == s.installed.Some?
    && if s.installed.None? then s.timeout == last
       else (s.timeout == last && last != s.installed.value) || (s.timeout == s.installed.value && s.previous.value == last)
  }

  /** The invariant says exactly that giving the timeout back now restores what others wrote last. */
  lemma TransparentMeansRestorable(s: State, last: nat)
    requires s.previous.Some? == s.installed.Some?
    ensures Transparent(s, last) <==> GivenBack(s) == last
  {
  }

  /** A running callback has lent the timeout to the chained hook and will ask for it back. */
  predicate Lent(s: State) {
    s.installed.Some? && s.contexts != [] && StillOwned(s, s.contexts[|s.contexts| - 1])
  }

  /** A hook that is not ours is the one others wrote last, and ours chains to that one. */
  predicate HooksKept(s: State, lastHook: Hook) {
    && lastHook != Ours && s.original != Ours
    && (if s.hook == Ours then s.original == lastHook else s.hook == lastHook)
    && (!s.loaded ==> s.installed.None? && s.hook != Ours)
  }

  /** Contexts of the present ownership remember what is installed; inner ones are never older. */
  ghost predicate ContextsKept(s: State) {
    && (forall c :: c in s.contexts ==>
          && c.ownership <= s.ownership
          && (c.ownership == s.ownership ==> c.installed == s.installed && c.previous.Some? == s.previous.Some?))
    && (forall i, j :: 0 <= i < j < |s.contexts| ==> s.contexts[i].ownership <= s.contexts[j].ownership)
  }

  /** While it is lent the timeout itself is what others wrote last. */
  ghost predicate Valid(s: State, last: nat, lastHook: Hook) {
    && HooksKept(s, lastHook) && ContextsKept(s)
    && s.previous.Some? == s.installed.Some?
    && if Lent(s) then s.timeout == last else Transparent(s, last)
  }

  ghost predicate Settled(s: State, last: nat, lastHook: Hook) {
    Valid(s, last, lastHook) && Transparent(s, last)
  }

  lemma InitialIsSettled(timeout: nat, hook: Hook)
    requires hook != Ours
    ensures Settled(Initial(timeout, hook), timeout, hook)
  {
  }

  // ---------------------------------------------------------------------
  // What each operation keeps
  // ---------------------------------------------------------------------

  lemma InstalledKeeps(s: State, value: nat, last: nat)
    requires Transparent(s, last)
    ensures var t := Installed(s, value);
      Transparent(t, last) && t.timeout == value && t.installed == Some(value) && t.previous == Some(last)
  {
  }

  lemma RestoredKeeps(s: State, last: nat)
    requires Transparent(s, last)
    ensures var t := Restored(s);
      Transparent(t, last) && t.timeout == last && t.installed.None? && t.previous.None?
  {
  }

  /** The hook is ours, the chained one, or another foreign one that nobody touches; the timeout stays transparent. */
  lemma ConfiguredKeeps(s: State, required: bool, fastPoll: bool, menuPending: bool, last: nat, lastHook: Hook)
    requires Transparent(s, last) && HooksKept(s, lastHook) && (required ==> s.loaded)
    ensures var t := Configured(s, required, fastPoll, menuPending);
      && Transparent(t, last) && HooksKept(t, lastHook)
      && t.hook == (if required && s.hook in {Ours, s.original} then Ours else lastHook)
      && t.installed == (if required && fastPoll && t.hook == Ours then Some(PollTimeout(menuPending)) else None)
      && (t.installed.None? ==> t.timeout == last)
      && (t.installed.Some? ==> t.timeout == t.installed.value && t.previous == Some(last))
      && t == s.(timeout := t.timeout, previous := t.previous, installed := t.installed, ownership := t.ownership, hook := t.hook)
      && t.ownership > s.ownership
  {
  }

  /** New ownership makes every running callback a stranger. */
  lemma DisownedIsSettled(s: State, t: State, last: nat, lastHook: Hook)
    requires ContextsKept(s) && t.contexts == s.contexts && t.ownership > s.ownership
    requires Transparent(t, last) && HooksKept(t, lastHook)
    ensures Settled(t, last, lastHook)
  {
    if t.contexts != [] {
      assert t.contexts[|t.contexts| - 1] in s.contexts;
    }
  }

  /** The chained hook runs under what others wrote last. */
  lemma PreparedLends(s: State, last: nat, lastHook: Hook)
    requires HooksKept(s, lastHook) && ContextsKept(s) && Transparent(s, last)
    ensures Settled(Prepared(s), last, lastHook)
    ensures Prepared(s).timeout == if s.installed.Some? then last else s.timeout
    ensures Lent(Prepared(s)) <==> s.installed.Some? && s.hook == Ours
  {
  }

  /** Once unloaded, timeout and hook are what others wrote last. */
  lemma UnloadedKeeps(s: State, last: nat, lastHook: Hook)
    requires HooksKept(s, lastHook) && Transparent(s, last)
    ensures var t := Unloaded(s);
      && Transparent(t, last) && HooksKept(t, lastHook)
      && !t.loaded && t.timeout == last && t.hook == lastHook
      && t.contexts == s.contexts
      && (s.loaded ==> t.ownership > s.ownership) && (!s.loaded ==> t == s)
  {
    ConfiguredKeeps(s, false, false, false, last, lastHook);
    RestoredKeeps(s, last);
  }

  lemma UnloadedIsSettled(s: State, last: nat, lastHook: Hook)
    requires Settled(s, last, lastHook)
    ensures Settled(Unloaded(s), last, lastHook)
  {
    UnloadedKeeps(s, last, lastHook);
    if s.loaded {
      DisownedIsSettled(s, Unloaded(s), last, lastHook);
    }
  }

  /** Depth and requests do not matter to the timeout. */
  lemma MarksAreFree(s: State, depth: nat, requested: bool, last: nat, lastHook: Hook)
    ensures var t := s.(depth := depth, unloadRequested := requested);
      && Lent(t) == Lent(s)
      && (Valid(s, last, lastHook) ==> Valid(t, last, lastHook))
      && (Settled(s, last, lastHook) ==> Settled(t, last, lastHook))
  {
  }

  lemma LeftIsSettled(s: State, last: nat, lastHook: Hook)
    requires s.depth > 0 && Settled(s, last, lastHook)
    ensures Settled(Left(s), last, lastHook)
  {
    hide Settled, Unloaded, Valid, Lent;
    MarksAreFree(s, s.depth - 1, s.unloadRequested, last, lastHook);
    MarksAreFree(s, s.depth - 1, false, last, lastHook);
    UnloadedIsSettled(s.(depth := s.depth - 1, unloadRequested := false), last, lastHook);
  }

  lemma UnloadAskedIsSettled(s: State, last: nat, lastHook: Hook)
    requires HooksKept(s, lastHook) && ContextsKept(s) && Transparent(s, last)
    ensures Settled(UnloadAsked(s), last, lastHook)
  {
    hide Settled, Unloaded, Valid, Lent, ContextsKept;
    var t := s.(ownership := s.ownership + 1, unloadRequested := true);
    if t.depth == 0 {
      DisownedIsSettled(s, t.(unloadRequested := false), last, lastHook);
      UnloadedIsSettled(t.(unloadRequested := false), last, lastHook);
    } else {
      DisownedIsSettled(s, t, last, lastHook);
    }
  }

  lemma ConfiguredIsSettled(s: State, required: bool, fastPoll: bool, menuPending: bool, last: nat, lastHook: Hook)
    requires HooksKept(s, lastHook) && ContextsKept(s) && Transparent(s, last) && (required ==> s.loaded)
    ensures Settled(Configured(s, required, fastPoll, menuPending), last, lastHook)
  {
    ConfiguredKeeps(s, required, fastPoll, menuPending, last, lastHook);
    hide Configured;
    DisownedIsSettled(s, Configured(s, required, fastPoll, menuPending), last, lastHook);
  }

  /** Without its innermost callback, a state whose timeout is not lent stays as it is. */
  lemma PoppedKeeps(s: State)
    requires s.contexts != [] && ContextsKept(s)
    ensures var t := s.(contexts := s.contexts[..|s.contexts| - 1], depth := s.depth + 1);
      ContextsKept(t) && (!Lent(s) ==> !Lent(t))
  {
    var n := |s.contexts| - 1;
    var t := s.(contexts := s.contexts[..n], depth := s.depth + 1);
    if t.contexts != [] {
      assert t.contexts[n - 1] == s.contexts[n - 1] && s.contexts[n - 1] in s.contexts;
      assert s.contexts[n - 1].ownership <= s.contexts[n].ownership;
    }
  }

  /** A callback that still owns the timeout records what the chained hook left, whatever it is. */
  lemma ResumedKeeps(s: State, last: nat, lastHook: Hook)
    requires Valid(s, last, lastHook) && s.contexts != []
    ensures var n := |s.contexts| - 1;
      var t := Resumed(s.(contexts := s.contexts[..n], depth := s.depth + 1), s.contexts[n]);
      && HooksKept(t, lastHook) && ContextsKept(t) && Transparent(t, last) && t.depth > 0
      && StillOwned(t, s.contexts[n]) == StillOwned(s, s.contexts[n])
      && (!StillOwned(s, s.contexts[n]) ==> Settled(t, last, lastHook))
  {
    var n := |s.contexts| - 1;
    PoppedKeeps(s);
    assert s.contexts[n] in s.contexts;
  }

  /** Finishing a callback always settles: nothing is lent afterwards, and nothing is lost by it. */
  lemma FinishedIsSettled(s: State, decision: Decision, last: nat, lastHook: Hook)
    requires Valid(s, last, lastHook) && s.contexts != []
    ensures Settled(Finished(s, decision), last, lastHook)
  {
    hide Settled, Valid, Lent, ContextsKept, HooksKept, Transparent, Resumed, Decided, Left;
    var n := |s.contexts| - 1;
    var c := s.contexts[n];
    var t := Resumed(s.(contexts := s.contexts[..n], depth := s.depth + 1), c);
    ResumedKeeps(s, last, lastHook);
    if StillOwned(t, c) {
      DecidedIsSettled(t, decision, last, lastHook);
      LeftIsSettled(Decided(t, decision), last, lastHook);
    } else {
      LeftIsSettled(t, last, lastHook);
    }
  }

  lemma DecidedIsSettled(s: State, decision: Decision, last: nat, lastHook: Hook)
    requires HooksKept(s, lastHook) && ContextsKept(s) && Transparent(s, last) && s.hook == Ours
    ensures Settled(Decided(s, decision), last, lastHook) && Decided(s, decision).depth == s.depth
  {
    hide Settled;
    match decision {
      case Forked => ConfiguredIsSettled(s, false, false, false, last, lastHook);
      case Busy => ConfiguredIsSettled(s, true, true, false, last, lastHook);
      case Sync(required, fastPoll, menuPending) =>
        ConfiguredIsSettled(s, required, fastPoll, menuPending, last, lastHook);
      case Panicked => ConfiguredIsSettled(s, false, false, false, last, lastHook);
    }
  }

  // ---------------------------------------------------------------------
  // Steps
  // ---------------------------------------------------------------------

  /** What ends the loan other than the end of the callback that made it. */
  predicate Loses(s: State, e: Event) {
    match e
    case Configure(_, _, _) => true
    case Prepare => true
    case Unload => true
    case ForeignHook(_) => true
    case LeaveCallback => s.depth == 1 && s.unloadRequested
    case _ => false
  }

  /** Whether others notice nothing: all but a foreign write of our own hook. */
  predicate Fair(e: Event) {
    e.ForeignHook? ==> e.hook != Ours
  }

  function HookAfter(e: Event, lastHook: Hook): Hook {
    if e.ForeignHook? then e.hook else lastHook
  }

  function TimeoutAfter(e: Event, last: nat): nat {
    if e.ForeignTimeout? then e.value else last
  }

  /** Such a step settles on `last`, the value that is restorable before it, whatever the timeout was lent for. */
  lemma LosingStepSettles(s: State, e: Event, last: nat, lastHook: Hook)
    requires HooksKept(s, lastHook) && ContextsKept(s) && Transparent(s, last)
    requires Fair(e) && Loses(s, e) && (e.Configure? ==> s.loaded)
    requires e.LeaveCallback? ==> s.loaded
    ensures Settled(Step(s, e), last, HookAfter(e, lastHook))
  {
    match e {
      case Configure(required, fastPoll, menuPending) =>
        ConfiguredIsSettled(s, required, fastPoll, menuPending, last, lastHook);
      case Prepare => PreparedLends(s, last, lastHook);
      case Unload => UnloadAskedIsSettled(s, last, lastHook);
      case ForeignHook(foreign) =>
      case LeaveCallback =>
        var t := s.(depth := 0, unloadRequested := false);
        UnloadedKeeps(t, last, lastHook);
        hide Unloaded;
        DisownedIsSettled(s, Unloaded(t), last, lastHook);
      case _ =>
    }
  }

  lemma LoadedIsSettled(s: State, last: nat, lastHook: Hook)
    requires Settled(s, last, lastHook)
    ensures Settled(Loaded(s), last, lastHook)
  {
    if !s.loaded {
      ConfiguredIsSettled(s.(original := s.hook, loaded := true), false, false, false, last, lastHook);
    }
  }

  /** Without foreign writes of the timeout, what is settled stays so. */
  lemma SettledStep(s: State, e: Event, last: nat, lastHook: Hook)
    requires Settled(s, last, lastHook) && Fair(e) && !e.ForeignTimeout?
    ensures Settled(Step(s, e), last, HookAfter(e, lastHook))
  {
    hide Unloaded, Configured, Prepared, Finished;
    match e {
      case Load => LoadedIsSettled(s, last, lastHook);
      case Finish(decision) =>
        if s.contexts != [] {
          FinishedIsSettled(s, decision, last, lastHook);
        }
      case EnterCallback => MarksAreFree(s, s.depth + 1, s.unloadRequested, last, lastHook);
      case LeaveCallback =>
        if s.depth > 0 {
          LeftIsSettled(s, last, lastHook);
        }
      case Configure(_, _, _) =>
        if s.loaded {
          LosingStepSettles(s, e, last, lastHook);
        }
      case _ => LosingStepSettles(s, e, last, lastHook);
    }
  }

  /** What neither loses the loan nor ends it changes nothing about it. */
  lemma HarmlessStep(s: State, e: Event, last: nat, lastHook: Hook)
    requires Valid(s, last, lastHook) && Lent(s)
    requires !Loses(s, e) && !e.Finish? && !e.ForeignTimeout?
    ensures var t := Step(s, e);
      Valid(t, last, lastHook) && Lent(t) && t == s.(depth := t.depth)
  {
    MarksAreFree(s, s.depth + 1, s.unloadRequested, last, lastHook);
    if s.depth > 0 {
      MarksAreFree(s, s.depth - 1, s.unloadRequested, last, lastHook);
    }
    hide Unloaded;
  }

  /** A foreign write keeps the invariant exactly if it is noticed, harmless, or made while the timeout is lent. */
  lemma ForeignWriteKept(s: State, last: nat, lastHook: Hook, value: nat)
    requires Valid(s, last, lastHook)
    ensures Valid(s.(timeout := value), value, lastHook) <==>
            s.installed != Some(value) || s.previous == Some(value) || Lent(s)
  {
  }

  // ---------------------------------------------------------------------
  // Main results
  // ---------------------------------------------------------------------

  predicate NoForeignTimeout(events: seq<Event>) {
    forall e :: e in events ==> !e.ForeignTimeout? && Fair(e)
  }

  lemma {:induction false} RunStaysSettled(s: State, events: seq<Event>, last: nat, lastHook: Hook)
    requires Settled(s, last, lastHook) && NoForeignTimeout(events)
    ensures GivenBack(Execute(s, events)) == last
    decreases |events|
  {
    if events == [] {
      TransparentMeansRestorable(s, last);
    } else {
      assert events[0] in events;
      SettledStep(s, events[0], last, lastHook);
      RunStaysSettled(Step(s, events[0]), events[1..], last, HookAfter(events[0], lastHook));
    }
  }

  /** The callback ends before anything else asks for the timeout. */
  predicate EndsFirst(s: State, events: seq<Event>)
    decreases |events|
  {
    && events != []
    && (events[0].Finish? || (!Loses(s, events[0]) && EndsFirst(Step(s, events[0]), events[1..])))
  }

  lemma {:induction false} LentWriteIsKept(s: State, events: seq<Event>, value: nat, lastHook: Hook)
    requires Valid(s, value, lastHook) && Lent(s) && NoForeignTimeout(events)
    requires s.installed == Some(value) && s.previous != Some(value)
    ensures GivenBack(Execute(s, events)) == value <==> EndsFirst(s, events)
    decreases |events|
  {
    if events != [] {
      var e := events[0];
      assert e in events;
      if e.Finish? {
        FinishedIsSettled(s, e.decision, value, lastHook);
        RunStaysSettled(Step(s, e), events[1..], value, lastHook);
      } else if Loses(s, e) {
        LosingStepSettles(s, e, s.previous.value, lastHook);
        RunStaysSettled(Step(s, e), events[1..], s.previous.value, HookAfter(e, lastHook));
      } else {
        HarmlessStep(s, e, value, lastHook);
        LentWriteIsKept(Step(s, e), events[1..], value, lastHook);
      }
    }
  }

  /**
   A foreign write of the very value that is installed goes unnoticed. It survives
   exactly if that value was to be restored anyway, or if the timeout was lent to a
   chained hook and the callback ends before anything else asks for the timeout.
   */
  lemma WriteIsKept(s: State, last: nat, lastHook: Hook, value: nat, events: seq<Event>)
    requires Valid(s, last, lastHook) && s.installed == Some(value) && NoForeignTimeout(events)
    ensures var t := s.(timeout := value);
      GivenBack(Execute(t, events)) == value <==> s.previous == Some(value) || (Lent(s) && EndsFirst(t, events))
  {
    var t := s.(timeout := value);
    if s.previous == Some(value) {
      RunStaysSettled(t, events, value, lastHook);
    } else if Lent(s) {
      LentWriteIsKept(t, events, value, lastHook);
    } else {
      RunStaysSettled(t, events, s.previous.value, lastHook);
    }
  }

  /** The timer runs, and 100 is to be restored. */
  const POLLING: State := State(5_000, Ours, NoHook, Some(100), Some(5_000), 4, true, 0, false, [])

  lemma PollingIsReached()
    ensures Execute(Initial(100, NoHook), [Load, Configure(true, true, false)]) == POLLING
  {
    var s := Initial(100, NoHook);
    assert Step(Step(s, Load), Configure(true, true, false)) == POLLING;
    hide Step;
    ExecuteTwo(s, Load, Configure(true, true, false));
  }

  /** The same write of the same value: lost outside the callback, kept inside it. */
  lemma SameWriteLostAndKept()
    ensures Execute(Initial(100, NoHook), [Load, Configure(true, true, false)]) == POLLING
    ensures Execute(POLLING, [ForeignTimeout(5_000), Unload]).timeout == 100
    ensures Execute(POLLING, [Prepare, ForeignTimeout(5_000), Finish(Busy), Unload]).timeout == 5_000
  {
    PollingIsReached();
    var s := POLLING;
    assert Step(Step(s, ForeignTimeout(5_000)), Unload).timeout == 100;
    var t := s.(timeout := 5_000, contexts := [Context(4, Some(100), Some(5_000))]);
    assert Step(Step(s, Prepare), ForeignTimeout(5_000)) == t;
    var u := s.(previous := Some(5_000), ownership := 5);
    assert Step(t, Finish(Busy)) == u;
    assert Step(u, Unload).timeout == 5_000;
    hide Step;
    ExecuteTwo(s, ForeignTimeout(5_000), Unload);
    ExecuteTwo(s, Prepare, ForeignTimeout(5_000));
    ExecuteTwo(t, Finish(Busy), Unload);
    ExecuteConcat(s, [Prepare, ForeignTimeout(5_000)], [Finish(Busy), Unload]);
    assert [Prepare, ForeignTimeout(5_000)] + [Finish(Busy), Unload] == [Prepare, ForeignTimeout(5_000), Finish(Busy), Unload];
  }

  lemma ExecuteTwo(s: State, first: Event, second: Event)
    ensures Execute(s, [first, second]) == Step(Step(s, first), second)
  {
    hide Step;
    assert [first, second][1..] == [second];
    assert Execute(Step(s, first), [second]) == Execute(Step(Step(s, first), second), []);
  }

  lemma {:induction false} ExecuteConcat(s: State, a: seq<Event>, b: seq<Event>)
    ensures Execute(s, a + b) == Execute(Execute(s, a), b)
    decreases |a|
  {
    hide Step;
    if a == [] {
      assert a + b == b;
    } else {
      assert (a + b)[1..] == a[1..] + b;
      ExecuteConcat(Step(s, a[0]), a[1..], b);
    }
  }

  function LastTimeout(events: seq<Event>, last: nat): nat {
    if events == [] then last else LastTimeout(events[1..], TimeoutAfter(events[0], last))
  }

  function LastHook(events: seq<Event>, lastHook: Hook): Hook {
    if events == [] then lastHook else LastHook(events[1..], HookAfter(events[0], lastHook))
  }

  /**
   No foreign write is lost by this step: a write of the installed value is harmless or made while the timeout is
   lent, and a loan that hides such a write ends with its callback.
   */
  predicate LosesNothing(s: State, last: nat, e: Event) {
    && Fair(e)
    && (e.ForeignTimeout? ==> s.installed != Some(e.value) || s.previous == Some(e.value) || Lent(s))
    && (Loses(s, e) ==> Transparent(s, last))
  }

  predicate NothingLost(s: State, last: nat, events: seq<Event>)
    decreases |events|
  {
    events != [] ==>
      LosesNothing(s, last, events[0]) && NothingLost(Step(s, events[0]), TimeoutAfter(events[0], last), events[1..])
  }

  // ---------------------------------------------------------------------
  // What the plugin borrows for
  // ---------------------------------------------------------------------

  /** Whether a decision asks for the hook, and for which timeout. */
  predicate Wants(d: Decision) {
    d.Busy? || (d.Sync? && d.required)
  }

  function WantedTimeout(d: Decision): Option<nat> {
    if d.Busy? then Some(5_000)
    else if d.Sync? && d.required && d.fastPoll then Some(if d.menuPending then 1_000 else 5_000)
    else None
  }

  /** While ours is the hook, a finishing callback leaves the hook and the timeout as it decides. */
  lemma FinishedTakesEffect(s: State, decision: Decision, last: nat, lastHook: Hook)
    requires Valid(s, last, lastHook) && s.contexts != [] && s.loaded
    requires StillOwned(s, s.contexts[|s.contexts| - 1]) && (s.depth > 0 || !s.unloadRequested)
    ensures var t := Finished(s, decision);
      && t.loaded && t.depth == s.depth && t.contexts == s.contexts[..|s.contexts| - 1]
      && t.hook == (if Wants(decision) then Ours else lastHook)
      && t.installed == WantedTimeout(decision)
      && t.timeout == if t.installed.Some? then t.installed.value else last
  {
    var n := |s.contexts| - 1;
    var t := Resumed(s.(contexts := s.contexts[..n], depth := s.depth + 1), s.contexts[n]);
    ResumedKeeps(s, last, lastHook);
    assert t.hook == Ours && t.loaded && t.contexts == s.contexts[..n] && t.depth == s.depth + 1;
    hide Configured, Resumed, ContextsKept, StillOwned;
    match decision {
      case Forked => ConfiguredKeeps(t, false, false, false, last, lastHook);
      case Busy => ConfiguredKeeps(t, true, true, false, last, lastHook);
      case Sync(required, fastPoll, menuPending) => ConfiguredKeeps(t, required, fastPoll, menuPending, last, lastHook);
      case Panicked => ConfiguredKeeps(t, false, false, false, last, lastHook);
    }
    OwnedStays(s);
  }

  lemma OwnedStays(s: State)
    requires s.contexts != []
    ensures var n := |s.contexts| - 1; var c := s.contexts[n];
      StillOwned(s, c) ==> StillOwned(Resumed(s.(contexts := s.contexts[..n], depth := s.depth + 1), c), c)
  {
  }

  function Times(e: Event, n: nat): seq<Event> {
    if n == 0 then [] else [e] + Times(e, n - 1)
  }

  lemma {:induction false} Entering(s: State, n: nat)
    ensures Execute(s, Times(EnterCallback, n)) == s.(depth := s.depth + n)
    decreases n
  {
    if n > 0 {
      Entering(s.(depth := s.depth + 1), n - 1);
    }
  }

  lemma {:induction false} Leaving(s: State, n: nat)
    requires s.loaded && s.unloadRequested && s.depth > n
    ensures Execute(s, Times(LeaveCallback, n)) == s.(depth := s.depth - n)
    decreases n
  {
    if n > 0 {
      Leaving(s.(depth := s.depth - 1), n - 1);
    }
  }

  /** An unload asked for inside nested callbacks is carried out when the outermost one ends, and not before. */
  lemma UnloadWaitsForCallbacks(s: State, n: nat, left: nat)
    requires s.loaded && s.depth == 0 && left <= n
    ensures var t := Execute(s, Times(EnterCallback, n) + [Unload] + Times(LeaveCallback, left));
      t.loaded <==> left < n
  {
    var inside := s.(depth := n);
    var asked := UnloadAsked(inside);
    AskedInside(inside);
    hide Unloaded, UnloadAsked, Execute, Times, Left, Step;
    Entering(s, n);
    ExecuteConcat(s, Times(EnterCallback, n) + [Unload], Times(LeaveCallback, left));
    ExecuteConcat(s, Times(EnterCallback, n), [Unload]);
    if left < n {
      Leaving(asked, left);
    } else if n > 0 {
      Leaving(asked, n - 1);
      LastLeave(asked, n - 1);
    } else {
      NoTimes(LeaveCallback, asked);
    }
  }

  lemma NoTimes(e: Event, s: State)
    ensures Execute(s, Times(e, 0)) == s
  {
  }

  lemma AskedInside(s: State)
    requires s.loaded
    ensures Execute(s, [Unload]) == UnloadAsked(s)
    ensures s.depth > 0 ==> UnloadAsked(s) == s.(ownership := s.ownership + 1, unloadRequested := true)
    ensures s.depth == 0 ==> !UnloadAsked(s).loaded
  {
    assert [Unload][1..] == [];
    UnloadedIsGone(s.(ownership := s.ownership + 1, unloadRequested := false));
    hide Unloaded;
  }

  lemma UnloadedIsGone(s: State)
    ensures !Unloaded(s).loaded
  {
  }

  lemma LastLeave(s: State, n: nat)
    requires s.loaded && s.unloadRequested && s.depth == n + 1
    requires Execute(s, Times(LeaveCallback, n)) == s.(depth := 1)
    ensures !Execute(s, Times(LeaveCallback, n + 1)).loaded
  {
    TimesMore(LeaveCallback, n);
    ExecuteConcat(s, Times(LeaveCallback, n), [LeaveCallback]);
    var t := s.(depth := 1);
    assert Execute(t, [LeaveCallback]) == Left(t) by {
      assert [LeaveCallback][1..] == [];
    }
    UnloadedIsGone(t.(depth := 0, unloadRequested := false));
    hide Unloaded, Execute, Times;
  }

  lemma {:induction false} TimesMore(e: Event, n: nat)
    ensures Times(e, n + 1) == Times(e, n) + [e]
  {
    if n > 0 {
      TimesMore(e, n - 1);
    }
  }

  lemma ValidStep(s: State, last: nat, lastHook: Hook, e: Event)
    requires Valid(s, last, lastHook) && LosesNothing(s, last, e)
    ensures Valid(Step(s, e), TimeoutAfter(e, last), HookAfter(e, lastHook))
  {
    if e.ForeignTimeout? {
      ForeignWriteKept(s, last, lastHook, e.value);
    } else if Transparent(s, last) {
      SettledStep(s, e, last, lastHook);
    } else if e.Finish? {
      FinishedIsSettled(s, e.decision, last, lastHook);
    } else {
      HarmlessStep(s, e, last, lastHook);
    }
  }

  /**
   Over every run that loses no foreign write: what is not borrowed is what others wrote last, a hook that is not
   ours is the one they wrote last, and ours chains to it.
   */
  lemma {:induction false} RunIsTransparent(s: State, last: nat, lastHook: Hook, events: seq<Event>)
    requires Valid(s, last, lastHook) && NothingLost(s, last, events)
    ensures var t := Execute(s, events);
      && Valid(t, LastTimeout(events, last), LastHook(events, lastHook))
      && (t.installed.None? || Lent(t) ==> t.timeout == LastTimeout(events, last))
      && (!Lent(t) ==> GivenBack(t) == LastTimeout(events, last))
      && (if t.hook == Ours then t.original else t.hook) == LastHook(events, lastHook)
    decreases |events|
  {
    if events == [] {
      if !Lent(s) {
        TransparentMeansRestorable(s, last);
      }
    } else {
      ValidStep(s, last, lastHook, events[0]);
      RunIsTransparent(Step(s, events[0]), TimeoutAfter(events[0], last), HookAfter(events[0], lastHook), events[1..]);
    }
  }

  /** Where a write is lost, the plugin goes on to give back what it was to restore before. */
  lemma SomeStep(s: State, last: nat, lastHook: Hook, e: Event) returns (kept: nat)
    requires Valid(s, last, lastHook) && Fair(e)
    ensures Valid(Step(s, e), kept, HookAfter(e, lastHook))
  {
    if LosesNothing(s, last, e) {
      kept := TimeoutAfter(e, last);
      ValidStep(s, last, lastHook, e);
    } else {
      kept := s.previous.value;
      if !e.ForeignTimeout? {
        LosingStepSettles(s, e, kept, lastHook);
      }
    }
  }

  lemma {:induction false} RunIsValid(s: State, last: nat, lastHook: Hook, events: seq<Event>) returns (kept: nat)
    requires Valid(s, last, lastHook) && forall e :: e in events ==> Fair(e)
    ensures Valid(Execute(s, events), kept, LastHook(events, lastHook))
    decreases |events|
  {
    kept := last;
    if events != [] {
      assert events[0] in events;
      kept := SomeStep(s, last, lastHook, events[0]);
      kept := RunIsValid(Step(s, events[0]), kept, HookAfter(events[0], lastHook), events[1..]);
    }
  }

  /** So every run of loading, callbacks, unloading and foreign writes keeps the invariant, with writes lost or not. */
  lemma EveryRunIsValid(timeout: nat, hook: Hook, events: seq<Event>)
    requires hook != Ours && forall e :: e in events ==> Fair(e)
    ensures exists kept :: Valid(Execute(Initial(timeout, hook), events), kept, LastHook(events, hook))
  {
    InitialIsSettled(timeout, hook);
    var kept := RunIsValid(Initial(timeout, hook), timeout, hook, events);
  }

  /** No foreign write is of the value that is installed. */
  predicate WritesDiffer(s: State, events: seq<Event>)
    decreases |events|
  {
    events != [] ==>
      && Fair(events[0]) && (events[0].ForeignTimeout? ==> s.installed != Some(events[0].value))
      && WritesDiffer(Step(s, events[0]), events[1..])
  }

  lemma {:induction false} DifferentWritesAreKept(s: State, last: nat, lastHook: Hook, events: seq<Event>)
    requires Settled(s, last, lastHook) && WritesDiffer(s, events)
    ensures NothingLost(s, last, events)
    decreases |events|
  {
    if events != [] {
      var e := events[0];
      if e.ForeignTimeout? {
        ForeignWriteKept(s, last, lastHook, e.value);
      } else {
        SettledStep(s, e, last, lastHook);
      }
      DifferentWritesAreKept(Step(s, e), TimeoutAfter(e, last), HookAfter(e, lastHook), events[1..]);
    }
  }

  /** If every foreign write differs from what is installed, every run from the start is transparent. */
  lemma DifferentWritesAreTransparent(timeout: nat, hook: Hook, events: seq<Event>)
    requires hook != Ours && WritesDiffer(Initial(timeout, hook), events)
    ensures var t := Execute(Initial(timeout, hook), events);
      && (t.installed.None? ==> t.timeout == LastTimeout(events, timeout))
      && (!Lent(t) ==> GivenBack(t) == LastTimeout(events, timeout))
      && (if t.hook == Ours then t.original else t.hook) == LastHook(events, hook)
  {
    InitialIsSettled(timeout, hook);
    DifferentWritesAreKept(Initial(timeout, hook), timeout, hook, events);
    RunIsTransparent(Initial(timeout, hook), timeout, hook, events);
  }

  // ---------------------------------------------------------------------
  // The plugin
  // ---------------------------------------------------------------------

  class Plugin {
    /** Readline's own globals. */
    var timeout: nat
    var hook: Hook

    /** The plugin's globals. */
    var original: Hook
    var previous: Option<nat>
    var installed: Option<nat>
    var ownership: nat
    var loaded: bool
    var depth: nat
    var unloadRequested: bool

    var contexts: seq<Context>

    function Now(): State
      reads this
    {
      State(timeout, hook, original, previous, installed, ownership, loaded, depth, unloadRequested, contexts)
    }

    constructor (timeout: nat, hook: Hook)
      ensures Now() == Initial(timeout, hook)
      ensures hook != Ours ==> Settled(Now(), timeout, hook)
    {
      this.timeout, this.hook, original := timeout, hook, NoHook;
      previous, installed, ownership := None, None, 0;
      loaded, depth, unloadRequested, contexts := false, 0, false, [];
      new;
      if hook != Ours {
        InitialIsSettled(timeout, hook);
      }
    }

    /** Readline's setter: the only way to learn the old value. */
    method SetKeyboardTimeout(value: nat) returns (before: nat)
      modifies this`timeout
      ensures timeout == value && before == old(timeout)
    {
      before := timeout;
      timeout := value;
    }

    /** Installs a timeout and remembers the foreign one it replaces. */
    method SetEventInputTimeout(value: nat)
      modifies this`timeout, this`previous, this`installed, this`ownership
      ensures Now() == Installed(old(Now()), value)
    {
      ownership := ownership + 1;
      var actual := SetKeyboardTimeout(value);
      if previous.None? || Some(actual) != installed {
        previous := Some(actual);
      }
      installed := Some(value);
    }

    /** Gives the timeout back; a newer foreign value that this overwrites is put back. */
    method RestoreEventInputTimeout()
      modifies this`timeout, this`previous, this`installed, this`ownership
      ensures Now() == Restored(old(Now()))
    {
      ownership := ownership + 1;
      var before, ours := previous, installed;
      previous, installed := None, None;
      if before.Some? {
        var actual := SetKeyboardTimeout(before.value);
        if ours.Some? && actual != ours.value {
          var _ := SetKeyboardTimeout(actual);
        }
      }
    }

    method ConfigureEventHook(required: bool, fastPoll: bool, menuPending: bool)
      modifies this`timeout, this`previous, this`installed, this`ownership, this`hook
      ensures Now() == Configured(old(Now()), required, fastPoll, menuPending)
    {
      var isOurs := hook == Ours;
      if !isOurs {
        RestoreEventInputTimeout();
      }
      if required && !isOurs {
        if hook == original {
          if fastPoll {
            SetEventInputTimeout(if menuPending then MENU_EVENT_INPUT_TIMEOUT_US else BACKGROUND_EVENT_INPUT_TIMEOUT_US);
          }
          hook := Ours;
          ownership := ownership + 1;
        }
      } else if required && isOurs {
        if fastPoll {
          SetEventInputTimeout(if menuPending then MENU_EVENT_INPUT_TIMEOUT_US else BACKGROUND_EVENT_INPUT_TIMEOUT_US);
        } else {
          RestoreEventInputTimeout();
        }
      } else if !required && isOurs {
        ownership := ownership + 1;
        hook := original;
        RestoreEventInputTimeout();
      }
    }

    method PrepareEvent() returns (chained: Hook)
      modifies this`timeout, this`previous, this`contexts
      ensures Now() == Prepared(old(Now())) && chained == original
    {
      var context := Context(ownership, previous, installed);
      if context.previous.Some? && context.installed.Some? {
        var actual := SetKeyboardTimeout(context.previous.value);
        if Some(actual) != context.installed {
          previous := Some(actual);
          var _ := SetKeyboardTimeout(actual);
        }
      }
      contexts := contexts + [context];
      chained := original;
    }

    method FinishEvent(decision: Decision)
      requires contexts != []
      modifies this
      ensures Now() == Finished(old(Now()), decision)
    {
      hide Resumed, Decided, Left;
      var context := contexts[|contexts| - 1];
      contexts := contexts[..|contexts| - 1];
      depth := depth + 1;
      ResumeTimeout(context);
      if context.ownership == ownership && hook == Ours {
        Decide(decision);
      }
      Leave();
    }

    method ResumeTimeout(context: Context)
      modifies this`timeout, this`previous
      ensures Now() == Resumed(old(Now()), context)
    {
      if context.previous.Some? && hook == Ours && context.ownership == ownership
        && context.installed.Some? && installed == context.installed
      {
        var updated := SetKeyboardTimeout(context.installed.value);
        previous := Some(updated);
      }
    }

    method Decide(decision: Decision)
      modifies this`timeout, this`previous, this`installed, this`ownership, this`hook
      ensures Now() == Decided(old(Now()), decision)
    {
      hide Configured;
      match decision {
        case Forked => ConfigureEventHook(false, false, false);
        case Busy => ConfigureEventHook(true, true, false);
        case Sync(required, fastPoll, menuPending) => ConfigureEventHook(required, fastPoll, menuPending);
        case Panicked => ConfigureEventHook(false, false, false);
      }
    }

    method Leave()
      requires depth > 0
      modifies this
      ensures Now() == Left(old(Now()))
    {
      hide Unloaded;
      depth := depth - 1;
      if depth == 0 && unloadRequested {
        unloadRequested := false;
        FinishUnload();
      }
    }

    method UnloadPlugin()
      modifies this
      ensures Now() == UnloadAsked(old(Now()))
    {
      ownership := ownership + 1;
      unloadRequested := true;
      if depth == 0 {
        unloadRequested := false;
        FinishUnload();
      }
    }

    method FinishUnload()
      modifies this
      ensures Now() == Unloaded(old(Now()))
    {
      if !loaded {
        return;
      }
      if hook == Ours {
        ConfigureEventHook(false, false, false);
      } else {
        RestoreEventInputTimeout();
      }
      loaded := false;
    }

    /** Remembers the present hook as the one to chain to. */
    method LoadPlugin()
      modifies this
      ensures Now() == Loaded(old(Now()))
      ensures !old(loaded) && old(hook) != Ours ==> original == hook == old(hook)
    {
      if loaded {
        return;
      }
      original := hook;
      loaded := true;
      ConfigureEventHook(false, false, false);
    }

    method Perform(e: Event)
      modifies this
      ensures Now() == Step(old(Now()), e)
    {
      hide Installed, Restored, Configured, Prepared, Finished, Left, UnloadAsked, Loaded;
      match e {
        case Load => LoadPlugin();
        case Configure(required, fastPoll, menuPending) =>
          if loaded {
            ConfigureEventHook(required, fastPoll, menuPending);
          }
        case Prepare => var _ := PrepareEvent();
        case Finish(decision) =>
          if contexts != [] {
            FinishEvent(decision);
          }
        case EnterCallback => depth := depth + 1;
        case LeaveCallback =>
          if depth > 0 {
            Leave();
          }
        case Unload => UnloadPlugin();
        case ForeignTimeout(value) => timeout := value;
        case ForeignHook(foreign) => hook := foreign;
      }
    }

    /** Performs any sequence of the plugin's operations and of what others do in between. */
    method Run(events: seq<Event>, ghost last: nat, ghost lastHook: Hook)
      requires Valid(Now(), last, lastHook)
      modifies this
      ensures Now() == Execute(old(Now()), events)
      ensures old(NothingLost(Now(), last, events)) ==>
        && (installed.None? ==> timeout == LastTimeout(events, last))
        && (!Lent(Now()) ==> GivenBack(Now()) == LastTimeout(events, last))
        && (if hook == Ours then original else hook) == LastHook(events, lastHook)
    {
      hide Step;
      ghost var s := Now();
      for i := 0 to |events|
        invariant Execute(Now(), events[i..]) == Execute(s, events)
      {
        assert events[i..][1..] == events[i + 1..];
        Perform(events[i]);
      }
      if NothingLost(s, last, events) {
        RunIsTransparent(s, last, lastHook, events);
      }
    }
  }
}
