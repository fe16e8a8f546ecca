/**
 Loading one command's rules in the worker: blocks are decoded one at a time, with one block of lookahead, and staged.
 However it goes, a load ends with exactly one reply within the limit, with all programs of all blocks or with none.
 */
module RuleLoad {
  import opened Wrappers

  const MAX_RULE_BYTES: nat := 64 * 1024 * 1024
  const MAX_RULE_CACHE_ENTRIES: nat := 4096
  const MAX_MATCHING_COMMAND_BLOCKS: nat := 4096
  const MAX_STAGED_ERRORS: nat := 128
  const MAX_STAGED_ERROR_BYTES: nat := 64 * 1024
  const MAX_ERROR_LENGTH: nat := 4096
  const STRING_SIZE: nat := 24
  const LIMIT_ERROR: string := "decoded rules exceed the worker rule limit"

  /** A decoded program and the bytes it retains. */
  datatype Program = Program(id: nat, bytes: nat)

  /** What a block decodes to, and the allocation that takes; a smaller limit makes it fail. */
  datatype Block = Block(programs: seq<Program>, errors: seq<string>, cost: nat, failure: string)

  /** The blocks that a pack has for the command, if its index can be read. */
  type Pack = Result<seq<Block>, string>

  datatype Reply = Reply(programs: seq<Program>, errors: seq<string>, bytes: nat, rejected: bool)

  function Min(a: nat, b: nat): nat { if a < b then a else b }

  function Minus(a: nat, b: nat): nat { if a < b then 0 else a - b }

  function ProgramBytes(programs: seq<Program>): nat {
    if programs == [] then 0 else ProgramBytes(programs[..|programs| - 1]) + programs[|programs| - 1].bytes
  }

  function ErrorBytes(errors: seq<string>): nat {
    if errors == [] then 0 else ErrorBytes(errors[..|errors| - 1]) + STRING_SIZE + |errors[|errors| - 1]|
  }

  lemma {:induction false} ProgramBytesConcat(a: seq<Program>, b: seq<Program>)
    ensures ProgramBytes(a + b) == ProgramBytes(a) + ProgramBytes(b)
  {
    if b == [] {
      assert a + b == a;
    } else {
      ProgramBytesConcat(a, b[..|b| - 1]);
      assert (a + b)[..|a + b| - 1] == a + b[..|b| - 1];
    }
  }

  lemma ErrorBytesAppend(errors: seq<string>, e: string)
    ensures ErrorBytes(errors + [e]) == ErrorBytes(errors) + STRING_SIZE + |e|
  {
    assert (errors + [e])[..|errors|] == errors;
  }

  // ---------------------------------------------------------------------
  // Decoding
  // ---------------------------------------------------------------------

  datatype Decoded = Decoded(programs: seq<Program>, errors: seq<string>, limitExceeded: bool)

  function Decode(b: Block, limit: nat): Decoded {
    if b.cost > limit then Decoded([], [b.failure], true) else Decoded(b.programs, b.errors, false)
  }

  /** What the command's packs hold, as far as they are read: blocks, or the error that ends the load. */
  datatype Item = BlockItem(block: Block) | Broken(error: string)

  const TOO_MANY: string := "matching rule blocks exceed the bounded limit"

  function BlockItems(blocks: seq<Block>, count: nat): seq<Item> {
    if blocks == [] then []
    else if count >= MAX_MATCHING_COMMAND_BLOCKS then [Broken(TOO_MANY)]
    else [BlockItem(blocks[0])] + BlockItems(blocks[1..], count + 1)
  }

  function Items(packs: seq<Pack>, count: nat): seq<Item> {
    if packs == [] then []
    else
      match packs[0]
      case Err(e) => [Broken(e)]
      case Ok(blocks) =>
        if count + |blocks| > MAX_MATCHING_COMMAND_BLOCKS then BlockItems(blocks, count)
        else BlockItems(blocks, count) + Items(packs[1..], count + |blocks|)
  }

  // ---------------------------------------------------------------------
  // Staging, as a value
  // ---------------------------------------------------------------------

  datatype Staged = Staged(programs: seq<Program>, errors: seq<string>)

  predicate WithinLimit(s: Staged, limit: nat) {
    && ProgramBytes(s.programs) + ErrorBytes(s.errors) <= limit
    && |s.programs| <= MAX_RULE_CACHE_ENTRIES
    && |s.errors| <= MAX_STAGED_ERRORS && ErrorBytes(s.errors) <= MAX_STAGED_ERROR_BYTES
    && forall i, j :: 0 <= i < j < |s.errors| ==> s.errors[i] != s.errors[j]
  }

  /** Errors join, cut and without repetition, as long as there is room beside `bytes` of programs. */
  function ErrorsStaged(staged: seq<string>, errors: seq<string>, bytes: nat, limit: nat): seq<string>
    decreases |errors|
  {
    if errors == [] || |staged| >= MAX_STAGED_ERRORS then staged
    else
      var e := errors[0][..Min(|errors[0]|, MAX_ERROR_LENGTH)];
      if e in staged then ErrorsStaged(staged, errors[1..], bytes, limit)
      else
        var size := STRING_SIZE + |e|;
        if ErrorBytes(staged) + size > MAX_STAGED_ERROR_BYTES || bytes + ErrorBytes(staged) + size > limit then staged
        else ErrorsStaged(staged + [e], errors[1..], bytes, limit)
  }

  predicate Rejects(s: Staged, d: Decoded, limit: nat) {
    || d.limitExceeded
    || ProgramBytes(s.programs) + ProgramBytes(d.programs) + ErrorBytes(s.errors) > limit
    || |s.programs| + |d.programs| > MAX_RULE_CACHE_ENTRIES
  }

  function LimitErrorStaged(errors: seq<string>, limit: nat): seq<string> {
    var size := STRING_SIZE + |LIMIT_ERROR|;
    if |errors| < MAX_STAGED_ERRORS && LIMIT_ERROR !in errors
      && ErrorBytes(errors) + size <= MAX_STAGED_ERROR_BYTES && ErrorBytes(errors) + size <= limit
    then errors + [LIMIT_ERROR] else errors
  }

  function AfterErrors(s: Staged, d: Decoded, limit: nat): seq<string> {
    ErrorsStaged(s.errors, d.errors, ProgramBytes(s.programs) + ProgramBytes(d.programs), limit)
  }

  function Joined(s: Staged, d: Decoded, limit: nat): Staged {
    Staged(s.programs + d.programs, AfterErrors(s, d, limit))
  }

  function Rejection(s: Staged, d: Decoded, limit: nat): Reply {
    Reply([], LimitErrorStaged(AfterErrors(s, d, limit), limit), 0, true)
  }

  function Terminal(s: Staged, d: Decoded, limit: nat): Reply {
    if Rejects(s, d, limit) then Rejection(s, d, limit)
    else var t := Joined(s, d, limit); Reply(t.programs, t.errors, ProgramBytes(t.programs), false)
  }

  /** The reply of a load that is not cancelled; `pending` is the block that is looked ahead. */
  function Outcome(items: seq<Item>, pending: Option<Block>, s: Staged, limit: nat): Reply {
    if items == [] then
      match pending
      case None => Terminal(s, Decoded([], [], false), limit)
      case Some(b) => Terminal(s, Decode(b, Left(s, limit)), limit)
    else
      match items[0]
      case Broken(e) => Terminal(s, Decoded([], [e], true), limit)
      case BlockItem(b) =>
        match pending
        case None => Outcome(items[1..], Some(b), s, limit)
        case Some(p) =>
          var d := Decode(p, Left(s, limit));
          if Rejects(s, d, limit) then Rejection(s, d, limit)
          else Outcome(items[1..], Some(b), Joined(s, d, limit), limit)
  }

  /** The bytes that the next block may take. */
  function Left(s: Staged, limit: nat): nat {
    Minus(Minus(limit, ProgramBytes(s.programs)), ErrorBytes(s.errors))
  }

  lemma {:induction false} ErrorsStayWithin(s: Staged, errors: seq<string>, bytes: nat, limit: nat)
    requires WithinLimit(s, limit)
    ensures var all := ErrorsStaged(s.errors, errors, bytes, limit);
      && |all| <= MAX_STAGED_ERRORS && ErrorBytes(all) <= MAX_STAGED_ERROR_BYTES
      && (bytes + ErrorBytes(s.errors) <= limit ==> bytes + ErrorBytes(all) <= limit)
      && ErrorBytes(all) <= limit
      && (forall i, j :: 0 <= i < j < |all| ==> all[i] != all[j])
    decreases |errors|
  {
    if errors != [] && |s.errors| < MAX_STAGED_ERRORS {
      var e := errors[0][..Min(|errors[0]|, MAX_ERROR_LENGTH)];
      var size := STRING_SIZE + |e|;
      ErrorBytesAppend(s.errors, e);
      if e in s.errors {
        ErrorsStayWithin(s, errors[1..], bytes, limit);
      } else if ErrorBytes(s.errors) + size <= MAX_STAGED_ERROR_BYTES && bytes + ErrorBytes(s.errors) + size <= limit {
        ErrorsStayWithin(Staged([], s.errors + [e]), errors[1..], bytes, limit);
      }
    }
  }

  lemma JoinedIsWithin(s: Staged, d: Decoded, limit: nat)
    requires WithinLimit(s, limit) && !Rejects(s, d, limit)
    ensures WithinLimit(Joined(s, d, limit), limit)
  {
    ErrorsStayWithin(s, d.errors, ProgramBytes(s.programs) + ProgramBytes(d.programs), limit);
    ProgramBytesConcat(s.programs, d.programs);
  }

  /** The bytes of a reply: what its programs retain and its diagnostics take. */
  function ReplyBytes(r: Reply): nat {
    ProgramBytes(r.programs) + ErrorBytes(r.errors)
  }

  lemma TerminalIsBounded(s: Staged, d: Decoded, limit: nat)
    requires WithinLimit(s, limit)
    ensures ReplyBytes(Rejection(s, d, limit)) <= limit
    ensures ReplyBytes(Terminal(s, d, limit)) <= limit
    ensures Terminal(s, d, limit).bytes == ProgramBytes(Terminal(s, d, limit).programs)
    ensures Terminal(s, d, limit).rejected ==> Terminal(s, d, limit).programs == []
  {
    var bytes := ProgramBytes(s.programs) + ProgramBytes(d.programs);
    ErrorsStayWithin(s, d.errors, bytes, limit);
    ErrorBytesAppend(AfterErrors(s, d, limit), LIMIT_ERROR);
    if !Rejects(s, d, limit) {
      JoinedIsWithin(s, d, limit);
    }
  }

  /** Every reply is within the limit, and a rejected one carries no programs. */
  lemma {:induction false} OutcomeIsBounded(items: seq<Item>, pending: Option<Block>, s: Staged, limit: nat)
    requires WithinLimit(s, limit)
    ensures var r := Outcome(items, pending, s, limit);
      ReplyBytes(r) <= limit && r.bytes == ProgramBytes(r.programs) && (r.rejected ==> r.programs == [])
    decreases |items|
  {
    hide WithinLimit, Rejects, Joined, Rejection, Terminal, Decode;
    if items == [] {
      TerminalIsBounded(s, Decoded([], [], false), limit);
      if pending.Some? {
        TerminalIsBounded(s, Decode(pending.value, Left(s, limit)), limit);
      }
    } else {
      match items[0] {
        case Broken(e) => TerminalIsBounded(s, Decoded([], [e], true), limit);
        case BlockItem(b) =>
          if pending.None? {
            OutcomeIsBounded(items[1..], Some(b), s, limit);
          } else {
            var d := Decode(pending.value, Left(s, limit));
            TerminalIsBounded(s, d, limit);
            RejectionIsEmpty(s, d, limit);
            if !Rejects(s, d, limit) {
              JoinedIsWithin(s, d, limit);
              OutcomeIsBounded(items[1..], Some(b), Joined(s, d, limit), limit);
            }
          }
      }
    }
  }

  lemma RejectionIsEmpty(s: Staged, d: Decoded, limit: nat)
    ensures var r := Rejection(s, d, limit); r.rejected && r.programs == [] && r.bytes == 0 == ProgramBytes(r.programs)
  {
  }

  /** All programs of all blocks, in order. */
  function AllPrograms(items: seq<Item>): seq<Program> {
    if items == [] then []
    else (if items[0].BlockItem? then items[0].block.programs else []) + AllPrograms(items[1..])
  }

  function PendingPrograms(pending: Option<Block>): seq<Program> {
    if pending.Some? then pending.value.programs else []
  }

  lemma Associates(a: seq<Program>, b: seq<Program>, c: seq<Program>)
    ensures a + (b + c) == a + b + c
  {
  }

  lemma AcceptedDecodes(s: Staged, b: Block, limit: nat)
    ensures !Rejects(s, Decode(b, Left(s, limit)), limit) ==>
      Joined(s, Decode(b, Left(s, limit)), limit).programs == s.programs + b.programs
  {
  }

  /** A reply that is not rejected carries every program of every block, in order, and no index was unreadable. */
  lemma {:induction false} AcceptedCarriesAll(items: seq<Item>, pending: Option<Block>, s: Staged, limit: nat)
    ensures var r := Outcome(items, pending, s, limit);
      !r.rejected ==>
        && r.programs == s.programs + (PendingPrograms(pending) + AllPrograms(items))
        && forall i :: 0 <= i < |items| ==> items[i].BlockItem?
    decreases |items|
  {
    hide Rejects, Joined, Rejection, Decode;
    if items == [] {
      if pending.Some? {
        AcceptedDecodes(s, pending.value, limit);
      } else {
        assert Joined(s, Decoded([], [], false), limit).programs == s.programs by { JoinedNothing(s, limit); }
      }
      assert PendingPrograms(pending) + [] == PendingPrograms(pending);
      RejectionIsRejected(s, Decode(if pending.Some? then pending.value else Block([], [], 0, ""), Left(s, limit)), limit);
      RejectionIsRejected(s, Decoded([], [], false), limit);
    } else {
      match items[0] {
        case Broken(e) => BrokenRejects(s, e, limit);
        case BlockItem(b) =>
          if pending.None? {
            AcceptedCarriesAll(items[1..], Some(b), s, limit);
            assert [] + AllPrograms(items) == AllPrograms(items);
          } else {
            var d := Decode(pending.value, Left(s, limit));
            RejectionIsRejected(s, d, limit);
            if !Rejects(s, d, limit) {
              AcceptedDecodes(s, pending.value, limit);
              AcceptedCarriesAll(items[1..], Some(b), Joined(s, d, limit), limit);
              Associates(s.programs, pending.value.programs, b.programs + AllPrograms(items[1..]));
            }
          }
      }
    }
  }

  lemma JoinedNothing(s: Staged, limit: nat)
    ensures Joined(s, Decoded([], [], false), limit).programs == s.programs
  {
  }

  lemma RejectionIsRejected(s: Staged, d: Decoded, limit: nat)
    ensures Rejection(s, d, limit).rejected
  {
  }

  lemma TerminalRejects(s: Staged, d: Decoded, limit: nat)
    ensures Rejects(s, d, limit) ==> Terminal(s, d, limit).rejected
  {
  }

  lemma BrokenRejects(s: Staged, e: string, limit: nat)
    ensures Terminal(s, Decoded([], [e], true), limit).rejected
  {
  }

  // ---------------------------------------------------------------------
  // The worker
  // ---------------------------------------------------------------------

  /** What the worker keeps while it loads; `replies` are the ones it has sent. */
  class Load {
    const limit: nat
    var programs: seq<Program>
    var errors: seq<string>
    var bytes: nat
    var errorBytes: nat
    var terminalSent: bool
    var replies: seq<Reply>

    ghost function Value(): Staged
      reads this
    {
      Staged(programs, errors)
    }

    ghost predicate Valid()
      reads this
    {
      && bytes == ProgramBytes(programs) && errorBytes == ErrorBytes(errors)
      && !terminalSent && replies == []
    }

    constructor (byteLimit: nat)
      ensures Valid() && Value() == Staged([], []) && limit == Min(byteLimit, MAX_RULE_BYTES)
    {
      limit := Min(byteLimit, MAX_RULE_BYTES);
      programs, errors, bytes, errorBytes, terminalSent, replies := [], [], 0, 0, false, [];
    }

    method StageErrors(more: seq<string>, nextBytes: nat)
      requires errorBytes == ErrorBytes(errors)
      modifies this`errors, this`errorBytes
      ensures errors == ErrorsStaged(old(errors), more, nextBytes, limit) && errorBytes == ErrorBytes(errors)
    {
      var n := 0;
      while n < |more| && |errors| < MAX_STAGED_ERRORS
        invariant 0 <= n <= |more| && errorBytes == ErrorBytes(errors)
        invariant ErrorsStaged(errors, more[n..], nextBytes, limit) == ErrorsStaged(old(errors), more, nextBytes, limit)
        decreases |more| - n
      {
        var e := more[n][..Min(|more[n]|, MAX_ERROR_LENGTH)];
        assert more[n..][0] == more[n] && more[n..][1..] == more[n + 1..];
        if e !in errors {
          var size := STRING_SIZE + |e|;
          if errorBytes + size > MAX_STAGED_ERROR_BYTES || nextBytes + errorBytes + size > limit {
            return;
          }
          ErrorBytesAppend(errors, e);
          errorBytes := errorBytes + size;
          errors := errors + [e];
        }
        n := n + 1;
      }
    }

    method StageLimitError()
      requires errorBytes == ErrorBytes(errors)
      modifies this`errors, this`errorBytes
      ensures errors == LimitErrorStaged(old(errors), limit) && errorBytes == ErrorBytes(errors)
    {
      ErrorBytesAppend(errors, LIMIT_ERROR);
      var size := STRING_SIZE + |LIMIT_ERROR|;
      if |errors| < MAX_STAGED_ERRORS && LIMIT_ERROR !in errors
        && errorBytes + size <= MAX_STAGED_ERROR_BYTES && errorBytes + size <= limit
      {
        errorBytes := errorBytes + size;
        errors := errors + [LIMIT_ERROR];
      }
    }

    /** Takes one decoded block. A part is staged; the last one, or one that does not fit, sends the reply. */
    method Emit(d: Decoded, complete: bool) returns (next: Option<nat>)
      requires Valid()
      modifies this
      ensures !complete && !Rejects(old(Value()), d, limit) ==>
        Valid() && Value() == Joined(old(Value()), d, limit) && next == Some(Left(Value(), limit))
      ensures complete || Rejects(old(Value()), d, limit) ==>
        terminalSent && replies == [Terminal(old(Value()), d, limit)] && next.None?
    {
      hide ErrorsStaged, ErrorBytes, LimitErrorStaged;
      ProgramBytesConcat(programs, d.programs);
      var nextBytes := bytes + ProgramBytes(d.programs);
      var rejected := d.limitExceeded || nextBytes + errorBytes > limit || |programs| + |d.programs| > MAX_RULE_CACHE_ENTRIES;
      StageErrors(d.errors, nextBytes);
      if rejected {
        StageLimitError();
        programs := [];
      } else {
        bytes := nextBytes;
        programs := programs + d.programs;
      }
      if !complete && !rejected {
        return Some(Minus(Minus(limit, bytes), errorBytes));
      }
      terminalSent := true;
      replies := replies + [Reply(programs, errors, if rejected then 0 else bytes, rejected)];
      next := None;
    }

    /** A load that was cancelled without a reply drops what it staged, and answers with nothing. */
    method Finish()
      requires terminalSent ==> |replies| == 1
      requires !terminalSent ==> replies == []
      modifies this
      ensures old(terminalSent) ==> replies == old(replies)
      ensures !old(terminalSent) ==> replies == [Reply([], [], 0, false)] && programs == [] && errors == []
    {
      if !terminalSent {
        programs, errors := [], [];
        replies := replies + [Reply([], [], 0, false)];
      }
    }
  }

  /** The items behind the blocks of the current pack. */
  function RestItems(blocks: seq<Block>, packs: seq<Pack>, count: nat): seq<Item> {
    if count + |blocks| > MAX_MATCHING_COMMAND_BLOCKS then BlockItems(blocks, count)
    else BlockItems(blocks, count) + Items(packs, count + |blocks|)
  }

  lemma RestStep(blocks: seq<Block>, packs: seq<Pack>, count: nat)
    requires blocks != []
    ensures count >= MAX_MATCHING_COMMAND_BLOCKS ==> RestItems(blocks, packs, count) == [Broken(TOO_MANY)]
    ensures count < MAX_MATCHING_COMMAND_BLOCKS ==>
      RestItems(blocks, packs, count) == [BlockItem(blocks[0])] + RestItems(blocks[1..], packs, count + 1)
  {
    BlocksStep(blocks, count);
    hide BlockItems, Items;
    if count < MAX_MATCHING_COMMAND_BLOCKS {
      ItemsAssociate([BlockItem(blocks[0])], BlockItems(blocks[1..], count + 1), Items(packs, count + |blocks|));
    }
  }

  lemma BlocksStep(blocks: seq<Block>, count: nat)
    requires blocks != []
    ensures BlockItems(blocks, count) ==
      if count >= MAX_MATCHING_COMMAND_BLOCKS then [Broken(TOO_MANY)]
      else [BlockItem(blocks[0])] + BlockItems(blocks[1..], count + 1)
  {
  }

  lemma ItemsAssociate(a: seq<Item>, b: seq<Item>, c: seq<Item>)
    ensures a + (b + c) == a + b + c
  {
  }

  lemma RestEnds(packs: seq<Pack>, count: nat)
    requires count <= MAX_MATCHING_COMMAND_BLOCKS
    ensures RestItems([], packs, count) == Items(packs, count)
  {
  }

  /** The step of `Outcome` over the next block. */
  lemma OutcomeStep(b: Block, rest: seq<Item>, pending: Option<Block>, s: Staged, limit: nat)
    ensures Outcome([BlockItem(b)] + rest, pending, s, limit) ==
      match pending
      case None => Outcome(rest, Some(b), s, limit)
      case Some(p) =>
        var d := Decode(p, Left(s, limit));
        if Rejects(s, d, limit) then Terminal(s, d, limit) else Outcome(rest, Some(b), Joined(s, d, limit), limit)
  {
    assert ([BlockItem(b)] + rest)[1..] == rest;
  }

  /** Where a load stands: more to come with the same outcome, or its reply is sent. */
  ghost predicate OnTheWay(load: Load, items: seq<Item>, pending: Option<Block>, outcome: Reply)
    reads load
  {
    load.Valid() && Outcome(items, pending, load.Value(), load.limit) == outcome
  }

  ghost predicate Answered(load: Load, outcome: Reply)
    reads load
  {
    load.terminalSent && load.replies == [outcome]
  }

  ghost predicate Silent(load: Load)
    reads load
  {
    !load.terminalSent && load.replies == []
  }

  function BlockCount(packs: seq<Pack>): nat {
    if packs == [] then 0
    else
      var n := |packs| - 1;
      BlockCount(packs[..n]) + if packs[n].Ok? then |packs[n].value| else 0
  }

  /**
   The incremental loader. `calls` counts its questions whether to go on; `patience` is how many of them are
   answered with yes before the generation changes for good. It asks before every pack, before every block but the
   first, and at the end.
   */
  method LoadIncremental(load: Load, packs: seq<Pack>, patience: nat) returns (calls: nat)
    requires load.Valid() && load.Value() == Staged([], [])
    modifies load
    ensures calls <= patience ==> Answered(load, Outcome(Items(packs, 0), None, Staged([], []), load.limit))
    ensures calls > patience ==> Silent(load)
    ensures calls <= patience && !Outcome(Items(packs, 0), None, Staged([], []), load.limit).rejected ==>
      calls == |packs| + Minus(BlockCount(packs), 1) + 1
  {
    hide Outcome, Items, Terminal;
    ghost var outcome := Outcome(Items(packs, 0), None, Staged([], []), load.limit);
    calls := 0;
    var pending: Option<Block> := None;
    var count: nat := 0;
    assert packs[0..] == packs;
    for i := 0 to |packs|
      invariant calls <= patience && count <= MAX_MATCHING_COMMAND_BLOCKS
      invariant OnTheWay(load, Items(packs[i..], count), pending, outcome)
      invariant count == BlockCount(packs[..i]) && (pending.Some? <==> count > 0) && calls == i + Minus(count, 1)
    {
      calls := calls + 1;
      if calls > patience {
        return;
      }
      NextPack(packs, i, count);
      if packs[i].Err? {
        BrokenOutcome(packs[i].error, pending, load.Value(), load.limit);
        BrokenRejects(load.Value(), packs[i].error, load.limit);
        var _ := load.Emit(Decoded([], [packs[i].error], true), true);
        return;
      }
      assert packs[..i + 1][..i] == packs[..i];
      var ended;
      pending, count, calls, ended := LoadPack(load, packs[i].value, packs[i + 1..], pending, count, patience, calls, outcome);
      if ended {
        return;
      }
    }
    assert packs[|packs|..] == [] && packs[..|packs|] == packs;
    calls := calls + 1;
    if calls > patience {
      return;
    }
    LastOutcome(count, pending, load.Value(), load.limit);
    var d := if pending.Some? then Decode(pending.value, Minus(Minus(load.limit, load.bytes), load.errorBytes)) else Decoded([], [], false);
    var _ := load.Emit(d, true);
  }

  lemma NextPack(packs: seq<Pack>, i: nat, count: nat)
    requires i < |packs|
    ensures match packs[i]
      case Err(e) => Items(packs[i..], count) == [Broken(e)]
      case Ok(blocks) => Items(packs[i..], count) == RestItems(blocks, packs[i + 1..], count)
  {
    assert packs[i..][1..] == packs[i + 1..];
  }

  lemma BrokenOutcome(e: string, pending: Option<Block>, s: Staged, limit: nat)
    ensures Outcome([Broken(e)], pending, s, limit) == Terminal(s, Decoded([], [e], true), limit)
  {
  }

  lemma LastOutcome(count: nat, pending: Option<Block>, s: Staged, limit: nat)
    ensures Outcome(Items([], count), pending, s, limit) ==
      Terminal(s, if pending.Some? then Decode(pending.value, Left(s, limit)) else Decoded([], [], false), limit)
  {
  }

  /** The blocks of one pack; each decodes the block before it. */
  method LoadPack(
    load: Load, blocks: seq<Block>, rest: seq<Pack>, ahead: Option<Block>, before: nat, patience: nat, asked: nat, ghost outcome: Reply)
    returns (pending: Option<Block>, count: nat, calls: nat, ended: bool)
    requires before <= MAX_MATCHING_COMMAND_BLOCKS && asked <= patience && (ahead.Some? <==> before > 0)
    requires OnTheWay(load, RestItems(blocks, rest, before), ahead, outcome)
    modifies load
    ensures ended && calls <= patience ==> Answered(load, outcome) && outcome.rejected
    ensures ended && calls > patience ==> Silent(load)
    ensures !ended ==>
      count == before + |blocks| && (pending.Some? <==> count > 0) && calls + Minus(before, 1) == asked + Minus(count, 1)
    ensures !ended ==> calls <= patience && count <= MAX_MATCHING_COMMAND_BLOCKS && OnTheWay(load, Items(rest, count), pending, outcome)
  {
    hide Outcome, Items, Terminal, RestItems, Rejects, Joined, Decode;
    pending, count, calls, ended := ahead, before, asked, false;
    assert blocks[0..] == blocks;
    for j := 0 to |blocks|
      invariant calls <= patience && count <= MAX_MATCHING_COMMAND_BLOCKS
      invariant OnTheWay(load, RestItems(blocks[j..], rest, count), pending, outcome)
      invariant count == before + j && (pending.Some? <==> count > 0) && calls + Minus(before, 1) == asked + Minus(count, 1)
    {
      RestStep(blocks[j..], rest, count);
      assert blocks[j..][1..] == blocks[j + 1..];
      if count + 1 > MAX_MATCHING_COMMAND_BLOCKS {
        BrokenOutcome(TOO_MANY, pending, load.Value(), load.limit);
        BrokenRejects(load.Value(), TOO_MANY, load.limit);
        var _ := load.Emit(Decoded([], [TOO_MANY], true), true);
        ended := true;
        return;
      }
      OutcomeStep(blocks[j], RestItems(blocks[j + 1..], rest, count + 1), pending, load.Value(), load.limit);
      count := count + 1;
      var previous := pending;
      pending := Some(blocks[j]);
      if previous.Some? {
        calls := calls + 1;
        if calls > patience {
          ended := true;
          return;
        }
        TerminalRejects(load.Value(), Decode(previous.value, Left(load.Value(), load.limit)), load.limit);
        var next := load.Emit(Decode(previous.value, Minus(Minus(load.limit, load.bytes), load.errorBytes)), false);
        if next.None? {
          ended := true;
          return;
        }
      }
    }
    assert blocks[|blocks|..] == [];
    RestEnds(rest, count);
  }

  /** One request ends with exactly one reply, whether it is cancelled or not. */
  method LoadRules(packs: seq<Pack>, byteLimit: nat, patience: nat) returns (replies: seq<Reply>, ghost cancelled: bool)
    ensures |replies| == 1
    ensures ReplyBytes(replies[0]) <= Min(byteLimit, MAX_RULE_BYTES)
    ensures cancelled ==> replies[0] == Reply([], [], 0, false)
    ensures !cancelled ==> replies[0] == Outcome(Items(packs, 0), None, Staged([], []), Min(byteLimit, MAX_RULE_BYTES))
    ensures !cancelled && !replies[0].rejected ==> replies[0].programs == AllPrograms(Items(packs, 0))
  {
    var load := new Load(byteLimit);
    var calls := LoadIncremental(load, packs, patience);
    cancelled := calls > patience;
    load.Finish();
    replies := load.replies;
    OutcomeIsBounded(Items(packs, 0), None, Staged([], []), load.limit);
    AcceptedCarriesAll(Items(packs, 0), None, Staged([], []), load.limit);
    assert [] + AllPrograms(Items(packs, 0)) == AllPrograms(Items(packs, 0));
  }
}
