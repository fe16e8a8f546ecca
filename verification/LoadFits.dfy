/**
 When a load of `RuleLoad` is accepted: exactly if every pack can be read, the
 blocks are not too many, and each block fits behind the ones before it.
 */
module LoadFits {
  import opened Wrappers
  import opened RuleLoad

  function Programs(blocks: seq<Block>): seq<Program> {
    if blocks == [] then [] else blocks[0].programs + Programs(blocks[1..])
  }

  /** The block at `n` can be decoded in what the programs before it leave, and its programs fit behind them. */
  predicate FitsBehind(blocks: seq<Block>, n: nat, programs: seq<Program>, limit: nat)
    requires n < |blocks|
  {
    var before := programs + Programs(blocks[..n]);
    && blocks[n].cost + ProgramBytes(before) <= limit
    && ProgramBytes(before + blocks[n].programs) <= limit
    && |before| + |blocks[n].programs| <= MAX_RULE_CACHE_ENTRIES
  }

  predicate AllFit(blocks: seq<Block>, programs: seq<Program>, limit: nat) {
    forall n :: 0 <= n < |blocks| ==> FitsBehind(blocks, n, programs, limit)
  }

  predicate Clean(blocks: seq<Block>) {
    forall i :: 0 <= i < |blocks| ==> blocks[i].errors == []
  }

  lemma FitsAfterFirst(blocks: seq<Block>, n: nat, programs: seq<Program>, limit: nat)
    requires n + 1 < |blocks|
    ensures FitsBehind(blocks, n + 1, programs, limit) <==> FitsBehind(blocks[1..], n, programs + blocks[0].programs, limit)
  {
    assert blocks[..n + 1][0] == blocks[0] && blocks[..n + 1][1..] == blocks[1..][..n];
    assert Programs(blocks[..n + 1]) == blocks[0].programs + Programs(blocks[1..][..n]);
    hide Programs, ProgramBytes;
    Associates(programs, blocks[0].programs, Programs(blocks[1..][..n]));
  }

  /** All fit exactly if the first does, and the others do behind it. */
  lemma AllFitStep(blocks: seq<Block>, programs: seq<Program>, limit: nat)
    requires blocks != []
    ensures AllFit(blocks, programs, limit) <==>
      FitsBehind(blocks, 0, programs, limit) && AllFit(blocks[1..], programs + blocks[0].programs, limit)
  {
    forall n: nat | n + 1 < |blocks|
      ensures FitsBehind(blocks, n + 1, programs, limit) <==> FitsBehind(blocks[1..], n, programs + blocks[0].programs, limit)
    {
      FitsAfterFirst(blocks, n, programs, limit);
    }
    hide FitsBehind;
    if FitsBehind(blocks, 0, programs, limit) && AllFit(blocks[1..], programs + blocks[0].programs, limit) {
      forall n | 0 <= n < |blocks| ensures FitsBehind(blocks, n, programs, limit) {
        assert n > 0 ==> FitsBehind(blocks[1..], n - 1, programs + blocks[0].programs, limit);
      }
    }
    if AllFit(blocks, programs, limit) {
      forall n: nat | n < |blocks[1..]| ensures FitsBehind(blocks[1..], n, programs + blocks[0].programs, limit) {
        assert FitsBehind(blocks, n + 1, programs, limit);
      }
    }
  }

  /** Without diagnostics, staging one block. */
  lemma FirstFits(b: Block, rest: seq<Block>, programs: seq<Program>, limit: nat)
    requires b.errors == [] && ProgramBytes(programs) <= limit
    ensures var s := Staged(programs, []); var d := Decode(b, Left(s, limit));
      && (Rejects(s, d, limit) <==> !FitsBehind([b] + rest, 0, programs, limit))
      && (!Rejects(s, d, limit) ==> Joined(s, d, limit) == Staged(programs + b.programs, []))
      && (!Rejects(s, d, limit) ==> ProgramBytes(programs + b.programs) <= limit)
      && (Terminal(s, d, limit).rejected <==> Rejects(s, d, limit)) && Rejection(s, d, limit).rejected
  {
    assert ([b] + rest)[..0] == [] && programs + [] == programs;
    ProgramBytesConcat(programs, b.programs);
    assert ErrorBytes([]) == 0;
    hide ProgramBytes, ErrorBytes;
  }

  function AsItems(blocks: seq<Block>): seq<Item> {
    if blocks == [] then [] else [BlockItem(blocks[0])] + AsItems(blocks[1..])
  }

  lemma NoneRejected(programs: seq<Program>, limit: nat)
    requires ProgramBytes(programs) <= limit && |programs| <= MAX_RULE_CACHE_ENTRIES
    ensures !Outcome([], None, Staged(programs, []), limit).rejected
  {
  }

  lemma OnlyPending(b: Block, s: Staged, limit: nat)
    ensures Outcome([], Some(b), s, limit) == Terminal(s, Decode(b, Left(s, limit)), limit)
  {
  }

  /** The outcome of error-free blocks, one of them perhaps looked ahead. */
  lemma {:induction false} AcceptedIffAllFit(blocks: seq<Block>, pending: Option<Block>, programs: seq<Program>, limit: nat)
    requires Clean(blocks) && (pending.Some? ==> pending.value.errors == [])
    requires ProgramBytes(programs) <= limit && |programs| <= MAX_RULE_CACHE_ENTRIES
    ensures var queue := (if pending.Some? then [pending.value] else []) + blocks;
      !Outcome(AsItems(blocks), pending, Staged(programs, []), limit).rejected <==> AllFit(queue, programs, limit)
    decreases |blocks|, 1
  {
    if blocks == [] {
      if pending.None? {
        NoneRejected(programs, limit);
      } else {
        FirstFits(pending.value, [], programs, limit);
        OnlyPending(pending.value, Staged(programs, []), limit);
        AllFitStep([pending.value], programs, limit);
        assert [pending.value] + [] == [pending.value] && [pending.value][1..] == [];
        hide Outcome, FitsBehind;
      }
    } else {
      assert Clean(blocks[1..]) && AsItems(blocks) == [BlockItem(blocks[0])] + AsItems(blocks[1..]);
      assert [blocks[0]] + blocks[1..] == blocks && [] + blocks == blocks;
      assert blocks[0].errors == [];
      hide Outcome, AllFit, FitsBehind, AsItems, Clean, Rejects, Joined, Decode, Terminal, Rejection;
      OutcomeStep(blocks[0], AsItems(blocks[1..]), pending, Staged(programs, []), limit);
      if pending.None? {
        AcceptedIffAllFit(blocks[1..], Some(blocks[0]), programs, limit);
      } else {
        PendingStep(blocks, pending.value, programs, limit);
      }
    }
  }

  lemma PendingStep(blocks: seq<Block>, p: Block, programs: seq<Program>, limit: nat)
    requires blocks != [] && Clean(blocks) && p.errors == []
    requires ProgramBytes(programs) <= limit && |programs| <= MAX_RULE_CACHE_ENTRIES
    ensures var s := Staged(programs, []); var d := Decode(p, Left(s, limit));
      var rejected := if Rejects(s, d, limit) then Terminal(s, d, limit).rejected
        else Outcome(AsItems(blocks[1..]), Some(blocks[0]), Joined(s, d, limit), limit).rejected;
      !rejected <==> AllFit([p] + blocks, programs, limit)
    decreases |blocks|, 0
  {
    hide *;
    var s := Staged(programs, []);
    var d := Decode(p, Left(s, limit));
    FirstFits(p, blocks, programs, limit);
    AllFitStep([p] + blocks, programs, limit);
    assert ([p] + blocks)[1..] == blocks && ([p] + blocks)[0] == p;
    if !Rejects(s, d, limit) {
      FewEnough(p, blocks, programs, limit);
      CleanRest(blocks);
      AcceptedIffAllFit(blocks[1..], Some(blocks[0]), programs + p.programs, limit);
      assert [blocks[0]] + blocks[1..] == blocks;
    }
  }

  lemma CleanRest(blocks: seq<Block>)
    requires blocks != [] && Clean(blocks)
    ensures Clean(blocks[1..]) && blocks[0].errors == []
  {
  }

  lemma FewEnough(p: Block, rest: seq<Block>, programs: seq<Program>, limit: nat)
    requires FitsBehind([p] + rest, 0, programs, limit)
    ensures |programs + p.programs| <= MAX_RULE_CACHE_ENTRIES
  {
    assert ([p] + rest)[..0] == [] && programs + [] == programs;
  }

  // ---------------------------------------------------------------------
  // Packs
  // ---------------------------------------------------------------------

  /** The blocks of all packs, in order. */
  function BlocksOf(packs: seq<Pack>): seq<Block> {
    if packs == [] then []
    else (if packs[0].Ok? then packs[0].value else []) + BlocksOf(packs[1..])
  }

  predicate Readable(packs: seq<Pack>) {
    forall i :: 0 <= i < |packs| ==> packs[i].Ok?
  }

  lemma {:induction false} BlockItemsAre(blocks: seq<Block>, count: nat)
    ensures count + |blocks| <= MAX_MATCHING_COMMAND_BLOCKS ==> BlockItems(blocks, count) == AsItems(blocks)
    ensures count <= MAX_MATCHING_COMMAND_BLOCKS < count + |blocks| ==> Broken(TOO_MANY) in BlockItems(blocks, count)
    decreases |blocks|
  {
    if blocks != [] && count < MAX_MATCHING_COMMAND_BLOCKS {
      BlockItemsAre(blocks[1..], count + 1);
    }
  }

  lemma AsItemsStep(blocks: seq<Block>)
    ensures AsItems(blocks) == if blocks == [] then [] else [BlockItem(blocks[0])] + AsItems(blocks[1..])
  {
  }

  lemma {:induction false} AsItemsConcat(a: seq<Block>, b: seq<Block>)
    ensures AsItems(a + b) == AsItems(a) + AsItems(b)
    decreases |a|
  {
    hide *;
    AsItemsStep(a);
    AsItemsStep(a + b);
    if a == [] {
      assert a + b == b && [] + AsItems(b) == AsItems(b);
    } else {
      AsItemsConcat(a[1..], b);
      assert (a + b)[1..] == a[1..] + b && (a + b)[0] == a[0];
      ItemsAssociate([BlockItem(a[0])], AsItems(a[1..]), AsItems(b));
    }
  }

  predicate HasBroken(items: seq<Item>) {
    exists i :: 0 <= i < |items| && items[i].Broken?
  }

  /** What is read: all blocks, or something broken. */
  lemma {:induction false} ItemsAre(packs: seq<Pack>, count: nat)
    requires count <= MAX_MATCHING_COMMAND_BLOCKS
    ensures if Readable(packs) && count + |BlocksOf(packs)| <= MAX_MATCHING_COMMAND_BLOCKS
      then Items(packs, count) == AsItems(BlocksOf(packs)) else HasBroken(Items(packs, count))
    decreases |packs|
  {
    if packs != [] {
      match packs[0] {
        case Err(e) => assert Items(packs, count)[0].Broken?;
        case Ok(blocks) =>
          hide *;
          FirstPack(packs, count);
          BlockItemsAre(blocks, count);
          if count + |blocks| > MAX_MATCHING_COMMAND_BLOCKS {
            MemberIsBroken(BlockItems(blocks, count), TOO_MANY);
          } else {
            ItemsAre(packs[1..], count + |blocks|);
            AsItemsConcat(blocks, BlocksOf(packs[1..]));
            BrokenStays(BlockItems(blocks, count), Items(packs[1..], count + |blocks|));
          }
      }
    }
  }

  lemma FirstPack(packs: seq<Pack>, count: nat)
    requires packs != [] && packs[0].Ok?
    ensures BlocksOf(packs) == packs[0].value + BlocksOf(packs[1..])
    ensures Readable(packs) <==> Readable(packs[1..])
    ensures Items(packs, count) ==
      if count + |packs[0].value| > MAX_MATCHING_COMMAND_BLOCKS then BlockItems(packs[0].value, count)
      else BlockItems(packs[0].value, count) + Items(packs[1..], count + |packs[0].value|)
  {
    assert packs == [packs[0]] + packs[1..];
    hide BlockItems;
  }

  lemma MemberIsBroken(items: seq<Item>, e: string)
    requires Broken(e) in items
    ensures HasBroken(items)
  {
  }

  lemma BrokenStays(a: seq<Item>, b: seq<Item>)
    ensures HasBroken(b) ==> HasBroken(a + b)
  {
    if i :| 0 <= i < |b| && b[i].Broken? {
      assert (a + b)[|a| + i].Broken?;
    }
  }

  /** A load of blocks without diagnostics is accepted exactly if all can be read, are few enough, and fit in turn. */
  lemma LoadIsAccepted(packs: seq<Pack>, limit: nat)
    requires Clean(BlocksOf(packs))
    ensures !Outcome(Items(packs, 0), None, Staged([], []), limit).rejected <==>
      && Readable(packs) && |BlocksOf(packs)| <= MAX_MATCHING_COMMAND_BLOCKS
      && AllFit(BlocksOf(packs), [], limit)
  {
    ItemsAre(packs, 0);
    AcceptedCarriesAll(Items(packs, 0), None, Staged([], []), limit);
    assert ProgramBytes([]) == 0;
    hide Outcome, Items, AllFit, AsItems, BlocksOf;
    AcceptedIffAllFit(BlocksOf(packs), None, [], limit);
    assert [] + BlocksOf(packs) == BlocksOf(packs);
  }
}
