/**
 The index of a rule pack and the layout of its sections. Parsing undoes
 encoding and encoding undoes parsing, the binary search finds what a linear
 search finds, and what the builder lays out the opener takes apart again.
 */
module PackIndex {
  import opened Wrappers
  import opened TextOrder

  const HEADER_SIZE: nat := 256
  const MAX_PACK_BYTES: nat := 512 * 1024 * 1024
  const MAX_INDEX_BYTES: nat := 32 * 1024 * 1024
  const MAX_MANIFEST_BYTES: nat := 8 * 1024 * 1024
  const MAX_COMMAND_NAMES: nat := 262_144
  const MAX_BLOCKS: nat := 65_536
  const MAX_COMMAND_NAME_BYTES: nat := 4096
  const MAX_COMPRESSED_BLOCK_BYTES: nat := 32 * 1024 * 1024
  const MAX_COMMAND_BLOCK_BYTES: nat := 16 * 1024 * 1024

  const TWO_32: nat := 0x1_0000_0000
  const TWO_64: nat := 0x1_0000_0000_0000_0000

  datatype PackError = Truncated | Invalid(what: string) | Limit(what: string) | Duplicate(registration: Text)

  datatype NameEntry = NameEntry(name: Text, blockId: nat)

  datatype BlockEntry = BlockEntry(offset: nat, compressed: nat, uncompressed: nat, hash: Text)

  // ---------------------------------------------------------------------
  // Little-endian numbers
  // ---------------------------------------------------------------------

  function Pow256(width: nat): nat {
    if width == 0 then 1 else 256 * Pow256(width - 1)
  }

  function Le(n: nat, width: nat): (b: Text)
    ensures |b| == width
  {
    if width == 0 then [] else [(n % 256) as byte] + Le(n / 256, width - 1)
  }

  function FromLe(b: Text): nat {
    if b == [] then 0 else b[0] as int + 256 * FromLe(b[1..])
  }

  lemma {:induction false} FromLeLe(n: nat, width: nat)
    requires n < Pow256(width)
    ensures FromLe(Le(n, width)) == n
  {
    if width > 0 {
      FromLeLe(n / 256, width - 1);
    }
  }

  lemma {:induction false} LeFromLe(b: Text)
    ensures FromLe(b) < Pow256(|b|) && Le(FromLe(b), |b|) == b
  {
    if b != [] {
      LeFromLe(b[1..]);
      LeStep(b[0], FromLe(b[1..]), |b| - 1);
      assert b == [b[0]] + b[1..];
    }
  }

  lemma LeStep(first: byte, rest: nat, width: nat)
    ensures Le(first as int + 256 * rest, width + 1) == [first] + Le(rest, width)
  {
    hide Le;
    LeUnfolds(first as int + 256 * rest, width);
  }

  lemma LeUnfolds(n: nat, width: nat)
    ensures Le(n, width + 1) == [(n % 256) as byte] + Le(n / 256, width)
  {
  }

  function Shifted(n: nat, digits: nat): nat {
    if digits == 0 then n else Shifted(n, digits - 1) / 256
  }

  lemma {:induction false} ShiftedFirst(n: nat, digits: nat)
    ensures Shifted(n / 256, digits) == Shifted(n, digits + 1)
  {
    if digits > 0 {
      ShiftedFirst(n, digits - 1);
    }
  }

  /** The lowest digit comes first. */
  lemma {:induction false} LowestFirst(n: nat, width: nat, i: nat)
    requires i < width
    ensures Le(n, width)[i] as int == Shifted(n, i) % 256
  {
    if i > 0 {
      LowestFirst(n / 256, width - 1, i - 1);
      ShiftedFirst(n, i - 1);
    }
  }

  lemma Widths()
    ensures Pow256(4) == TWO_32 && Pow256(8) == TWO_64
  {
    assert Pow256(2) == 65536;
    assert Pow256(3) == 256 * Pow256(2);
    assert Pow256(5) == 256 * Pow256(4);
    assert Pow256(6) == 256 * Pow256(5);
    assert Pow256(7) == 256 * Pow256(6);
  }

  // ---------------------------------------------------------------------
  // UTF-8
  // ---------------------------------------------------------------------

  predicate Continuation(b: byte) { 0x80 <= b < 0xC0 }

  /** The well-formed byte sequences of the Unicode Standard, table 3-7. */
  predicate ValidUtf8(s: Text) {
    if s == [] then true
    else if s[0] < 0x80 then ValidUtf8(s[1..])
    else if |s| >= 2 && 0xC2 <= s[0] < 0xE0 then Continuation(s[1]) && ValidUtf8(s[2..])
    else if |s| >= 3 && 0xE0 <= s[0] < 0xF0 then
      && Continuation(s[1]) && Continuation(s[2])
      && (s[0] == 0xE0 ==> s[1] >= 0xA0) && (s[0] == 0xED ==> s[1] < 0xA0)
      && ValidUtf8(s[3..])
    else if |s| >= 4 && 0xF0 <= s[0] < 0xF5 then
      && Continuation(s[1]) && Continuation(s[2]) && Continuation(s[3])
      && (s[0] == 0xF0 ==> s[1] >= 0x90) && (s[0] == 0xF4 ==> s[1] < 0x90)
      && ValidUtf8(s[4..])
    else false
  }

  // ---------------------------------------------------------------------
  // Encoding
  // ---------------------------------------------------------------------

  function EncodedName(e: NameEntry): Text {
    Le(|e.name|, 4) + e.name + Le(e.blockId, 4)
  }

  function EncodedNames(names: seq<NameEntry>): Text {
    if names == [] then [] else EncodedName(names[0]) + EncodedNames(names[1..])
  }

  function EncodedBlock(e: BlockEntry): Text {
    Le(e.offset, 8) + Le(e.compressed, 4) + Le(e.uncompressed, 4) + e.hash
  }

  function EncodedBlocks(blocks: seq<BlockEntry>): Text {
    if blocks == [] then [] else EncodedBlock(blocks[0]) + EncodedBlocks(blocks[1..])
  }

  /** The counts are cut to 32 bits. */
  function Encoded(names: seq<NameEntry>, blocks: seq<BlockEntry>): Text {
    Le(|names| % TWO_32, 4) + EncodedNames(names) + (Le(|blocks| % TWO_32, 4) + EncodedBlocks(blocks))
  }

  predicate Indexable(name: Text) {
    name != [] && |name| <= MAX_COMMAND_NAME_BYTES && 0 !in name
  }

  lemma {:induction false} EncodedNamesAppend(names: seq<NameEntry>, e: NameEntry)
    ensures EncodedNames(names + [e]) == EncodedNames(names) + EncodedName(e)
  {
    if names == [] {
      assert [e][1..] == [];
      assert EncodedNames([e]) == EncodedName(e) + [];
    } else {
      EncodedNamesAppend(names[1..], e);
      assert (names + [e])[1..] == names[1..] + [e];
      Join(EncodedName(names[0]), EncodedNames(names[1..]), EncodedName(e));
    }
  }

  lemma {:induction false} EncodedBlocksAppend(blocks: seq<BlockEntry>, e: BlockEntry)
    ensures EncodedBlocks(blocks + [e]) == EncodedBlocks(blocks) + EncodedBlock(e)
  {
    if blocks == [] {
      assert [e][1..] == [];
      assert EncodedBlocks([e]) == EncodedBlock(e) + [];
    } else {
      EncodedBlocksAppend(blocks[1..], e);
      assert (blocks + [e])[1..] == blocks[1..] + [e];
      Join(EncodedBlock(blocks[0]), EncodedBlocks(blocks[1..]), EncodedBlock(e));
    }
  }

  lemma Join(a: Text, b: Text, c: Text)
    ensures a + b + c == a + (b + c)
  {
  }

  predicate AllIndexable(names: seq<NameEntry>) {
    forall i :: 0 <= i < |names| ==> Indexable(names[i].name)
  }

  function IndexBytes(names: seq<NameEntry>, blocks: seq<BlockEntry>): Result<Text, PackError> {
    if AllIndexable(names) then Ok(Encoded(names, blocks)) else Err(Invalid("invalid indexed command name"))
  }

  /** `names` in the order of the sorted map. */
  method EncodeIndex(names: seq<NameEntry>, blocks: seq<BlockEntry>) returns (r: Result<Text, PackError>)
    ensures r == IndexBytes(names, blocks)
  {
    var count := Le(|names| % TWO_32, 4);
    var output := count;
    for i := 0 to |names|
      invariant output == count + EncodedNames(names[..i])
      invariant forall j :: 0 <= j < i ==> Indexable(names[j].name)
    {
      if !Indexable(names[i].name) {
        return Err(Invalid("invalid indexed command name"));
      }
      EncodedNamesAppend(names[..i], names[i]);
      assert names[..i + 1] == names[..i] + [names[i]];
      Join(count, EncodedNames(names[..i]), EncodedName(names[i]));
      output := output + EncodedName(names[i]);
    }
    assert names[..|names|] == names;
    var before := output;
    output := output + Le(|blocks| % TWO_32, 4);
    for i := 0 to |blocks|
      invariant output == before + (Le(|blocks| % TWO_32, 4) + EncodedBlocks(blocks[..i]))
    {
      EncodedBlocksAppend(blocks[..i], blocks[i]);
      assert blocks[..i + 1] == blocks[..i] + [blocks[i]];
      Join(Le(|blocks| % TWO_32, 4), EncodedBlocks(blocks[..i]), EncodedBlock(blocks[i]));
      Join(before, Le(|blocks| % TWO_32, 4) + EncodedBlocks(blocks[..i]), EncodedBlock(blocks[i]));
      output := output + EncodedBlock(blocks[i]);
    }
    assert blocks[..|blocks|] == blocks;
    r := Ok(output);
  }

  // ---------------------------------------------------------------------
  // What parsing means
  // ---------------------------------------------------------------------

  /** A value and the bytes behind it. */
  datatype Read<T> = Read(value: T, rest: Text)

  function TakeBytes(b: Text, n: nat): Result<Read<Text>, PackError> {
    if n > |b| then Err(Truncated) else Ok(Read(b[..n], b[n..]))
  }

  function ReadNumber(b: Text, width: nat): Result<Read<nat>, PackError> {
    match TakeBytes(b, width)
    case Err(e) => Err(e)
    case Ok(r) => Ok(Read(FromLe(r.value), r.rest))
  }

  function ReadCount(b: Text, maximum: nat): Result<Read<nat>, PackError> {
    match ReadNumber(b, 4)
    case Err(e) => Err(e)
    case Ok(r) => if r.value > maximum then Err(Limit("index count")) else Ok(r)
  }

  function ReadString(b: Text, maximum: nat): Result<Read<Text>, PackError> {
    match ReadCount(b, maximum)
    case Err(e) => Err(e)
    case Ok(length) =>
      match TakeBytes(length.rest, length.value)
      case Err(e) => Err(e)
      case Ok(r) => if ValidUtf8(r.value) then Ok(r) else Err(Invalid("invalid index UTF-8"))
  }

  /** An empty name, or one that does not follow the previous one, breaks the order. */
  predicate Follows(names: seq<NameEntry>, name: Text) {
    name != [] && (names != [] ==> Less(names[|names| - 1].name, name))
  }

  function ReadName(b: Text, names: seq<NameEntry>): Result<Read<NameEntry>, PackError> {
    match ReadString(b, MAX_COMMAND_NAME_BYTES)
    case Err(e) => Err(e)
    case Ok(name) =>
      if !Follows(names, name.value) then Err(Invalid("command index is not strictly sorted"))
      else
        match ReadNumber(name.rest, 4)
        case Err(e) => Err(e)
        case Ok(id) => Ok(Read(NameEntry(name.value, id.value), id.rest))
  }

  function ReadNames(b: Text, n: nat, names: seq<NameEntry>): Result<Read<seq<NameEntry>>, PackError>
    decreases n
  {
    if n == 0 then Ok(Read(names, b))
    else
      match ReadName(b, names)
      case Err(e) => Err(e)
      case Ok(r) => ReadNames(r.rest, n - 1, names + [r.value])
  }

  function CheckBlock(e: BlockEntry, chunksLength: nat): Option<PackError> {
    if e.compressed > MAX_COMPRESSED_BLOCK_BYTES || e.uncompressed > MAX_COMMAND_BLOCK_BYTES then
      Some(Limit("command block size"))
    else if e.offset + e.compressed >= TWO_64 then Some(Invalid("command block offset overflow"))
    else if e.offset + e.compressed > chunksLength then Some(Truncated)
    else None
  }

  function ReadBlock(b: Text): Result<Read<BlockEntry>, PackError> {
    match ReadNumber(b, 8)
    case Err(e) => Err(e)
    case Ok(offset) =>
      match ReadNumber(offset.rest, 4)
      case Err(e) => Err(e)
      case Ok(compressed) =>
        match ReadNumber(compressed.rest, 4)
        case Err(e) => Err(e)
        case Ok(uncompressed) =>
          match TakeBytes(uncompressed.rest, 32)
          case Err(e) => Err(e)
          case Ok(hash) =>
            Ok(Read(BlockEntry(offset.value, compressed.value, uncompressed.value, hash.value), hash.rest))
  }

  function ReadBlocks(b: Text, n: nat, chunksLength: nat, blocks: seq<BlockEntry>): Result<Read<seq<BlockEntry>>, PackError>
    decreases n
  {
    if n == 0 then Ok(Read(blocks, b))
    else
      match ReadBlock(b)
      case Err(e) => Err(e)
      case Ok(r) =>
        match CheckBlock(r.value, chunksLength)
        case Some(e) => Err(e)
        case None => ReadBlocks(r.rest, n - 1, chunksLength, blocks + [r.value])
  }

  predicate AllNamesResolve(names: seq<NameEntry>, blocks: nat) {
    forall i :: 0 <= i < |names| ==> names[i].blockId < blocks
  }

  type Index = (seq<NameEntry>, seq<BlockEntry>)

  function Parsed(index: Text, expectedNames: nat, expectedBlocks: nat, chunksLength: nat): Result<Index, PackError> {
    match ReadCount(index, MAX_COMMAND_NAMES)
    case Err(e) => Err(e)
    case Ok(n) =>
      if n.value != expectedNames then Err(Invalid("command count mismatch"))
      else
        match ReadNames(n.rest, n.value, [])
        case Err(e) => Err(e)
        case Ok(names) => ParsedBlocks(names.rest, names.value, expectedBlocks, chunksLength)
  }

  function ParsedBlocks(b: Text, names: seq<NameEntry>, expectedBlocks: nat, chunksLength: nat): Result<Index, PackError> {
    match ReadCount(b, MAX_BLOCKS)
    case Err(e) => Err(e)
    case Ok(m) =>
      if m.value != expectedBlocks then Err(Invalid("block count mismatch"))
      else
        match ReadBlocks(m.rest, m.value, chunksLength, [])
        case Err(e) => Err(e)
        case Ok(blocks) =>
          if !AllNamesResolve(names, |blocks.value|) then Err(Invalid("command references missing block"))
          else if blocks.rest != [] then Err(Invalid("trailing pack index bytes"))
          else Ok((names, blocks.value))
  }

  // ---------------------------------------------------------------------
  // The decoder
  // ---------------------------------------------------------------------

  class IndexDecoder {
    const bytes: Text
    var position: nat

    ghost predicate Valid()
      reads this
    {
      position <= |bytes|
    }

    function Remaining(): Text
      requires Valid()
      reads this
    {
      bytes[position..]
    }

    constructor (bytes: Text)
      ensures Valid() && Remaining() == bytes && this.bytes == bytes
    {
      this.bytes, position := bytes, 0;
    }

    /** A failed read does not move the position. */
    method Take(length: nat) returns (r: Result<Text, PackError>)
      requires Valid()
      modifies this
      ensures Valid()
      ensures match TakeBytes(old(Remaining()), length)
        case Err(e) => r == Err(e) && Remaining() == old(Remaining())
        case Ok(x) => r == Ok(x.value) && Remaining() == x.rest
    {
      var end := position + length;
      if end > |bytes| {
        return Err(Truncated);
      }
      assert bytes[position..][..length] == bytes[position..end];
      assert bytes[position..][length..] == bytes[end..];
      r := Ok(bytes[position..end]);
      position := end;
    }

    method Number(width: nat) returns (r: Result<nat, PackError>)
      requires Valid()
      modifies this
      ensures Valid()
      ensures match ReadNumber(old(Remaining()), width)
        case Err(e) => r == Err(e)
        case Ok(x) => r == Ok(x.value) && Remaining() == x.rest
    {
      var b := Take(width);
      match b {
        case Err(e) => r := Err(e);
        case Ok(value) => r := Ok(FromLe(value));
      }
    }

    method Count(maximum: nat) returns (r: Result<nat, PackError>)
      requires Valid()
      modifies this
      ensures Valid()
      ensures match ReadCount(old(Remaining()), maximum)
        case Err(e) => r == Err(e)
        case Ok(x) => r == Ok(x.value) && Remaining() == x.rest
    {
      r := Number(4);
      if r.Ok? && r.value > maximum {
        r := Err(Limit("index count"));
      }
    }

    method String(maximum: nat) returns (r: Result<Text, PackError>)
      requires Valid()
      modifies this
      ensures Valid()
      ensures match ReadString(old(Remaining()), maximum)
        case Err(e) => r == Err(e)
        case Ok(x) => r == Ok(x.value) && Remaining() == x.rest
    {
      var length := Count(maximum);
      match length {
        case Err(e) => r := Err(e);
        case Ok(n) =>
          r := Take(n);
          if r.Ok? && !ValidUtf8(r.value) {
            r := Err(Invalid("invalid index UTF-8"));
          }
      }
    }

    method Name(names: seq<NameEntry>) returns (r: Result<NameEntry, PackError>)
      requires Valid()
      modifies this
      ensures Valid()
      ensures match ReadName(old(Remaining()), names)
        case Err(e) => r == Err(e)
        case Ok(x) => r == Ok(x.value) && Remaining() == x.rest
    {
      var name := String(MAX_COMMAND_NAME_BYTES);
      if name.Err? {
        return Err(name.error);
      }
      if !Follows(names, name.value) {
        return Err(Invalid("command index is not strictly sorted"));
      }
      var id := Number(4);
      if id.Err? {
        return Err(id.error);
      }
      r := Ok(NameEntry(name.value, id.value));
    }

    method Block() returns (r: Result<BlockEntry, PackError>)
      requires Valid()
      modifies this
      ensures Valid()
      ensures match ReadBlock(old(Remaining()))
        case Err(e) => r == Err(e)
        case Ok(x) => r == Ok(x.value) && Remaining() == x.rest
    {
      hide FromLe;
      var offset := Number(8);
      if offset.Err? {
        return Err(offset.error);
      }
      var compressed := Number(4);
      if compressed.Err? {
        return Err(compressed.error);
      }
      var uncompressed := Number(4);
      if uncompressed.Err? {
        return Err(uncompressed.error);
      }
      var hash := Take(32);
      if hash.Err? {
        return Err(hash.error);
      }
      r := Ok(BlockEntry(offset.value, compressed.value, uncompressed.value, hash.value));
    }
  }

  method ParseIndex(index: Text, expectedNames: nat, expectedBlocks: nat, chunksLength: nat)
    returns (r: Result<Index, PackError>)
    ensures r == Parsed(index, expectedNames, expectedBlocks, chunksLength)
  {
    hide ReadCount, ReadNames, ParsedBlocks;
    var decoder := new IndexDecoder(index);
    var count := decoder.Count(MAX_COMMAND_NAMES);
    if count.Err? {
      return Err(count.error);
    }
    if count.value != expectedNames {
      return Err(Invalid("command count mismatch"));
    }
    var names := ParseNames(decoder, count.value);
    if names.Err? {
      return Err(names.error);
    }
    r := ParseBlocks(decoder, names.value, expectedBlocks, chunksLength);
  }

  method ParseNames(decoder: IndexDecoder, n: nat) returns (r: Result<seq<NameEntry>, PackError>)
    requires decoder.Valid()
    modifies decoder
    ensures decoder.Valid()
    ensures match ReadNames(old(decoder.Remaining()), n, [])
      case Err(e) => r == Err(e)
      case Ok(x) => r == Ok(x.value) && decoder.Remaining() == x.rest
  {
    hide ReadName;
    var names := [];
    ghost var all := ReadNames(decoder.Remaining(), n, []);
    for i := 0 to n
      invariant decoder.Valid()
      invariant ReadNames(decoder.Remaining(), n - i, names) == all
    {
      var name := decoder.Name(names);
      if name.Err? {
        return Err(name.error);
      }
      names := names + [name.value];
    }
    r := Ok(names);
  }

  method ParseBlocks(decoder: IndexDecoder, names: seq<NameEntry>, expectedBlocks: nat, chunksLength: nat)
    returns (r: Result<Index, PackError>)
    requires decoder.Valid()
    modifies decoder
    ensures r == ParsedBlocks(old(decoder.Remaining()), names, expectedBlocks, chunksLength)
  {
    hide ReadCount, ReadBlock, CheckBlock;
    var count := decoder.Count(MAX_BLOCKS);
    if count.Err? {
      return Err(count.error);
    }
    if count.value != expectedBlocks {
      return Err(Invalid("block count mismatch"));
    }
    var blocks := [];
    ghost var all := ReadBlocks(decoder.Remaining(), count.value, chunksLength, []);
    for i := 0 to count.value
      invariant decoder.Valid()
      invariant ReadBlocks(decoder.Remaining(), count.value - i, chunksLength, blocks) == all
    {
      var block := decoder.Block();
      if block.Err? {
        return Err(block.error);
      }
      var error := CheckBlock(block.value, chunksLength);
      if error.Some? {
        return Err(error.value);
      }
      blocks := blocks + [block.value];
    }
    if !AllNamesResolve(names, |blocks|) {
      return Err(Invalid("command references missing block"));
    }
    if decoder.Remaining() != [] {
      return Err(Invalid("trailing pack index bytes"));
    }
    r := Ok((names, blocks));
  }

  // ---------------------------------------------------------------------
  // Round trips
  // ---------------------------------------------------------------------

  predicate GoodName(e: NameEntry, blocks: nat) {
    e.name != [] && |e.name| <= MAX_COMMAND_NAME_BYTES && ValidUtf8(e.name) && e.blockId < blocks
  }

  predicate GoodBlock(e: BlockEntry, chunksLength: nat) {
    && |e.hash| == 32 && e.compressed <= MAX_COMPRESSED_BLOCK_BYTES && e.uncompressed <= MAX_COMMAND_BLOCK_BYTES
    && e.offset + e.compressed < TWO_64 && e.offset + e.compressed <= chunksLength
  }

  ghost predicate StrictlySorted(names: seq<NameEntry>) {
    forall i :: 0 < i < |names| ==> Less(names[i - 1].name, names[i].name)
  }

  /** What an index may hold. */
  ghost predicate WellFormed(names: seq<NameEntry>, blocks: seq<BlockEntry>, chunksLength: nat) {
    && |names| <= MAX_COMMAND_NAMES && |blocks| <= MAX_BLOCKS
    && StrictlySorted(names)
    && (forall i :: 0 <= i < |names| ==> GoodName(names[i], |blocks|))
    && (forall i :: 0 <= i < |blocks| ==> GoodBlock(blocks[i], chunksLength))
  }

  lemma TakeBack(a: Text, tail: Text)
    ensures TakeBytes(a + tail, |a|) == Ok(Read(a, tail))
  {
  }

  lemma TakeSplits(b: Text, n: nat)
    ensures TakeBytes(b, n).Ok? ==> var r := TakeBytes(b, n).value; b == r.value + r.rest && |r.value| == n
  {
  }

  lemma NumberBack(n: nat, width: nat, tail: Text)
    requires n < Pow256(width)
    ensures ReadNumber(Le(n, width) + tail, width) == Ok(Read(n, tail))
  {
    TakeBack(Le(n, width), tail);
    FromLeLe(n, width);
  }

  lemma NumberSplits(b: Text, width: nat)
    ensures ReadNumber(b, width).Ok? ==>
      var r := ReadNumber(b, width).value; b == Le(r.value, width) + r.rest && r.value < Pow256(width)
  {
    TakeSplits(b, width);
    if width <= |b| {
      LeFromLe(b[..width]);
    }
  }

  lemma CountBack(n: nat, maximum: nat, tail: Text)
    requires n <= maximum < TWO_32
    ensures ReadCount(Le(n, 4) + tail, maximum) == Ok(Read(n, tail))
  {
    Widths();
    NumberBack(n, 4, tail);
  }

  lemma CountSplits(b: Text, maximum: nat)
    ensures ReadCount(b, maximum).Ok? ==>
      var r := ReadCount(b, maximum).value; b == Le(r.value, 4) + r.rest && r.value <= maximum && r.value < TWO_32
  {
    Widths();
    NumberSplits(b, 4);
  }

  lemma NameBack(e: NameEntry, names: seq<NameEntry>, tail: Text)
    requires GoodName(e, TWO_32) && Follows(names, e.name)
    ensures ReadName(EncodedName(e) + tail, names) == Ok(Read(e, tail))
  {
    hide FromLe, Le, ValidUtf8, Less;
    var idBytes := Le(e.blockId, 4) + tail;
    assert EncodedName(e) + tail == Le(|e.name|, 4) + (e.name + idBytes);
    CountBack(|e.name|, MAX_COMMAND_NAME_BYTES, e.name + idBytes);
    TakeBack(e.name, idBytes);
    Widths();
    NumberBack(e.blockId, 4, tail);
  }

  lemma NameSplits(b: Text, names: seq<NameEntry>)
    ensures ReadName(b, names).Ok? ==>
      var r := ReadName(b, names).value;
      && b == EncodedName(r.value) + r.rest && Follows(names, r.value.name)
      && GoodName(r.value, TWO_32)
  {
    hide FromLe, Le, ValidUtf8, Less;
    if ReadName(b, names).Ok? {
      var r := ReadName(b, names).value;
      CountSplits(b, MAX_COMMAND_NAME_BYTES);
      var length := ReadCount(b, MAX_COMMAND_NAME_BYTES).value;
      TakeSplits(length.rest, length.value);
      var name := TakeBytes(length.rest, length.value).value;
      NumberSplits(name.rest, 4);
      Widths();
    }
  }

  lemma {:induction false} NamesBack(names: seq<NameEntry>, done: nat, tail: Text)
    requires done <= |names| && StrictlySorted(names)
    requires forall i :: 0 <= i < |names| ==> GoodName(names[i], TWO_32)
    ensures ReadNames(EncodedNames(names[done..]) + tail, |names| - done, names[..done]) == Ok(Read(names, tail))
    decreases |names| - done
  {
    hide GoodName, EncodedName, ReadName, Less;
    if done == |names| {
      assert names[..done] == names && names[done..] == [];
      assert [] + tail == tail;
    } else {
      var e, rest := names[done], EncodedNames(names[done + 1..]);
      assert names[done..][1..] == names[done + 1..];
      assert names[..done + 1] == names[..done] + [e];
      Join(EncodedName(e), rest, tail);
      NextFollows(names, done);
      NameBack(e, names[..done], rest + tail);
      NamesBack(names, done + 1, tail);
    }
  }

  lemma NextFollows(names: seq<NameEntry>, i: nat)
    requires i < |names| && StrictlySorted(names) && GoodName(names[i], TWO_32)
    ensures Follows(names[..i], names[i].name)
  {
  }

  lemma {:induction false} NamesSplit(b: Text, n: nat, names: seq<NameEntry>)
    requires StrictlySorted(names) && forall i :: 0 <= i < |names| ==> GoodName(names[i], TWO_32)
    ensures ReadNames(b, n, names).Ok? ==>
      var r := ReadNames(b, n, names).value;
      && |r.value| == |names| + n && names <= r.value
      && b == EncodedNames(r.value[|names|..]) + r.rest
      && StrictlySorted(r.value) && forall i :: 0 <= i < |r.value| ==> GoodName(r.value[i], TWO_32)
    decreases n
  {
    hide GoodName, EncodedName, ReadName, Less;
    if n == 0 {
      assert names[|names|..] == [];
      assert b == [] + b;
    } else if ReadNames(b, n, names).Ok? {
      NameSplits(b, names);
      var e := ReadName(b, names).value;
      NamesSplit(e.rest, n - 1, names + [e.value]);
      var r := ReadNames(b, n, names).value;
      assert r.value[|names|] == e.value;
      assert r.value[|names|..][1..] == r.value[|names| + 1..];
      Join(EncodedName(e.value), EncodedNames(r.value[|names| + 1..]), r.rest);
    }
  }

  lemma BlockBack(e: BlockEntry, chunksLength: nat, tail: Text)
    requires GoodBlock(e, chunksLength)
    ensures ReadBlock(EncodedBlock(e) + tail) == Ok(Read(e, tail))
  {
    hide FromLe, Le;
    Widths();
    var c := e.hash + tail;
    var b := Le(e.uncompressed, 4) + c;
    var a := Le(e.compressed, 4) + b;
    assert EncodedBlock(e) + tail == Le(e.offset, 8) + a;
    NumberBack(e.offset, 8, a);
    NumberBack(e.compressed, 4, b);
    NumberBack(e.uncompressed, 4, c);
    TakeBack(e.hash, tail);
  }

  lemma BlockSplits(b: Text)
    ensures ReadBlock(b).Ok? ==>
      var r := ReadBlock(b).value;
      && b == EncodedBlock(r.value) + r.rest
      && r.value.offset < TWO_64 && r.value.compressed < TWO_32 && r.value.uncompressed < TWO_32 && |r.value.hash| == 32
  {
    hide FromLe, Le;
    Widths();
    if ReadBlock(b).Ok? {
      NumberSplits(b, 8);
      var offset := ReadNumber(b, 8).value;
      NumberSplits(offset.rest, 4);
      var compressed := ReadNumber(offset.rest, 4).value;
      NumberSplits(compressed.rest, 4);
      var uncompressed := ReadNumber(compressed.rest, 4).value;
      TakeSplits(uncompressed.rest, 32);
      var r := ReadBlock(b).value;
      Join(Le(offset.value, 8) + Le(compressed.value, 4) + Le(uncompressed.value, 4), r.value.hash, r.rest);
    }
  }

  lemma {:induction false} BlocksBack(blocks: seq<BlockEntry>, done: nat, chunksLength: nat, tail: Text)
    requires done <= |blocks| && forall i :: 0 <= i < |blocks| ==> GoodBlock(blocks[i], chunksLength)
    ensures ReadBlocks(EncodedBlocks(blocks[done..]) + tail, |blocks| - done, chunksLength, blocks[..done])
      == Ok(Read(blocks, tail))
    decreases |blocks| - done
  {
    if done == |blocks| {
      assert blocks[..done] == blocks && blocks[done..] == [];
      assert [] + tail == tail;
    } else {
      var e, rest := blocks[done], EncodedBlocks(blocks[done + 1..]);
      assert blocks[done..][1..] == blocks[done + 1..];
      assert blocks[..done + 1] == blocks[..done] + [e];
      Join(EncodedBlock(e), rest, tail);
      BlockBack(e, chunksLength, rest + tail);
      assert CheckBlock(e, chunksLength).None?;
      hide EncodedBlock, ReadBlock, CheckBlock;
      BlocksBack(blocks, done + 1, chunksLength, tail);
    }
  }

  lemma {:induction false} BlocksSplit(b: Text, n: nat, chunksLength: nat, blocks: seq<BlockEntry>)
    requires forall i :: 0 <= i < |blocks| ==> GoodBlock(blocks[i], chunksLength)
    ensures ReadBlocks(b, n, chunksLength, blocks).Ok? ==>
      var r := ReadBlocks(b, n, chunksLength, blocks).value;
      && |r.value| == |blocks| + n && blocks <= r.value
      && b == EncodedBlocks(r.value[|blocks|..]) + r.rest
      && forall i :: 0 <= i < |r.value| ==> GoodBlock(r.value[i], chunksLength)
    decreases n
  {
    hide EncodedBlock, ReadBlock;
    if n == 0 {
      assert blocks[|blocks|..] == [];
      assert b == [] + b;
    } else if ReadBlocks(b, n, chunksLength, blocks).Ok? {
      BlockSplits(b);
      var e := ReadBlock(b).value;
      assert GoodBlock(e.value, chunksLength);
      hide GoodBlock, CheckBlock;
      BlocksSplit(e.rest, n - 1, chunksLength, blocks + [e.value]);
      var r := ReadBlocks(b, n, chunksLength, blocks).value;
      assert r.value[|blocks|] == e.value;
      assert r.value[|blocks|..][1..] == r.value[|blocks| + 1..];
      Join(EncodedBlock(e.value), EncodedBlocks(r.value[|blocks| + 1..]), r.rest);
    }
  }

  lemma BlocksParse(names: seq<NameEntry>, blocks: seq<BlockEntry>, chunksLength: nat)
    requires WellFormed(names, blocks, chunksLength)
    ensures ParsedBlocks(Le(|blocks|, 4) + EncodedBlocks(blocks), names, |blocks|, chunksLength) == Ok((names, blocks))
  {
    hide ReadCount, ReadBlocks, EncodedBlocks, Le, WellFormed, GoodBlock;
    WellFormedBlocks(names, blocks, chunksLength);
    CountBack(|blocks|, MAX_BLOCKS, EncodedBlocks(blocks));
    BlocksBack(blocks, 0, chunksLength, []);
    assert blocks[0..] == blocks && blocks[..0] == [] && EncodedBlocks(blocks) + [] == EncodedBlocks(blocks);
  }

  /** Parsing what was encoded gives the same names and blocks. */
  lemma ParsedEncoded(names: seq<NameEntry>, blocks: seq<BlockEntry>, chunksLength: nat)
    requires WellFormed(names, blocks, chunksLength)
    ensures Parsed(Encoded(names, blocks), |names|, |blocks|, chunksLength) == Ok((names, blocks))
  {
    hide ReadCount, ReadNames, ParsedBlocks, EncodedBlocks, EncodedNames, Le, WellFormed, GoodName;
    var second := Le(|blocks|, 4) + EncodedBlocks(blocks);
    WellFormedNames(names, blocks, chunksLength);
    EncodedParts(names, blocks);
    hide Encoded;
    BlocksParse(names, blocks, chunksLength);
    CountBack(|names|, MAX_COMMAND_NAMES, EncodedNames(names) + second);
    NamesBack(names, 0, second);
    assert names[0..] == names && names[..0] == [];
  }

  lemma Counts(n: nat)
    requires n < TWO_32
    ensures n % TWO_32 == n
  {
  }

  lemma EncodedParts(names: seq<NameEntry>, blocks: seq<BlockEntry>)
    requires |names| < TWO_32 && |blocks| < TWO_32
    ensures Encoded(names, blocks) == Le(|names|, 4) + (EncodedNames(names) + (Le(|blocks|, 4) + EncodedBlocks(blocks)))
  {
    Counts(|names|);
    Counts(|blocks|);
    var a, b, c := Le(|names|, 4), EncodedNames(names), Le(|blocks|, 4) + EncodedBlocks(blocks);
    assert Encoded(names, blocks) == a + b + c;
    hide *;
    Join(a, b, c);
  }

  lemma WellFormedBlocks(names: seq<NameEntry>, blocks: seq<BlockEntry>, chunksLength: nat)
    requires WellFormed(names, blocks, chunksLength)
    ensures |blocks| <= MAX_BLOCKS && AllNamesResolve(names, |blocks|)
    ensures forall i :: 0 <= i < |blocks| ==> GoodBlock(blocks[i], chunksLength)
  {
  }

  lemma WellFormedNames(names: seq<NameEntry>, blocks: seq<BlockEntry>, chunksLength: nat)
    requires WellFormed(names, blocks, chunksLength)
    ensures |names| <= MAX_COMMAND_NAMES && |blocks| <= MAX_BLOCKS && StrictlySorted(names)
    ensures forall i :: 0 <= i < |names| ==> GoodName(names[i], TWO_32)
  {
  }

  lemma BlocksReencode(b: Text, names: seq<NameEntry>, expected: nat, chunksLength: nat)
    ensures ParsedBlocks(b, names, expected, chunksLength).Ok? ==>
      var (_, blocks) := ParsedBlocks(b, names, expected, chunksLength).value;
      && ParsedBlocks(b, names, expected, chunksLength).value.0 == names
      && |blocks| == expected <= MAX_BLOCKS && b == Le(|blocks|, 4) + EncodedBlocks(blocks)
      && AllNamesResolve(names, |blocks|)
      && forall i :: 0 <= i < |blocks| ==> GoodBlock(blocks[i], chunksLength)
  {
    if ParsedBlocks(b, names, expected, chunksLength).Ok? {
      CountSplits(b, MAX_BLOCKS);
      var m := ReadCount(b, MAX_BLOCKS).value;
      BlocksSplit(m.rest, m.value, chunksLength, []);
      hide ReadCount, GoodBlock, Le;
      var blocks := ReadBlocks(m.rest, m.value, chunksLength, []).value;
      assert blocks.value[0..] == blocks.value;
      assert EncodedBlocks(blocks.value) + [] == EncodedBlocks(blocks.value);
    }
  }

  /** Every accepted index is well formed, and encoding what was parsed gives the same bytes. */
  lemma EncodedParsed(index: Text, n: nat, m: nat, chunksLength: nat)
    ensures Parsed(index, n, m, chunksLength).Ok? ==>
      var (names, blocks) := Parsed(index, n, m, chunksLength).value;
      && |names| == n && |blocks| == m
      && WellFormed(names, blocks, chunksLength) && Encoded(names, blocks) == index
  {
    hide ReadCount, Le, ReadNames, ParsedBlocks, EncodedBlocks, EncodedNames, GoodBlock, GoodName, WellFormed, Encoded;
    if Parsed(index, n, m, chunksLength).Ok? {
      CountSplits(index, MAX_COMMAND_NAMES);
      var count := ReadCount(index, MAX_COMMAND_NAMES).value;
      NamesSplit(count.rest, count.value, []);
      var names := ReadNames(count.rest, count.value, []).value;
      BlocksReencode(names.rest, names.value, m, chunksLength);
      assert names.value[0..] == names.value;
      var blocks := ParsedBlocks(names.rest, names.value, m, chunksLength).value.1;
      AcceptedIsWellFormed(names.value, blocks, chunksLength);
      EncodedParts(names.value, blocks);
    }
  }

  lemma AcceptedIsWellFormed(names: seq<NameEntry>, blocks: seq<BlockEntry>, chunksLength: nat)
    requires |names| <= MAX_COMMAND_NAMES && |blocks| <= MAX_BLOCKS && StrictlySorted(names)
    requires forall i :: 0 <= i < |names| ==> GoodName(names[i], TWO_32)
    requires AllNamesResolve(names, |blocks|)
    requires forall i :: 0 <= i < |blocks| ==> GoodBlock(blocks[i], chunksLength)
    ensures WellFormed(names, blocks, chunksLength)
  {
    hide GoodBlock, ValidUtf8;
  }

  /** Both round trips in one: an index is accepted with given contents exactly when it encodes them and they may stand in one. */
  lemma IndexIsCanonical(index: Text, names: seq<NameEntry>, blocks: seq<BlockEntry>, chunksLength: nat)
    ensures Parsed(index, |names|, |blocks|, chunksLength) == Ok((names, blocks)) <==>
      WellFormed(names, blocks, chunksLength) && index == Encoded(names, blocks)
  {
    hide WellFormed, Parsed, Encoded;
    EncodedParsed(index, |names|, |blocks|, chunksLength);
    if WellFormed(names, blocks, chunksLength) {
      ParsedEncoded(names, blocks, chunksLength);
    }
  }

  /** An accepted index can be written again, to the same bytes, exactly when no name holds a NUL. */
  lemma ReencodingNeedsNoNul(index: Text, n: nat, m: nat, chunksLength: nat)
    requires Parsed(index, n, m, chunksLength).Ok?
    ensures var (names, blocks) := Parsed(index, n, m, chunksLength).value;
      IndexBytes(names, blocks) == Ok(index) <==> forall i :: 0 <= i < |names| ==> 0 !in names[i].name
  {
    EncodedParsed(index, n, m, chunksLength);
    var (names, blocks) := Parsed(index, n, m, chunksLength).value;
    hide Parsed, Encoded, StrictlySorted, GoodBlock, ValidUtf8;
    assert forall i :: 0 <= i < |names| ==> GoodName(names[i], |blocks|);
  }

  /** Such an index is accepted: one name, the byte NUL, for one empty block. */
  lemma NulNameIsAccepted()
    ensures var names, blocks := [NameEntry([0], 0)], [BlockEntry(0, 0, 0, seq(32, _ => 0))];
      && Parsed(Encoded(names, blocks), 1, 1, 0) == Ok((names, blocks))
      && IndexBytes(names, blocks) == Err(Invalid("invalid indexed command name"))
  {
    var names: seq<NameEntry>, blocks: seq<BlockEntry> := [NameEntry([0], 0)], [BlockEntry(0, 0, 0, seq(32, _ => 0))];
    assert ValidUtf8([0]) by { assert [0][1..] == []; }
    assert !Indexable(names[0].name);
    assert WellFormed(names, blocks, 0);
    hide WellFormed, Parsed, Encoded;
    ParsedEncoded(names, blocks, 0);
  }

  // ---------------------------------------------------------------------
  // Finding a block
  // ---------------------------------------------------------------------

  function Lookup(names: seq<NameEntry>, command: Text): Option<nat> {
    if names == [] then None
    else if names[0].name == command then Some(names[0].blockId)
    else Lookup(names[1..], command)
  }

  lemma {:induction false} LookupAt(names: seq<NameEntry>, command: Text, i: nat)
    requires i < |names| && names[i].name == command
    requires forall j :: 0 <= j < i ==> names[j].name != command
    ensures Lookup(names, command) == Some(names[i].blockId)
  {
    if i > 0 {
      LookupAt(names[1..], command, i - 1);
    }
  }

  lemma {:induction false} LookupNone(names: seq<NameEntry>, command: Text)
    requires forall j :: 0 <= j < |names| ==> names[j].name != command
    ensures Lookup(names, command) == None
  {
    if names != [] {
      LookupNone(names[1..], command);
    }
  }

  lemma {:induction false} SortedApart(names: seq<NameEntry>, i: nat, j: nat)
    requires StrictlySorted(names) && i < j < |names|
    ensures Less(names[i].name, names[j].name)
    decreases j - i
  {
    hide Less;
    if i + 1 < j {
      SortedApart(names, i, j - 1);
      LessIsTransitive(names[i].name, names[j - 1].name, names[j].name);
    }
  }

  /** On a sorted index the binary search finds what a linear search finds. */
  method FindBlock(names: seq<NameEntry>, command: Text) returns (r: Option<nat>)
    requires StrictlySorted(names)
    ensures r == Lookup(names, command)
  {
    hide Less;
    var low, high := 0, |names|;
    while low < high
      invariant 0 <= low <= high <= |names|
      invariant forall i :: 0 <= i < low ==> names[i].name != command
      invariant forall i :: high <= i < |names| ==> names[i].name != command
    {
      var middle := (low + high) / 2;
      if names[middle].name == command {
        forall j | 0 <= j < middle ensures names[j].name != command {
          SortedApart(names, j, middle);
          LessIsAsymmetric(names[j].name, names[middle].name);
        }
        LookupAt(names, command, middle);
        return Some(names[middle].blockId);
      }
      if Less(names[middle].name, command) {
        forall j | 0 <= j <= middle ensures names[j].name != command {
          if j < middle {
            SortedApart(names, j, middle);
            LessIsTransitive(names[j].name, names[middle].name, command);
            LessIsAsymmetric(names[j].name, command);
          }
        }
        low := middle + 1;
      } else {
        LessIsTotal(names[middle].name, command);
        forall j | middle <= j < |names| ensures names[j].name != command {
          if middle < j {
            SortedApart(names, middle, j);
            LessIsTransitive(command, names[middle].name, names[j].name);
            LessIsAsymmetric(command, names[j].name);
          }
        }
        high := middle;
      }
    }
    LookupNone(names, command);
    r := None;
  }

  // ---------------------------------------------------------------------
  // Names and command blocks of a pack under construction
  // ---------------------------------------------------------------------

  /** A compressed block with the size and hash that its entry records. */
  datatype Compressed = Compressed(bytes: Text, uncompressed: nat, hash: Text)

  datatype Command = Command(registrations: seq<Text>, block: Compressed)

  /** What strings, the block encoder and the hash guarantee. */
  ghost predicate Encodable(c: Command) {
    && (forall i :: 0 <= i < |c.registrations| ==> ValidUtf8(c.registrations[i]))
    && c.block.uncompressed <= MAX_COMMAND_BLOCK_BYTES && |c.block.hash| == 32
  }

  /** A sorted map is the sequence of its entries in order. */
  function Inserted(names: seq<NameEntry>, e: NameEntry): seq<NameEntry> {
    if names == [] || Less(e.name, names[0].name) then [e] + names else [names[0]] + Inserted(names[1..], e)
  }

  lemma {:induction false} LookupFinds(names: seq<NameEntry>, command: Text)
    ensures match Lookup(names, command)
      case None => forall e :: e in names ==> e.name != command
      case Some(k) => NameEntry(command, k) in names
  {
    if names != [] && names[0].name != command {
      LookupFinds(names[1..], command);
    }
  }

  lemma MemberIsFound(names: seq<NameEntry>, e: NameEntry)
    requires StrictlySorted(names) && e in names
    ensures Lookup(names, e.name) == Some(e.blockId)
  {
    var i :| 0 <= i < |names| && names[i] == e;
    forall j | 0 <= j < i ensures names[j].name != e.name {
      SortedApart(names, j, i);
      LessIsAsymmetric(names[j].name, e.name);
    }
    LookupAt(names, e.name, i);
  }

  lemma {:induction false} InsertedKeeps(names: seq<NameEntry>, e: NameEntry)
    requires StrictlySorted(names) && Lookup(names, e.name) == None
    ensures StrictlySorted(Inserted(names, e))
    ensures forall f :: f in Inserted(names, e) <==> f in names || f == e
    ensures |Inserted(names, e)| == |names| + 1
    ensures |EncodedNames(Inserted(names, e))| == |EncodedNames(names)| + |e.name| + 8
    ensures Inserted(names, e)[0] == (if names == [] || Less(e.name, names[0].name) then e else names[0])
  {
    hide Less, Le;
    if names == [] || Less(e.name, names[0].name) {
      assert ([e] + names)[1..] == names;
    } else {
      InsertedKeeps(names[1..], e);
      assert ([names[0]] + Inserted(names[1..], e))[1..] == Inserted(names[1..], e);
      LessIsTotal(e.name, names[0].name);
      assert names == [names[0]] + names[1..];
      assert forall f :: f in Inserted(names, e) <==> f == names[0] || f in Inserted(names[1..], e);
    }
  }

  /** What the names of a block take in the index. */
  function NameBytes(registrations: seq<Text>): nat {
    if registrations == [] then 0
    else NameBytes(registrations[..|registrations| - 1]) + |registrations[|registrations| - 1]| + 8
  }

  /** Every registration of a block is new, and they differ. */
  predicate AllNew(names: seq<NameEntry>, registrations: seq<Text>) {
    && (forall i, j :: 0 <= i < j < |registrations| ==> registrations[i] != registrations[j])
    && (forall i, e :: 0 <= i < |registrations| && e in names ==> registrations[i] != e.name)
  }

  method RegisterNames(names: seq<NameEntry>, blockId: nat, registrations: seq<Text>)
    returns (r: Result<seq<NameEntry>, PackError>)
    requires StrictlySorted(names)
    ensures r.Ok? <==> AllNew(names, registrations)
    ensures r.Err? ==> r.error.Duplicate? && r.error.registration in registrations
    ensures r.Ok? ==> StrictlySorted(r.value)
    ensures r.Ok? ==> forall e :: e in r.value <==> e in names || (e.blockId == blockId && e.name in registrations)
    ensures r.Ok? ==> |r.value| == |names| + |registrations|
    ensures r.Ok? ==> |EncodedNames(r.value)| == |EncodedNames(names)| + NameBytes(registrations)
  {
    hide Inserted, EncodedNames;
    var all := names;
    for i := 0 to |registrations|
      invariant StrictlySorted(all) && AllNew(names, registrations[..i])
      invariant forall e :: e in all <==> e in names || (e.blockId == blockId && e.name in registrations[..i])
      invariant |all| == |names| + i && |EncodedNames(all)| == |EncodedNames(names)| + NameBytes(registrations[..i])
    {
      var name := registrations[i];
      assert registrations[..i + 1][..i] == registrations[..i];
      LookupFinds(all, name);
      assert registrations[..i + 1] == registrations[..i] + [name];
      if Lookup(all, name).Some? {
        assert NameEntry(name, Lookup(all, name).value) in all;
        NotNew(names, registrations, i);
        return Err(Duplicate(name));
      }
      InsertedKeeps(all, NameEntry(name, blockId));
      NewSoFar(names, all, blockId, registrations, i);
      all := Inserted(all, NameEntry(name, blockId));
    }
    assert registrations[..|registrations|] == registrations;
    r := Ok(all);
  }

  lemma NotNew(names: seq<NameEntry>, registrations: seq<Text>, i: nat)
    requires i < |registrations|
    requires registrations[i] in registrations[..i] || exists e :: e in names && e.name == registrations[i]
    ensures !AllNew(names, registrations)
  {
    if registrations[i] in registrations[..i] {
      var j :| 0 <= j < i && registrations[j] == registrations[i];
    }
  }

  lemma NewSoFar(names: seq<NameEntry>, all: seq<NameEntry>, blockId: nat, registrations: seq<Text>, i: nat)
    requires i < |registrations| && AllNew(names, registrations[..i])
    requires forall e :: e in all <==> e in names || (e.blockId == blockId && e.name in registrations[..i])
    requires forall e :: e in all ==> e.name != registrations[i]
    ensures AllNew(names, registrations[..i + 1])
  {
    forall j | 0 <= j < i ensures registrations[j] != registrations[i] {
      assert registrations[j] == registrations[..i][j];
      assert NameEntry(registrations[j], blockId) in all;
    }
    forall j, k | 0 <= j < k < i ensures registrations[j] != registrations[k] {
      assert registrations[..i][j] != registrations[..i][k];
    }
    forall j, e | 0 <= j < i && e in names ensures registrations[j] != e.name {
      assert registrations[..i][j] != e.name;
    }
  }

  ghost predicate BlockStands(e: BlockEntry, c: Compressed, chunks: Text) {
    && e.offset + e.compressed <= |chunks| && e.compressed == |c.bytes|
    && chunks[e.offset..e.offset + e.compressed] == c.bytes
    && e.uncompressed == c.uncompressed && e.hash == c.hash
  }

  /** No name is registered twice, in one block or in two. */
  ghost predicate Distinct(commands: seq<Command>) {
    forall i, j :: 0 <= i < j < |commands| ==> Apart(commands[i].registrations, commands[j].registrations)
  }

  predicate Apart(a: seq<Text>, b: seq<Text>) {
    forall i, j :: 0 <= i < |a| && 0 <= j < |b| ==> a[i] != b[j]
  }

  ghost predicate DistinctWithin(commands: seq<Command>) {
    forall i :: 0 <= i < |commands| ==> AllNew([], commands[i].registrations)
  }

  predicate SmallBlocks(commands: seq<Command>) {
    forall i :: 0 <= i < |commands| ==> |commands[i].block.bytes| <= MAX_COMPRESSED_BLOCK_BYTES
  }

  /** The names are those of the commands, and every entry finds its own bytes in the chunk section. */
  ghost predicate Laid(commands: seq<Command>, names: seq<NameEntry>, chunks: Text, blocks: seq<BlockEntry>) {
    && StrictlySorted(names) && |blocks| == |commands|
    && (forall e :: e in names <==> e.blockId < |commands| && e.name in commands[e.blockId].registrations)
    && (forall i :: 0 <= i < |commands| ==> BlockStands(blocks[i], commands[i].block, chunks))
    && |chunks| <= |commands| * MAX_COMPRESSED_BLOCK_BYTES
  }

  function NameCount(commands: seq<Command>): nat {
    if commands == [] then 0 else NameCount(commands[..|commands| - 1]) + |commands[|commands| - 1].registrations|
  }

  function NamesLength(commands: seq<Command>): nat {
    if commands == [] then 0 else NamesLength(commands[..|commands| - 1]) + NameBytes(commands[|commands| - 1].registrations)
  }

  function ChunksLength(commands: seq<Command>): nat {
    if commands == [] then 0 else ChunksLength(commands[..|commands| - 1]) + |commands[|commands| - 1].block.bytes|
  }

  ghost predicate Sized(commands: seq<Command>, names: seq<NameEntry>, chunks: Text) {
    && |names| == NameCount(commands) && |EncodedNames(names)| == NamesLength(commands)
    && |chunks| == ChunksLength(commands)
  }

  lemma NothingIsSized()
    ensures Sized([], [], [])
  {
  }

  lemma NothingIsLaid()
    ensures Laid([], [], [], [])
  {
  }

  lemma SizedGrows(commands: seq<Command>, i: nat, names: seq<NameEntry>, more: seq<NameEntry>, chunks: Text)
    requires i < |commands| && Sized(commands[..i], names, chunks)
    requires |more| == |names| + |commands[i].registrations|
    requires |EncodedNames(more)| == |EncodedNames(names)| + NameBytes(commands[i].registrations)
    ensures Sized(commands[..i + 1], more, chunks + commands[i].block.bytes)
  {
    hide EncodedNames, NameBytes;
    var all := commands[..i + 1];
    assert all[..|all| - 1] == commands[..i] && all[|all| - 1] == commands[i];
  }

  method LayCommands(commands: seq<Command>) returns (r: Result<(seq<NameEntry>, Text, seq<BlockEntry>), PackError>)
    ensures r.Ok? <==> Distinct(commands) && DistinctWithin(commands) && SmallBlocks(commands)
    ensures r.Err? ==> if r.error.Duplicate? then !(Distinct(commands) && DistinctWithin(commands))
      else r.error == Limit("compressed command block") && !SmallBlocks(commands)
    ensures r.Ok? ==> Laid(commands, r.value.0, r.value.1, r.value.2) && Sized(commands, r.value.0, r.value.1)
  {
    hide EncodedNames, Sized, NameBytes, StrictlySorted;
    assert Sized([], [], []) by { NothingIsSized(); }
    assert Laid([], [], [], []) by { NothingIsLaid(); }
    var names, chunks, blocks := [], [], [];
    for i := 0 to |commands|
      invariant Laid(commands[..i], names, chunks, blocks) && Sized(commands[..i], names, chunks)
      invariant Distinct(commands[..i]) && DistinctWithin(commands[..i]) && SmallBlocks(commands[..i])
    {
      var c := commands[i];
      NamesAreNew(commands, i, names, chunks, blocks);
      var registered := RegisterNames(names, i, c.registrations);
      if registered.Err? {
        return Err(registered.error);
      }
      if |c.block.bytes| > MAX_COMPRESSED_BLOCK_BYTES {
        return Err(Limit("compressed command block"));
      }
      LaidGrows(commands, i, names, registered.value, chunks, blocks);
      SizedGrows(commands, i, names, registered.value, chunks);
      names := registered.value;
      blocks := blocks + [BlockEntry(|chunks|, |c.block.bytes|, c.block.uncompressed, c.block.hash)];
      chunks := chunks + c.block.bytes;
    }
    assert commands[..|commands|] == commands;
    r := Ok((names, chunks, blocks));
  }

  /** Registering a block succeeds exactly if its names differ among themselves and from all earlier ones. */
  lemma NamesAreNew(commands: seq<Command>, i: nat, names: seq<NameEntry>, chunks: Text, blocks: seq<BlockEntry>)
    requires i < |commands| && Laid(commands[..i], names, chunks, blocks)
    requires Distinct(commands[..i]) && DistinctWithin(commands[..i])
    ensures AllNew(names, commands[i].registrations) <==> Distinct(commands[..i + 1]) && DistinctWithin(commands[..i + 1])
    ensures !AllNew(names, commands[i].registrations) ==> !(Distinct(commands) && DistinctWithin(commands))
  {
    var more := commands[..i + 1];
    var registrations := commands[i].registrations;
    if AllNew(names, registrations) {
      forall k | 0 <= k < i ensures Apart(commands[k].registrations, registrations) {
        forall a, b | 0 <= a < |commands[k].registrations| && 0 <= b < |registrations|
          ensures commands[k].registrations[a] != registrations[b]
        {
          assert commands[..i][k] == commands[k];
          assert NameEntry(commands[k].registrations[a], k) in names;
        }
      }
      forall j, k | 0 <= j < k <= i ensures Apart(more[j].registrations, more[k].registrations) {
        if k < i {
          assert Apart(commands[..i][j].registrations, commands[..i][k].registrations);
        }
      }
      forall k | 0 <= k <= i ensures AllNew([], more[k].registrations) {
        if k < i {
          assert AllNew([], commands[..i][k].registrations);
        }
      }
    } else if AllNew([], registrations) {
      var b, e :| 0 <= b < |registrations| && e in names && registrations[b] == e.name;
      var k := e.blockId;
      assert commands[..i][k] == commands[k] == more[k] && more[i] == commands[i];
      var a :| 0 <= a < |commands[k].registrations| && commands[k].registrations[a] == e.name;
      assert !Apart(commands[k].registrations, registrations);
    } else {
      assert more[i] == commands[i];
    }
  }

  lemma LaidGrows(
    commands: seq<Command>, i: nat, names: seq<NameEntry>, more: seq<NameEntry>, chunks: Text, blocks: seq<BlockEntry>)
    requires i < |commands| && Laid(commands[..i], names, chunks, blocks)
    requires |commands[i].block.bytes| <= MAX_COMPRESSED_BLOCK_BYTES && StrictlySorted(more)
    requires forall e :: e in more <==> e in names || (e.blockId == i && e.name in commands[i].registrations)
    ensures var c := commands[i].block;
      Laid(commands[..i + 1], more, chunks + c.bytes, blocks + [BlockEntry(|chunks|, |c.bytes|, c.uncompressed, c.hash)])
  {
    hide StrictlySorted;
    var c := commands[i].block;
    var all := commands[..i + 1];
    var last := BlockEntry(|chunks|, |c.bytes|, c.uncompressed, c.hash);
    forall e ensures e in more <==> e.blockId < i + 1 && e.name in all[e.blockId].registrations {
      if e.blockId < i {
        assert commands[..i][e.blockId] == all[e.blockId];
      }
    }
    forall j | 0 <= j <= i ensures BlockStands((blocks + [last])[j], all[j].block, chunks + c.bytes) {
      if j < i {
        assert commands[..i][j] == all[j];
        StandsOn(blocks[j], all[j].block, chunks, c.bytes);
      }
    }
  }

  lemma StandsOn(e: BlockEntry, c: Compressed, chunks: Text, more: Text)
    requires BlockStands(e, c, chunks)
    ensures BlockStands(e, c, chunks + more)
  {
    assert (chunks + more)[e.offset..e.offset + e.compressed] == chunks[e.offset..e.offset + e.compressed];
  }

  // ---------------------------------------------------------------------
  // Sections
  // ---------------------------------------------------------------------

  const PACK_MAGIC: Text := [0x42, 0x4C, 0x50, 0x4B]
  const FORMAT_MAJOR: nat := 1
  const FORMAT_MINOR: nat := 1

  function AlignEight(value: nat): (r: nat)
    ensures value <= r < value + 8 && r % 8 == 0
  {
    (value + 7) / 8 * 8
  }

  /** What goes into the header besides the layout. */
  datatype Facts = Facts(
    sourceKind: byte, signed: bool, engine: (nat, nat, nat), commandCount: nat, blockCount: nat,
    opcodes: nat, features: nat, keyId: Text, root: Text, signature: Text, packId: Text)
  {
    predicate Fits() {
      && sourceKind < 4
      && engine.0 < 65536 && engine.1 < 65536 && engine.2 < 65536
      && commandCount <= MAX_COMMAND_NAMES && blockCount <= MAX_BLOCKS
      && opcodes < TWO_64 && features < TWO_64
      && |keyId| == 32 && |root| == 32 && |signature| == 64 && |packId| == 32
    }
  }

  datatype Field = Field(offset: nat, bytes: Text)

  function Written(f: Facts, index: Text, manifest: Text, chunks: Text): seq<Field> {
    var m := AlignEight(HEADER_SIZE + |index|);
    var c := AlignEight(m + |manifest|);
    [Field(0, PACK_MAGIC), Field(4, Le(FORMAT_MAJOR, 2)), Field(6, Le(FORMAT_MINOR, 2)), Field(8, Le(HEADER_SIZE, 4)),
     Field(12, [f.sourceKind]), Field(13, [if f.signed then 1 else 0]),
     Field(16, Le(f.engine.0, 2)), Field(18, Le(f.engine.1, 2)), Field(20, Le(f.engine.2, 2)),
     Field(24, Le(f.commandCount, 4)), Field(28, Le(f.blockCount, 4)),
     Field(32, Le(HEADER_SIZE, 8)), Field(40, Le(|index|, 8)),
     Field(48, Le(m, 8)), Field(56, Le(|manifest|, 8)),
     Field(64, Le(c, 8)), Field(72, Le(|chunks|, 8)),
     Field(80, Le(f.opcodes, 8)), Field(88, Le(f.features, 8)),
     Field(96, f.keyId), Field(128, f.root), Field(160, f.signature), Field(224, f.packId),
     Field(HEADER_SIZE, index), Field(m, manifest), Field(c, chunks)]
  }

  predicate StartsAfter(fields: seq<Field>, i: nat)
    requires 0 < i < |fields|
  {
    fields[i - 1].offset + |fields[i - 1].bytes| <= fields[i].offset
  }

  ghost predicate InOrder(fields: seq<Field>, length: nat) {
    && (forall i :: 0 < i < |fields| ==> StartsAfter(fields, i))
    && (fields != [] ==> fields[|fields| - 1].offset + |fields[|fields| - 1].bytes| <= length)
  }

  predicate Holds(output: Text, f: Field) {
    f.offset + |f.bytes| <= |output| && output[f.offset..f.offset + |f.bytes|] == f.bytes
  }

  lemma {:induction false} OrderApart(fields: seq<Field>, length: nat, i: nat, j: nat)
    requires InOrder(fields, length) && i < j < |fields|
    ensures fields[i].offset + |fields[i].bytes| <= fields[j].offset
    decreases j - i
  {
    assert StartsAfter(fields, j);
    if i + 1 < j {
      OrderApart(fields, length, i, j - 1);
    }
  }

  lemma OrderWithin(fields: seq<Field>, length: nat, i: nat)
    requires InOrder(fields, length) && i < |fields|
    ensures fields[i].offset + |fields[i].bytes| <= length
  {
    if i < |fields| - 1 {
      OrderApart(fields, length, i, |fields| - 1);
    }
  }

  method CopyInto(output: array<byte>, f: Field)
    requires f.offset + |f.bytes| <= output.Length
    modifies output
    ensures Holds(output[..], f)
    ensures forall k :: 0 <= k < output.Length && !(f.offset <= k < f.offset + |f.bytes|) ==> output[k] == old(output[k])
  {
    for i := 0 to |f.bytes|
      invariant forall k :: 0 <= k < i ==> output[f.offset + k] == f.bytes[k]
      invariant forall k :: 0 <= k < output.Length && !(f.offset <= k < f.offset + i) ==> output[k] == old(output[k])
    {
      output[f.offset + i] := f.bytes[i];
    }
  }

  /** A field that a write does not touch still stands. */
  lemma HoldsOn(before: Text, after: Text, f: Field, g: Field)
    requires |before| == |after| && Holds(before, f)
    requires f.offset + |f.bytes| <= g.offset
    requires forall k :: 0 <= k < |before| && !(g.offset <= k < g.offset + |g.bytes|) ==> after[k] == before[k]
    ensures Holds(after, f)
  {
    assert after[f.offset..f.offset + |f.bytes|] == before[f.offset..f.offset + |f.bytes|];
  }

  predicate Zero(output: Text, from: nat, to: nat) {
    from <= to <= |output| && forall k :: from <= k < to ==> output[k] == 0
  }

  function End(fields: seq<Field>, i: nat): nat
    requires i <= |fields|
  {
    if i == 0 then 0 else fields[i - 1].offset + |fields[i - 1].bytes|
  }

  predicate ZeroGap(output: Text, fields: seq<Field>, i: nat)
    requires i < |fields|
  {
    Zero(output, End(fields, i), fields[i].offset)
  }

  /** Writes fields that do not overlap into zeros: all of them stand, and gaps stay zero. */
  method WriteFields(fields: seq<Field>, length: nat) returns (output: array<byte>)
    requires InOrder(fields, length)
    ensures fresh(output) && output.Length == length
    ensures forall i :: 0 <= i < |fields| ==> Holds(output[..], fields[i])
    ensures forall i :: 0 < i < |fields| ==> ZeroGap(output[..], fields, i)
  {
    output := new byte[length](_ => 0);
    for i := 0 to |fields|
      invariant WrittenSoFar(output[..], fields, i)
    {
      ghost var before := output[..];
      OrderWithin(fields, length, i);
      CopyInto(output, fields[i]);
      FieldWritten(before, output[..], fields, i, length);
    }
  }

  /** The first `i` fields stand, with zeros between and behind them. */
  ghost predicate WrittenSoFar(output: Text, fields: seq<Field>, i: nat) {
    && i <= |fields|
    && (forall j :: 0 <= j < i ==> Holds(output, fields[j]))
    && (forall j :: 0 < j < i ==> ZeroGap(output, fields, j))
    && (forall k :: End(fields, i) <= k < |output| ==> output[k] == 0)
  }

  lemma FieldWritten(before: Text, after: Text, fields: seq<Field>, i: nat, length: nat)
    requires InOrder(fields, length) && i < |fields| && |before| == |after| == length
    requires WrittenSoFar(before, fields, i) && Holds(after, fields[i])
    requires forall k :: 0 <= k < length && !(fields[i].offset <= k < fields[i].offset + |fields[i].bytes|) ==> after[k] == before[k]
    ensures WrittenSoFar(after, fields, i + 1)
  {
    hide InOrder;
    forall j | 0 <= j < i ensures Holds(after, fields[j]) {
      OrderApart(fields, length, j, i);
      HoldsOn(before, after, fields[j], fields[i]);
    }
    forall j | 0 < j < i ensures ZeroGap(after, fields, j) {
      OrderApart(fields, length, j, i);
      assert ZeroGap(before, fields, j);
    }
    hide Holds;
    OrderWithin(fields, length, i);
    if i > 0 {
      OrderApart(fields, length, i - 1, i);
      assert Zero(before, End(fields, i), fields[i].offset);
    }
  }

  lemma MagicInOrder(f: Facts, index: Text, manifest: Text, chunks: Text, i: nat)
    requires f.Fits() && 1 <= i < 4
    ensures StartsAfter(Written(f, index, manifest, chunks), i)
  {
    hide Le, AlignEight;
    match i {
      case 1 =>
      case 2 =>
      case 3 =>
    }
  }

  lemma FlagsInOrder(f: Facts, index: Text, manifest: Text, chunks: Text, i: nat)
    requires f.Fits() && 4 <= i < 7
    ensures StartsAfter(Written(f, index, manifest, chunks), i)
  {
    hide Le, AlignEight;
    match i {
      case 4 =>
      case 5 =>
      case 6 =>
    }
  }

  lemma EngineInOrder(f: Facts, index: Text, manifest: Text, chunks: Text, i: nat)
    requires f.Fits() && 7 <= i < 10
    ensures StartsAfter(Written(f, index, manifest, chunks), i)
  {
    hide Le, AlignEight;
    match i {
      case 7 =>
      case 8 =>
      case 9 =>
    }
  }

  lemma CountsInOrder(f: Facts, index: Text, manifest: Text, chunks: Text, i: nat)
    requires f.Fits() && 10 <= i < 13
    ensures StartsAfter(Written(f, index, manifest, chunks), i)
  {
    hide Le, AlignEight;
    match i {
      case 10 =>
      case 11 =>
      case 12 =>
    }
  }

  lemma OffsetsInOrder(f: Facts, index: Text, manifest: Text, chunks: Text, i: nat)
    requires f.Fits() && 13 <= i < 18
    ensures StartsAfter(Written(f, index, manifest, chunks), i)
  {
    hide Le, AlignEight;
    match i {
      case 13 =>
      case 14 =>
      case 15 =>
      case 16 =>
      case 17 =>
    }
  }

  lemma HashesInOrder(f: Facts, index: Text, manifest: Text, chunks: Text, i: nat)
    requires f.Fits() && 18 <= i < 22
    ensures StartsAfter(Written(f, index, manifest, chunks), i)
  {
    hide Le, AlignEight;
    match i {
      case 18 =>
      case 19 =>
      case 20 =>
      case 21 =>
    }
  }

  lemma SectionsInOrder(f: Facts, index: Text, manifest: Text, chunks: Text, i: nat)
    requires f.Fits() && 22 <= i < 26
    ensures StartsAfter(Written(f, index, manifest, chunks), i)
  {
    hide Le, AlignEight;
    match i {
      case 22 =>
      case 23 =>
      case 24 =>
      case 25 =>
    }
  }

  lemma WrittenInOrder(f: Facts, index: Text, manifest: Text, chunks: Text)
    requires f.Fits()
    ensures InOrder(Written(f, index, manifest, chunks), FinalLength(index, manifest, chunks))
  {
    hide Le, AlignEight;
    var fields := Written(f, index, manifest, chunks);
    assert |fields| == 26 && fields[25].offset + |fields[25].bytes| == FinalLength(index, manifest, chunks);
    hide Written, FinalLength, StartsAfter;
    forall i | 0 < i < 26 ensures StartsAfter(fields, i) {
      if i < 4 {
        MagicInOrder(f, index, manifest, chunks, i);
      } else if i < 7 {
        FlagsInOrder(f, index, manifest, chunks, i);
      } else if i < 10 {
        EngineInOrder(f, index, manifest, chunks, i);
      } else if i < 13 {
        CountsInOrder(f, index, manifest, chunks, i);
      } else if i < 18 {
        OffsetsInOrder(f, index, manifest, chunks, i);
      } else if i < 22 {
        HashesInOrder(f, index, manifest, chunks, i);
      } else {
        SectionsInOrder(f, index, manifest, chunks, i);
      }
    }
  }

  /** The builder's last steps: limits, then the aligned layout. */
  method LaySections(f: Facts, index: Text, manifest: Text, chunks: Text) returns (r: Result<Text, PackError>)
    requires f.Fits()
    ensures |index| > MAX_INDEX_BYTES ==> r == Err(Limit("pack index"))
    ensures |index| <= MAX_INDEX_BYTES && FinalLength(index, manifest, chunks) > MAX_PACK_BYTES ==> r == Err(Limit("pack size"))
    ensures |index| <= MAX_INDEX_BYTES && FinalLength(index, manifest, chunks) <= MAX_PACK_BYTES ==>
      r.Ok? && LaidOut(r.value, f, index, manifest, chunks)
  {
    hide Written, InOrder, FinalLength;
    if |index| > MAX_INDEX_BYTES {
      return Err(Limit("pack index"));
    }
    var length := FinalLength(index, manifest, chunks);
    if length > MAX_PACK_BYTES {
      return Err(Limit("pack size"));
    }
    WrittenInOrder(f, index, manifest, chunks);
    var output := WriteFields(Written(f, index, manifest, chunks), length);
    r := Ok(output[..]);
  }

  /** The aligned length of a pack whose sections have these lengths. */
  function PackLength(index: nat, manifest: nat, chunks: nat): nat {
    AlignEight(AlignEight(HEADER_SIZE + index) + manifest) + chunks
  }

  function FinalLength(index: Text, manifest: Text, chunks: Text): nat {
    PackLength(|index|, |manifest|, |chunks|)
  }

  ghost predicate LaidOut(output: Text, f: Facts, index: Text, manifest: Text, chunks: Text) {
    var fields := Written(f, index, manifest, chunks);
    && |output| == FinalLength(index, manifest, chunks)
    && (forall i :: 0 <= i < |fields| ==> Holds(output, fields[i]))
    && (forall i :: 0 < i < |fields| ==> ZeroGap(output, fields, i))
  }

  // ---------------------------------------------------------------------
  // Opening
  // ---------------------------------------------------------------------

  datatype Sections = Sections(commandCount: nat, blockCount: nat, index: Text, manifest: Text, chunks: Text)

  function NumberAt(bytes: Text, offset: nat, width: nat): nat
    requires offset + width <= |bytes|
  {
    FromLe(bytes[offset..offset + width])
  }

  function Section(bytes: Text, offset: nat, length: nat): Result<Text, PackError> {
    if offset + length > |bytes| then Err(Truncated) else Ok(bytes[offset..offset + length])
  }

  /** The checks on the header of a pack, up to the size limits of its sections. */
  function Opened(mapping: Text): Result<Sections, PackError> {
    if |mapping| < HEADER_SIZE then Err(Truncated)
    else if mapping[..4] != PACK_MAGIC then Err(Invalid("invalid pack magic"))
    else if NumberAt(mapping, 4, 2) != FORMAT_MAJOR || NumberAt(mapping, 6, 2) > FORMAT_MINOR then
      Err(Invalid("unsupported format"))
    else if NumberAt(mapping, 8, 4) != HEADER_SIZE then Err(Invalid("invalid pack header size"))
    else if mapping[12] > 3 then Err(Invalid("unknown source kind"))
    else if mapping[13] > 1 || mapping[14] != 0 || mapping[15] != 0 then Err(Invalid("unknown pack header flags"))
    else if mapping[22] != 0 || mapping[23] != 0 then Err(Invalid("nonzero reserved header bytes"))
    else if NumberAt(mapping, 24, 4) > MAX_COMMAND_NAMES || NumberAt(mapping, 28, 4) > MAX_BLOCKS then
      Err(Limit("pack index entries"))
    else OpenedSections(mapping)
  }

  function OpenedSections(mapping: Text): Result<Sections, PackError>
    requires |mapping| >= HEADER_SIZE
  {
    var indexOffset, indexLength := NumberAt(mapping, 32, 8), NumberAt(mapping, 40, 8);
    var manifestOffset, manifestLength := NumberAt(mapping, 48, 8), NumberAt(mapping, 56, 8);
    var chunksOffset, chunksLength := NumberAt(mapping, 64, 8), NumberAt(mapping, 72, 8);
    if indexOffset + indexLength >= TWO_64 then Err(Invalid("index offset overflow"))
    else if manifestOffset + manifestLength >= TWO_64 then Err(Invalid("manifest offset overflow"))
    else if chunksOffset + chunksLength >= TWO_64 then Err(Invalid("chunks offset overflow"))
    else if indexOffset < HEADER_SIZE || indexOffset + indexLength > manifestOffset
      || manifestOffset + manifestLength > chunksOffset || chunksOffset + chunksLength != |mapping|
    then Err(Invalid("overlapping or trailing pack sections"))
    else
      match (Section(mapping, indexOffset, indexLength), Section(mapping, manifestOffset, manifestLength),
             Section(mapping, chunksOffset, chunksLength))
      case (Ok(index), Ok(manifest), Ok(chunks)) =>
        if |index| > MAX_INDEX_BYTES || |manifest| > MAX_MANIFEST_BYTES then Err(Limit("pack metadata section"))
        else Ok(Sections(NumberAt(mapping, 24, 4), NumberAt(mapping, 28, 4), index, manifest, chunks))
      case (_, _, _) => Err(Truncated)
  }

  /** Sections that follow the header and each other without overlapping, and end with the file. */
  predicate SectionsTile(mapping: Text)
    requires |mapping| >= HEADER_SIZE
  {
    var indexOffset, indexLength := NumberAt(mapping, 32, 8), NumberAt(mapping, 40, 8);
    var manifestOffset, manifestLength := NumberAt(mapping, 48, 8), NumberAt(mapping, 56, 8);
    var chunksOffset, chunksLength := NumberAt(mapping, 64, 8), NumberAt(mapping, 72, 8);
    && HEADER_SIZE <= indexOffset && indexOffset + indexLength <= manifestOffset
    && manifestOffset + manifestLength <= chunksOffset && chunksOffset + chunksLength == |mapping|
    && indexLength <= MAX_INDEX_BYTES && manifestLength <= MAX_MANIFEST_BYTES
  }

  predicate GoodHeader(mapping: Text) {
    && |mapping| >= HEADER_SIZE && PACK_MAGIC <= mapping
    && NumberAt(mapping, 4, 2) == FORMAT_MAJOR && NumberAt(mapping, 6, 2) <= FORMAT_MINOR
    && NumberAt(mapping, 8, 4) == HEADER_SIZE
    && mapping[12] <= 3 && mapping[13] <= 1
    && (forall i :: i in {14, 15, 22, 23} ==> mapping[i] == 0)
    && NumberAt(mapping, 24, 4) <= MAX_COMMAND_NAMES && NumberAt(mapping, 28, 4) <= MAX_BLOCKS
  }

  /** A file is opened exactly if its header is good and its sections are in order, and then they are its slices. */
  lemma OpenedIffGood(mapping: Text)
    requires |mapping| < TWO_64
    ensures Opened(mapping).Ok? <==> GoodHeader(mapping) && SectionsTile(mapping)
    ensures Opened(mapping).Ok? ==>
      var r := Opened(mapping).value;
      && |mapping| >= HEADER_SIZE
      && r.index == mapping[NumberAt(mapping, 32, 8)..][..NumberAt(mapping, 40, 8)]
      && r.manifest == mapping[NumberAt(mapping, 48, 8)..][..NumberAt(mapping, 56, 8)]
      && r.chunks == mapping[NumberAt(mapping, 64, 8)..]
  {
    if |mapping| >= HEADER_SIZE {
      SectionsIffTile(mapping);
    }
    hide NumberAt, OpenedSections, SectionsTile;
  }

  lemma SectionsIffTile(mapping: Text)
    requires HEADER_SIZE <= |mapping| < TWO_64
    ensures OpenedSections(mapping).Ok? <==> SectionsTile(mapping)
    ensures OpenedSections(mapping).Ok? ==>
      var r := OpenedSections(mapping).value;
      && r.index == mapping[NumberAt(mapping, 32, 8)..][..NumberAt(mapping, 40, 8)]
      && r.manifest == mapping[NumberAt(mapping, 48, 8)..][..NumberAt(mapping, 56, 8)]
      && r.chunks == mapping[NumberAt(mapping, 64, 8)..]
  {
    hide NumberAt;
  }

  lemma HeldNumber(output: Text, offset: nat, n: nat, width: nat)
    requires Holds(output, Field(offset, Le(n, width))) && n < Pow256(width)
    ensures offset + width <= |output| && NumberAt(output, offset, width) == n
  {
    FromLeLe(n, width);
  }

  /** Every section check passes on what the builder laid out, and the sections come back unchanged. */
  lemma LayoutOpens(output: Text, f: Facts, index: Text, manifest: Text, chunks: Text)
    requires f.Fits() && LaidOut(output, f, index, manifest, chunks)
    requires |index| <= MAX_INDEX_BYTES && |manifest| <= MAX_MANIFEST_BYTES && |output| <= MAX_PACK_BYTES
    ensures Opened(output) == Ok(Sections(f.commandCount, f.blockCount, index, manifest, chunks))
  {
    HeaderBytes(output, f, index, manifest, chunks);
    HeaderNumbers(output, f, index, manifest, chunks);
    SectionsRead(output, f, index, manifest, chunks);
    hide Written, NumberAt, FromLe, Zero, LaidOut;
  }

  lemma HeaderBytes(output: Text, f: Facts, index: Text, manifest: Text, chunks: Text)
    requires f.Fits() && LaidOut(output, f, index, manifest, chunks)
    ensures |output| >= HEADER_SIZE
    ensures output[..4] == PACK_MAGIC && output[12] <= 3 && output[13] <= 1
    ensures output[14] == 0 && output[15] == 0 && output[22] == 0 && output[23] == 0
  {
    var fields := Written(f, index, manifest, chunks);
    hide Le, AlignEight;
    assert Holds(output, fields[0]) && Holds(output, fields[4]) && Holds(output, fields[5]) && Holds(output, fields[23]);
    assert output[12] == output[12..13][0] && output[13] == output[13..14][0];
    assert ZeroGap(output, fields, 6) && ZeroGap(output, fields, 9);
  }

  /** The numbers of the header come back as they were written. */
  lemma HeaderNumbers(output: Text, f: Facts, index: Text, manifest: Text, chunks: Text)
    requires f.Fits() && LaidOut(output, f, index, manifest, chunks) && |output| >= HEADER_SIZE
    ensures NumberAt(output, 4, 2) == FORMAT_MAJOR && NumberAt(output, 6, 2) == FORMAT_MINOR
    ensures NumberAt(output, 8, 4) == HEADER_SIZE
    ensures NumberAt(output, 24, 4) == f.commandCount && NumberAt(output, 28, 4) == f.blockCount
  {
    var fields := Written(f, index, manifest, chunks);
    hide Le, FromLe, NumberAt, AlignEight;
    Widths();
    assert Pow256(2) == 65536 by { assert Pow256(1) == 256; }
    assert Holds(output, fields[1]) && Holds(output, fields[2]) && Holds(output, fields[3]);
    assert Holds(output, fields[9]) && Holds(output, fields[10]);
    hide Holds, LaidOut, Pow256;
    HeldNumber(output, 4, FORMAT_MAJOR, 2);
    HeldNumber(output, 6, FORMAT_MINOR, 2);
    HeldNumber(output, 8, HEADER_SIZE, 4);
    HeldNumber(output, 24, f.commandCount, 4);
    HeldNumber(output, 28, f.blockCount, 4);
  }

  /** So do the offsets and lengths, and the sections they enclose. */
  lemma OffsetsRead(output: Text, f: Facts, index: Text, manifest: Text, chunks: Text)
    requires f.Fits() && LaidOut(output, f, index, manifest, chunks) && |output| <= MAX_PACK_BYTES
    ensures |output| >= HEADER_SIZE
    ensures var m := AlignEight(HEADER_SIZE + |index|); var c := AlignEight(m + |manifest|);
      && NumberAt(output, 32, 8) == HEADER_SIZE && NumberAt(output, 40, 8) == |index|
      && NumberAt(output, 48, 8) == m && NumberAt(output, 56, 8) == |manifest|
      && NumberAt(output, 64, 8) == c && NumberAt(output, 72, 8) == |chunks|
      && Holds(output, Field(HEADER_SIZE, index)) && Holds(output, Field(m, manifest)) && Holds(output, Field(c, chunks))
  {
    var fields := Written(f, index, manifest, chunks);
    hide Le, FromLe, NumberAt;
    Widths();
    var m := AlignEight(HEADER_SIZE + |index|);
    var c := AlignEight(m + |manifest|);
    assert Holds(output, fields[11]) && Holds(output, fields[12]) && Holds(output, fields[13]);
    assert Holds(output, fields[14]) && Holds(output, fields[15]) && Holds(output, fields[16]);
    assert Holds(output, fields[23]) && Holds(output, fields[24]) && Holds(output, fields[25]);
    hide Holds, LaidOut, Pow256;
    HeldNumber(output, 32, HEADER_SIZE, 8);
    HeldNumber(output, 40, |index|, 8);
    HeldNumber(output, 48, m, 8);
    HeldNumber(output, 56, |manifest|, 8);
    HeldNumber(output, 64, c, 8);
    HeldNumber(output, 72, |chunks|, 8);
  }

  lemma SectionsRead(output: Text, f: Facts, index: Text, manifest: Text, chunks: Text)
    requires f.Fits() && LaidOut(output, f, index, manifest, chunks)
    requires |index| <= MAX_INDEX_BYTES && |manifest| <= MAX_MANIFEST_BYTES && |output| <= MAX_PACK_BYTES
    ensures |output| >= HEADER_SIZE
    ensures OpenedSections(output)
      == Ok(Sections(NumberAt(output, 24, 4), NumberAt(output, 28, 4), index, manifest, chunks))
  {
    OffsetsRead(output, f, index, manifest, chunks);
    assert |output| == FinalLength(index, manifest, chunks);
    hide Written, NumberAt, FromLe, LaidOut;
  }

  lemma LaidOutOpens(output: Text, f: Facts, names: seq<NameEntry>, blocks: seq<BlockEntry>, manifest: Text, chunks: Text)
    requires f.Fits() && f.commandCount == |names| && f.blockCount == |blocks|
    requires WellFormed(names, blocks, |chunks|)
    requires LaidOut(output, f, Encoded(names, blocks), manifest, chunks)
    requires |Encoded(names, blocks)| <= MAX_INDEX_BYTES && |manifest| <= MAX_MANIFEST_BYTES && |output| <= MAX_PACK_BYTES
    ensures Opened(output).Ok?
    ensures var s := Opened(output).value;
      && s.manifest == manifest && s.chunks == chunks
      && Parsed(s.index, s.commandCount, s.blockCount, |s.chunks|) == Ok((names, blocks))
  {
    hide *;
    LayoutOpens(output, f, Encoded(names, blocks), manifest, chunks);
    ParsedEncoded(names, blocks, |chunks|);
  }

  // ---------------------------------------------------------------------
  // Building
  // ---------------------------------------------------------------------

  /** Opening gives back the manifest, every block under each of its names, and nothing else under any name. */
  ghost predicate Reopens(output: Text, commands: seq<Command>, manifest: Text) {
    && Opened(output).Ok?
    && var s := Opened(output).value;
    && s.manifest == manifest
    && Parsed(s.index, s.commandCount, s.blockCount, |s.chunks|).Ok?
    && var (names, blocks) := Parsed(s.index, s.commandCount, s.blockCount, |s.chunks|).value;
    && StrictlySorted(names) && |blocks| == |commands|
    && (forall i :: 0 <= i < |commands| ==> BlockStands(blocks[i], commands[i].block, s.chunks))
    && (forall i, name :: 0 <= i < |commands| && name in commands[i].registrations ==> Lookup(names, name) == Some(i))
    && (forall name :: Lookup(names, name).Some? ==>
          var k := Lookup(names, name).value; k < |commands| && name in commands[k].registrations)
  }

  lemma LaidIsWellFormed(commands: seq<Command>, names: seq<NameEntry>, chunks: Text, blocks: seq<BlockEntry>)
    requires Laid(commands, names, chunks, blocks) && SmallBlocks(commands)
    requires forall i :: 0 <= i < |commands| ==> Encodable(commands[i])
    requires |names| <= MAX_COMMAND_NAMES && |commands| <= MAX_BLOCKS && AllIndexable(names)
    ensures WellFormed(names, blocks, |chunks|)
  {
    hide StrictlySorted, ValidUtf8, Less;
    forall i | 0 <= i < |names| ensures GoodName(names[i], |blocks|) {
      var e := names[i];
      assert e in names && Encodable(commands[e.blockId]);
      var j :| 0 <= j < |commands[e.blockId].registrations| && commands[e.blockId].registrations[j] == e.name;
      assert Indexable(e.name);
    }
    forall i | 0 <= i < |blocks| ensures GoodBlock(blocks[i], |chunks|) {
      assert Encodable(commands[i]) && BlockStands(blocks[i], commands[i].block, chunks);
    }
  }

  lemma LaidIsFound(commands: seq<Command>, names: seq<NameEntry>, chunks: Text, blocks: seq<BlockEntry>)
    requires Laid(commands, names, chunks, blocks)
    ensures forall i, name :: 0 <= i < |commands| && name in commands[i].registrations ==> Lookup(names, name) == Some(i)
    ensures forall name :: Lookup(names, name).Some? ==>
      var k := Lookup(names, name).value; k < |commands| && name in commands[k].registrations
  {
    forall i, name | 0 <= i < |commands| && name in commands[i].registrations ensures Lookup(names, name) == Some(i) {
      assert NameEntry(name, i) in names;
      MemberIsFound(names, NameEntry(name, i));
    }
    forall name | Lookup(names, name).Some?
      ensures var k := Lookup(names, name).value; k < |commands| && name in commands[k].registrations
    {
      LookupFinds(names, name);
    }
  }

  lemma LaidOutReopens(
    output: Text, f: Facts, commands: seq<Command>, manifest: Text, names: seq<NameEntry>, chunks: Text, blocks: seq<BlockEntry>)
    requires f.Fits() && f.commandCount == |names| && f.blockCount == |blocks|
    requires Laid(commands, names, chunks, blocks) && SmallBlocks(commands) && AllIndexable(names)
    requires forall i :: 0 <= i < |commands| ==> Encodable(commands[i])
    requires LaidOut(output, f, Encoded(names, blocks), manifest, chunks)
    requires |Encoded(names, blocks)| <= MAX_INDEX_BYTES && |manifest| <= MAX_MANIFEST_BYTES
    requires FinalLength(Encoded(names, blocks), manifest, chunks) <= MAX_PACK_BYTES
    ensures Reopens(output, commands, manifest)
  {
    assert |output| == FinalLength(Encoded(names, blocks), manifest, chunks);
    hide Encodable, LaidOut, Encoded, Parsed, Opened, Lookup, WellFormed, StrictlySorted;
    LaidIsWellFormed(commands, names, chunks, blocks);
    LaidIsFound(commands, names, chunks, blocks);
    LaidOutOpens(output, f, names, blocks, manifest, chunks);
  }

  ghost predicate AllUsable(commands: seq<Command>) {
    forall i :: 0 <= i < |commands| ==> forall j :: 0 <= j < |commands[i].registrations| ==> Indexable(commands[i].registrations[j])
  }

  function IndexLength(commands: seq<Command>): nat {
    8 + NamesLength(commands) + 48 * |commands|
  }

  /** All names differ and can be used, and every size is within its limit. */
  ghost predicate Buildable(commands: seq<Command>, manifest: Text) {
    && 0 < |commands| <= MAX_BLOCKS && |manifest| <= MAX_MANIFEST_BYTES
    && Distinct(commands) && DistinctWithin(commands) && SmallBlocks(commands) && AllUsable(commands)
    && NameCount(commands) <= MAX_COMMAND_NAMES
    && IndexLength(commands) <= MAX_INDEX_BYTES
    && PackLength(IndexLength(commands), |manifest|, ChunksLength(commands)) <= MAX_PACK_BYTES
  }

  lemma {:induction false} BlocksLength(blocks: seq<BlockEntry>)
    requires forall i :: 0 <= i < |blocks| ==> |blocks[i].hash| == 32
    ensures |EncodedBlocks(blocks)| == 48 * |blocks|
  {
    hide Le;
    if blocks != [] {
      BlocksLength(blocks[1..]);
    }
  }

  lemma BadNameIsRegistered(commands: seq<Command>, names: seq<NameEntry>, chunks: Text, blocks: seq<BlockEntry>)
    returns (i: nat, j: nat)
    requires Laid(commands, names, chunks, blocks) && !AllIndexable(names)
    ensures i < |commands| && j < |commands[i].registrations| && !Indexable(commands[i].registrations[j])
  {
    var n :| 0 <= n < |names| && !Indexable(names[n].name);
    var e := names[n];
    assert e in names;
    i := e.blockId;
    j :| 0 <= j < |commands[i].registrations| && commands[i].registrations[j] == e.name;
  }

  /** The index is as long as its names and blocks make it, and can be encoded exactly if all names can be used. */
  lemma LaidIndex(commands: seq<Command>, names: seq<NameEntry>, chunks: Text, blocks: seq<BlockEntry>)
    requires Laid(commands, names, chunks, blocks) && Sized(commands, names, chunks)
    requires forall i :: 0 <= i < |commands| ==> Encodable(commands[i])
    ensures |Encoded(names, blocks)| == IndexLength(commands)
    ensures |names| == NameCount(commands) && |chunks| == ChunksLength(commands) && |blocks| == |commands|
    ensures AllIndexable(names) <==> AllUsable(commands)
  {
    hide Le, EncodedNames, EncodedBlocks, Indexable;
    forall i | 0 <= i < |blocks| ensures |blocks[i].hash| == 32 {
      assert Encodable(commands[i]) && BlockStands(blocks[i], commands[i].block, chunks);
    }
    BlocksLength(blocks);
    if AllIndexable(names) {
      forall i, j | 0 <= i < |commands| && 0 <= j < |commands[i].registrations| ensures Indexable(commands[i].registrations[j]) {
        assert NameEntry(commands[i].registrations[j], i) in names;
      }
    } else {
      var i, j := BadNameIsRegistered(commands, names, chunks, blocks);
    }
  }

  /** The whole builder: it accepts exactly what is buildable, and what it accepts opens again to what was put in. */
  method Build(commands: seq<Command>, manifest: Text, facts: Facts) returns (r: Result<Text, PackError>)
    requires facts.(commandCount := 0, blockCount := 0).Fits()
    requires forall i :: 0 <= i < |commands| ==> Encodable(commands[i])
    ensures r.Ok? ==> Reopens(r.value, commands, manifest)
    ensures r.Ok? <==> Buildable(commands, manifest)
    ensures r.Err? && r.error.Duplicate? ==> !(Distinct(commands) && DistinctWithin(commands))
    ensures r.Err? && r.error.Invalid? ==> !AllUsable(commands)
    ensures r.Err? ==> r.error.Duplicate? || r.error.Invalid? || r.error.Limit?
  {
    hide Distinct, DistinctWithin, SmallBlocks, Laid, LaidOut, Reopens, Encoded, WellFormed, StrictlySorted, Encodable, Sized,
      AllUsable, AllIndexable, IndexLength, PackLength, NameCount, ChunksLength;
    if commands == [] || |commands| > MAX_BLOCKS {
      return Err(Limit("pack command blocks"));
    }
    if |manifest| > MAX_MANIFEST_BYTES {
      return Err(Limit("pack manifest"));
    }
    var laid := LayCommands(commands);
    if laid.Err? {
      return Err(laid.error);
    }
    var (names, chunks, blocks) := laid.value;
    LaidIndex(commands, names, chunks, blocks);
    if |names| > MAX_COMMAND_NAMES {
      return Err(Limit("command names"));
    }
    var index := EncodeIndex(names, blocks);
    if index.Err? {
      return Err(index.error);
    }
    var f := facts.(commandCount := |names|, blockCount := |blocks|);
    r := LaySections(f, index.value, manifest, chunks);
    if r.Ok? {
      LaidOutReopens(r.value, f, commands, manifest, names, chunks, blocks);
    }
  }
}
