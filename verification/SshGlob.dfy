/** Host patterns: the row-by-row matcher accepts exactly what the patterns mean. */
module SshGlob {
  import opened Wrappers
  import opened TextOrder

  const STAR: byte := 0x2A
  const QUESTION: byte := 0x3F
  const OPEN: byte := 0x5B
  const CLOSE: byte := 0x5D

  /** The first closing bracket at or after `i`. */
  function ClosingBracket(pattern: Text, i: nat): (r: Option<nat>)
    requires i <= |pattern|
    ensures r.Some? ==> i <= r.value < |pattern| && pattern[r.value] == CLOSE
    ensures r.Some? ==> forall k :: i <= k < r.value ==> pattern[k] != CLOSE
    ensures r.None? ==> forall k :: i <= k < |pattern| ==> pattern[k] != CLOSE
    decreases |pattern| - i
  {
    if i == |pattern| then None
    else if pattern[i] == CLOSE then Some(i)
    else ClosingBracket(pattern, i + 1)
  }

  /**
   What a pattern means: `*` stands for any bytes, `?` for one, a bracket for one of the bytes in it, and a
   bracket that is never closed for nothing at all. Inside a bracket nothing is special.
   */
  predicate Matches(pattern: Text, value: Text)
    decreases |pattern|, |value|
  {
    if pattern == [] then value == []
    else if pattern[0] == STAR then
      Matches(pattern[1..], value) || (value != [] && Matches(pattern, value[1..]))
    else if pattern[0] == QUESTION then value != [] && Matches(pattern[1..], value[1..])
    else if pattern[0] == OPEN then
      match ClosingBracket(pattern, 1)
      case None => false
      case Some(close) => value != [] && value[0] in pattern[1..close] && Matches(pattern[close + 1..], value[1..])
    else value != [] && value[0] == pattern[0] && Matches(pattern[1..], value[1..])
  }

  /** A star stands for every possible number of bytes. */
  lemma {:induction false} StarMatchesAnySuffix(pattern: Text, value: Text)
    requires pattern != [] && pattern[0] == STAR
    ensures Matches(pattern, value) <==> exists k :: 0 <= k <= |value| && Matches(pattern[1..], value[k..])
    decreases |value|
  {
    assert value[0..] == value;
    if value != [] {
      StarMatchesAnySuffix(pattern, value[1..]);
      if Matches(pattern, value[1..]) {
        var k :| 0 <= k <= |value[1..]| && Matches(pattern[1..], value[1..][k..]);
        assert value[1..][k..] == value[k + 1..];
      }
      forall k | 1 <= k <= |value| && Matches(pattern[1..], value[k..]) ensures Matches(pattern, value[1..]) {
        assert value[k..] == value[1..][k - 1..];
      }
    }
  }

  /** Some position that the row marks has the rest of the pattern match the rest of the value. */
  ghost predicate RowMatches(row: seq<bool>, rest: Text, value: Text)
    requires |row| == |value| + 1
  {
    exists k :: 0 <= k <= |value| && row[k] && Matches(rest, value[k..])
  }

  /** What one pattern element does to a row of reachable positions. */
  ghost predicate NextRow(row: seq<bool>, next: seq<bool>, rest: Text, after: Text, value: Text)
    requires |row| == |next| == |value| + 1
  {
    RowMatches(row, rest, value) <==> RowMatches(next, after, value)
  }

  /** Whether any position up to `k` is marked. */
  function AnyUpTo(row: seq<bool>, k: nat): bool
    requires k < |row|
  {
    row[k] || (k > 0 && AnyUpTo(row, k - 1))
  }

  lemma {:induction false} AnyUpToMeans(row: seq<bool>, k: nat)
    requires k < |row|
    ensures AnyUpTo(row, k) <==> exists l :: 0 <= l <= k && row[l]
  {
    if k > 0 {
      AnyUpToMeans(row, k - 1);
    }
  }

  lemma StarRow(row: seq<bool>, next: seq<bool>, rest: Text, value: Text)
    requires |row| == |next| == |value| + 1 && rest != [] && rest[0] == STAR
    requires forall k :: 0 <= k <= |value| ==> next[k] == AnyUpTo(row, k)
    ensures NextRow(row, next, rest, rest[1..], value)
  {
    if RowMatches(row, rest, value) {
      var k :| 0 <= k <= |value| && row[k] && Matches(rest, value[k..]);
      StarMatchesAnySuffix(rest, value[k..]);
      var l :| 0 <= l <= |value[k..]| && Matches(rest[1..], value[k..][l..]);
      assert value[k..][l..] == value[k + l..];
      AnyUpToMeans(row, k + l);
      assert next[k + l];
    }
    if RowMatches(next, rest[1..], value) {
      var k :| 0 <= k <= |value| && next[k] && Matches(rest[1..], value[k..]);
      AnyUpToMeans(row, k);
      var l :| 0 <= l <= k && row[l];
      assert value[l..][k - l..] == value[k..];
      StarMatchesAnySuffix(rest, value[l..]);
    }
  }

  /** The bytes one element takes; `None` stands for any byte. */
  predicate InClass(class_: Option<Text>, b: byte) {
    class_.Some? ==> b in class_.value
  }

  method GlobMatch(pattern: Text, value: Text) returns (accepted: bool)
    ensures accepted <==> Matches(pattern, value)
  {
    var row := new bool[|value| + 1](_ => false);
    row[0] := true;
    var index := 0;
    assert value[0..] == value && pattern[0..] == pattern;
    assert RowMatches(row[..], pattern, value) <==> Matches(pattern, value);
    while index < |pattern|
      invariant 0 <= index <= |pattern| && row.Length == |value| + 1
      invariant RowMatches(row[..], pattern[index..], value) <==> Matches(pattern, value)
    {
      index, row := GlobStep(pattern, value, index, row);
    }
    assert pattern[index..] == [];
    EndRow(row[..], value);
    accepted := row[|value|];
  }

  lemma EndRow(row: seq<bool>, value: Text)
    requires |row| == |value| + 1
    ensures RowMatches(row, [], value) <==> row[|value|]
  {
    assert value[|value|..] == [];
    if RowMatches(row, [], value) {
      var k :| 0 <= k <= |value| && row[k] && Matches([], value[k..]);
      assert |value[k..]| == |value| - k;
    }
  }

  /** One pattern element; a bracket takes its whole class at once. */
  method GlobStep(pattern: Text, value: Text, index: nat, row: array<bool>) returns (index': nat, next: array<bool>)
    requires index < |pattern| && row.Length == |value| + 1
    ensures index < index' <= |pattern| && next.Length == |value| + 1
    ensures NextRow(row[..], next[..], pattern[index..], pattern[index'..], value)
  {
    next := new bool[|value| + 1](_ => false);
    var rest := pattern[index..];
    index' := index + 1;
    assert rest[1..] == pattern[index + 1..];
    if pattern[index] == STAR {
      StarFill(row, next, value);
      StarRow(row[..], next[..], rest, value);
    } else if pattern[index] == QUESTION {
      ByteFill(row, next, value, None);
    } else if pattern[index] == OPEN {
      var close := ClosingBracket(pattern, index + 1);
      if close.Some? {
        var class_ := Some(pattern[index + 1..close.value]);
        ByteFill(row, next, value, class_);
        index' := close.value + 1;
        assert rest[1..close.value - index] == pattern[index + 1..close.value];
        assert rest[close.value - index + 1..] == pattern[index'..];
      } else {
      }
    } else {
      ByteFill(row, next, value, Some([pattern[index]]));
    }
  }

  method StarFill(row: array<bool>, next: array<bool>, value: Text)
    requires row.Length == next.Length == |value| + 1 && row != next
    modifies next
    ensures forall k :: 0 <= k <= |value| ==> next[k] == AnyUpTo(row[..], k)
  {
    next[0] := row[0];
    for position := 1 to |value| + 1
      invariant forall k :: 0 <= k < position ==> next[k] == AnyUpTo(row[..], k)
    {
      next[position] := row[position] || next[position - 1];
    }
  }

  method ByteFill(row: array<bool>, next: array<bool>, value: Text, class_: Option<Text>)
    requires row.Length == next.Length == |value| + 1 && row != next && !next[0]
    modifies next
    ensures !next[0] && forall k :: 1 <= k <= |value| ==> (next[k] <==> row[k - 1] && InClass(class_, value[k - 1]))
  {
    for position := 1 to |value| + 1
      invariant !next[0] && forall k :: 1 <= k < position ==> (next[k] <==> row[k - 1] && InClass(class_, value[k - 1]))
    {
      next[position] := row[position - 1] && InClass(class_, value[position - 1]);
    }
  }
}
