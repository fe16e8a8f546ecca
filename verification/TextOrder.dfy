/**
 Byte strings, and strings by their code points, in lexicographic order. In UTF-8 both are the order of Rust's `str`.
 */
module TextOrder {

  newtype byte = x: int | 0 <= x < 256

  type Text = seq<byte>

  predicate Less(a: Text, b: Text) {
    b != [] && (a == [] || a[0] < b[0] || (a[0] == b[0] && Less(a[1..], b[1..])))
  }

  lemma {:induction false} LessIsTotal(a: Text, b: Text)
    ensures a == b || Less(a, b) || Less(b, a)
  {
    if a != [] && b != [] && a[0] == b[0] {
      LessIsTotal(a[1..], b[1..]);
      if a[1..] == b[1..] {
        assert a == [a[0]] + a[1..];
        assert b == [b[0]] + b[1..];
      }
    }
  }

  lemma {:induction false} LessIsAsymmetric(a: Text, b: Text)
    requires Less(a, b)
    ensures !Less(b, a) && a != b
  {
    if a != [] && a[0] == b[0] {
      LessIsAsymmetric(a[1..], b[1..]);
    }
  }

  lemma {:induction false} LessIsTransitive(a: Text, b: Text, c: Text)
    requires Less(a, b) && Less(b, c)
    ensures Less(a, c)
  {
    if a != [] && a[0] == b[0] == c[0] {
      LessIsTransitive(a[1..], b[1..], c[1..]);
    }
  }

  /** At the first difference `a` has the smaller byte, or it ends there. */
  ghost predicate DiffersBelow(a: Text, b: Text, k: nat) {
    k <= |a| && k < |b| && a[..k] == b[..k] && (k < |a| ==> a[k] < b[k])
  }

  lemma {:induction false} LessIsLexicographic(a: Text, b: Text)
    ensures Less(a, b) <==> exists k: nat :: DiffersBelow(a, b, k)
  {
    if a == [] || b == [] || a[0] != b[0] {
      LessAtOnce(a, b);
    } else {
      LessIsLexicographic(a[1..], b[1..]);
      if k: nat :| DiffersBelow(a, b, k) {
        assert a[1..][..k - 1] == a[..k][1..] == b[..k][1..] == b[1..][..k - 1];
        assert DiffersBelow(a[1..], b[1..], k - 1);
      }
      if k: nat :| DiffersBelow(a[1..], b[1..], k) {
        assert a[..k + 1] == [a[0]] + a[1..][..k] == [b[0]] + b[1..][..k] == b[..k + 1];
        assert DiffersBelow(a, b, k + 1);
      }
    }
  }

  lemma FirstAgrees(a: Text, b: Text, k: nat)
    requires DiffersBelow(a, b, k) && k > 0
    ensures a != [] && b != [] && a[0] == b[0]
  {
    assert a[0] == a[..k][0] == b[..k][0];
  }

  lemma LessAtOnce(a: Text, b: Text)
    requires a == [] || b == [] || a[0] != b[0]
    ensures Less(a, b) <==> exists k: nat :: DiffersBelow(a, b, k)
  {
    if k: nat :| DiffersBelow(a, b, k) {
      if k > 0 {
        FirstAgrees(a, b, k);
      }
    }
    if Less(a, b) {
      assert DiffersBelow(a, b, 0);
    }
  }

  predicate Precedes(a: string, b: string) {
    b != "" && (a == "" || a[0] < b[0] || (a[0] == b[0] && Precedes(a[1..], b[1..])))
  }

  lemma {:induction false} PrecedesIsTotal(a: string, b: string)
    ensures a == b || Precedes(a, b) || Precedes(b, a)
  {
    if a != "" && b != "" && a[0] == b[0] {
      PrecedesIsTotal(a[1..], b[1..]);
      if a[1..] == b[1..] {
        assert a == [a[0]] + a[1..];
        assert b == [b[0]] + b[1..];
      }
    }
  }

  lemma {:induction false} PrecedesIsTransitive(a: string, b: string, c: string)
    requires Precedes(a, b) && Precedes(b, c)
    ensures Precedes(a, c)
  {
    if a != "" && a[0] == b[0] == c[0] {
      PrecedesIsTransitive(a[1..], b[1..], c[1..]);
    }
  }
}
