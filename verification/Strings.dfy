/**
 Strings as the vault orders them: lexicographically, character by character.
 Rust compares `str` values byte by byte; on UTF-8 that is the order of the code points.
 */
module Strings {

  datatype Ordering = Less | Equal | Greater

  function Compare(a: string, b: string): Ordering {
    if a == "" then
      if b == "" then Equal else Less
    else if b == "" then Greater
    else if a[0] < b[0] then Less
    else if b[0] < a[0] then Greater
    else Compare(a[1..], b[1..])
  }

  /** `a` comes before `b`: it is a proper prefix, or has the smaller character where they first differ. */
  ghost predicate Before(a: string, b: string) {
    a < b || exists k: nat :: DifferAt(a, b, k)
  }

  predicate DifferAt(a: string, b: string, k: nat) { k < |a| && k < |b| && a[..k] == b[..k] && a[k] < b[k] }

  lemma DifferAtTail(a: string, b: string, k: nat)
    requires a != "" && b != "" && a[0] == b[0]
    ensures DifferAt(a[1..], b[1..], k) <==> DifferAt(a, b, k + 1)
  {
    if k < |a| - 1 && k < |b| - 1 {
      assert a[..k + 1] == [a[0]] + a[1..][..k] && b[..k + 1] == [b[0]] + b[1..][..k];
      assert a[1..][..k] == a[..k + 1][1..] && b[1..][..k] == b[..k + 1][1..];
    }
  }

  lemma BeforeTail(a: string, b: string)
    requires a != "" && b != "" && a[0] == b[0]
    ensures Before(a, b) <==> Before(a[1..], b[1..])
  {
    assert a == [a[0]] + a[1..] && b == [b[0]] + b[1..];
    if k: nat :| DifferAt(a[1..], b[1..], k) {
      DifferAtTail(a, b, k);
    }
    if k: nat :| DifferAt(a, b, k) {
      DifferAtTail(a, b, k - 1);
    }
  }

  lemma BeforeByFirst(a: string, b: string)
    requires a != "" && b != "" && a[0] != b[0]
    ensures Before(a, b) <==> a[0] < b[0]
  {
    assert a[0] < b[0] ==> DifferAt(a, b, 0);
    if k: nat :| DifferAt(a, b, k) {
      assert k > 0 ==> a[..k][0] == b[..k][0];
    }
  }

  /** The comparison is the lexicographic order. */
  lemma {:induction false} CompareIsLexicographic(a: string, b: string)
    ensures Compare(a, b) == Less <==> Before(a, b)
  {
    if a != "" && b != "" {
      if a[0] == b[0] {
        CompareIsLexicographic(a[1..], b[1..]);
        BeforeTail(a, b);
      } else {
        BeforeByFirst(a, b);
      }
    }
  }

  lemma {:induction false} CompareEqual(a: string, b: string)
    ensures Compare(a, b) == Equal <==> a == b
  {
    if a != "" && b != "" {
      CompareEqual(a[1..], b[1..]);
      assert a == [a[0]] + a[1..] && b == [b[0]] + b[1..];
    }
  }

  lemma {:induction false} CompareFlip(a: string, b: string)
    ensures Compare(a, b) == Less <==> Compare(b, a) == Greater
    ensures Compare(a, b) == Equal <==> Compare(b, a) == Equal
  {
    if a != "" && b != "" {
      CompareFlip(a[1..], b[1..]);
    }
  }

  lemma {:induction false} CompareTransitive(a: string, b: string, c: string)
    requires Compare(a, b) != Greater && Compare(b, c) != Greater
    ensures Compare(a, c) != Greater
    ensures Compare(a, b) == Less || Compare(b, c) == Less ==> Compare(a, c) == Less
  {
    if a != "" && b != "" && c != "" && a[0] == b[0] == c[0] {
      CompareTransitive(a[1..], b[1..], c[1..]);
    }
  }

  /** A string never sorts before one of its prefixes. */
  lemma {:induction false} PrefixSortsFirst(p: string, s: string)
    requires p <= s
    ensures Compare(p, s) != Greater
  {
    if p != "" {
      PrefixSortsFirst(p[1..], s[1..]);
    }
  }

  /** The strings with a given prefix are contiguous in the order. */
  lemma {:induction false} PrefixIsConvex(p: string, a: string, b: string)
    requires p <= b
    requires Compare(p, a) != Greater && Compare(a, b) != Greater
    ensures p <= a
  {
    if p != "" {
      PrefixIsConvex(p[1..], a[1..], b[1..]);
      assert p == [p[0]] + p[1..] && a == [a[0]] + a[1..];
    }
  }
}
