/**
 Gray-code mutation. Numbers stand for bit strings of any width: `n >> 1` is `n / 2`, and
 exclusive or is defined bit by bit.
 */
module GrayCode {

  predicate Odd(n: nat) { n % 2 == 1 }

  function Xor(a: nat, b: nat): nat {
    if a == 0 && b == 0 then 0 else 2 * Xor(a / 2, b / 2) + if Odd(a) != Odd(b) then 1 else 0
  }

  function Pow2(k: nat): (p: nat)
    ensures p > 0
  {
    if k == 0 then 1 else 2 * Pow2(k - 1)
  }

  lemma XorParts(a: nat, b: nat)
    ensures Xor(a, b) / 2 == Xor(a / 2, b / 2) && (Odd(Xor(a, b)) <==> Odd(a) != Odd(b))
  {
  }

  /** Two numbers with equal halves and equal low bits are equal. */
  lemma SameParts(a: nat, b: nat)
    requires a / 2 == b / 2 && Odd(a) == Odd(b)
    ensures a == b
  {
  }

  lemma {:induction false} XorCommutes(a: nat, b: nat)
    ensures Xor(a, b) == Xor(b, a)
  {
    if a != 0 || b != 0 {
      XorCommutes(a / 2, b / 2);
    }
  }

  lemma {:induction false} XorAssociates(a: nat, b: nat, c: nat)
    ensures Xor(Xor(a, b), c) == Xor(a, Xor(b, c))
    decreases a + b + c
  {
    if a != 0 || b != 0 || c != 0 {
      XorAssociates(a / 2, b / 2, c / 2);
      XorHalves(a, b, c);
      SameParts(Xor(Xor(a, b), c), Xor(a, Xor(b, c)));
    }
  }

  lemma XorHalves(a: nat, b: nat, c: nat)
    ensures Odd(Xor(Xor(a, b), c)) == Odd(Xor(a, Xor(b, c)))
    ensures Xor(Xor(a, b), c) / 2 == Xor(Xor(a / 2, b / 2), c / 2)
    ensures Xor(a, Xor(b, c)) / 2 == Xor(a / 2, Xor(b / 2, c / 2))
  {
    XorParts(a, b);
    XorParts(b, c);
    XorParts(Xor(a, b), c);
    XorParts(a, Xor(b, c));
  }

  lemma {:induction false} XorSelf(a: nat)
    ensures Xor(a, a) == 0 && Xor(a, 0) == a && Xor(0, a) == a
  {
    if a != 0 {
      XorSelf(a / 2);
    }
  }

  lemma XorCancels(a: nat, b: nat)
    ensures Xor(Xor(a, b), b) == a
  {
    XorAssociates(a, b, b);
    XorSelf(a);
    XorSelf(b);
  }

  /** Exclusive or stays within the width of its arguments. */
  lemma {:induction false} XorWidth(a: nat, b: nat, k: nat)
    requires a < Pow2(k) && b < Pow2(k)
    ensures Xor(a, b) < Pow2(k)
  {
    if k > 0 {
      XorWidth(a / 2, b / 2, k - 1);
    }
  }

  function Encode(n: nat): nat { Xor(n, n / 2) }

  function Decode(n: nat): nat {
    if n == 0 then 0 else Xor(n, Decode(n / 2))
  }

  /** The decoding loop ends and computes `Decode`. */
  method GrayDecode(word: nat) returns (p: nat)
    ensures p == Decode(word)
  {
    var n := word;
    p := n;
    while n / 2 != 0
      invariant Xor(p, Decode(n / 2)) == Decode(word)
      decreases n
    {
      XorParts(n, 0);
      n := n / 2;
      XorAssociates(p, n, Decode(n / 2));
      p := Xor(p, n);
    }
    XorSelf(p);
  }

  lemma {:induction false} DecodeHalf(n: nat)
    ensures Decode(n) / 2 == Decode(n / 2)
  {
    if n != 0 {
      DecodeHalf(n / 2);
      XorParts(n, Decode(n / 2));
    }
  }

  lemma {:induction false} DecodeDistributes(a: nat, b: nat)
    ensures Decode(Xor(a, b)) == Xor(Decode(a), Decode(b))
    decreases a + b
  {
    XorParts(a, b);
    if a == 0 && b == 0 {
    } else {
      DecodeDistributes(a / 2, b / 2);
      XorSelf(0);
      var x, y := Decode(a / 2), Decode(b / 2);
      assert Decode(a) == Xor(a, x) && Decode(b) == Xor(b, y) by {
        assert a == 0 ==> x == 0;
        assert b == 0 ==> y == 0;
      }
      XorInterchange(a, b, x, y);
      assert Decode(Xor(a, b)) == Xor(Xor(a, b), Decode(Xor(a, b) / 2)) by {
        XorSelf(Decode(0));
      }
    }
  }

  lemma XorInterchange(a: nat, b: nat, x: nat, y: nat)
    ensures Xor(Xor(a, b), Xor(x, y)) == Xor(Xor(a, x), Xor(b, y))
  {
    XorAssociates(a, b, Xor(x, y));
    XorAssociates(b, x, y);
    XorCommutes(b, x);
    XorAssociates(x, b, y);
    XorAssociates(a, x, Xor(b, y));
  }

  lemma DecodeUnfolds(n: nat)
    ensures Decode(n) == Xor(n, Decode(n / 2))
  {
    XorSelf(0);
  }

  /** Encoding and decoding undo each other, at every width. */
  lemma GrayInverse(n: nat)
    ensures Encode(Decode(n)) == n
    ensures Decode(Encode(n)) == n
  {
    DecodeHalf(n);
    DecodeUnfolds(n);
    XorCancels(n, Decode(n / 2));
    DecodeDistributes(n, n / 2);
    XorCancels(n, Decode(n / 2));
  }

  lemma {:induction false} DecodeWidth(n: nat, k: nat)
    requires n < Pow2(k)
    ensures Decode(n) < Pow2(k)
  {
    if k > 0 {
      DecodeWidth(n / 2, k - 1);
      XorWidth(n, Decode(n / 2), k);
    }
  }

  /** `mutation_func` at width `k`: flip the bits of `bits << shift`, cut to the width, in the Gray code. */
  function Mutation(gene: nat, bits: nat, shift: nat, k: nat): nat {
    Decode(Xor(Encode(gene), (bits * Pow2(shift)) % Pow2(k)))
  }

  /** A mutation is exclusive or with the decoded mask. */
  lemma MutationIsXor(gene: nat, bits: nat, shift: nat, k: nat)
    ensures Mutation(gene, bits, shift, k) == Xor(gene, Decode((bits * Pow2(shift)) % Pow2(k)))
  {
    var mask := (bits * Pow2(shift)) % Pow2(k);
    DecodeDistributes(Encode(gene), mask);
    GrayInverse(gene);
  }

  lemma MutationWidth(gene: nat, bits: nat, shift: nat, k: nat)
    requires gene < Pow2(k)
    ensures Mutation(gene, bits, shift, k) < Pow2(k)
  {
    var mask := (bits * Pow2(shift)) % Pow2(k);
    MutationIsXor(gene, bits, shift, k);
    DecodeWidth(mask, k);
    XorWidth(gene, Decode(mask), k);
  }

  /** Applying one mutation twice gives the gene back. */
  lemma MutationTwice(gene: nat, bits: nat, shift: nat, k: nat)
    ensures Mutation(Mutation(gene, bits, shift, k), bits, shift, k) == gene
  {
    var mask := (bits * Pow2(shift)) % Pow2(k);
    MutationIsXor(gene, bits, shift, k);
    MutationIsXor(Xor(gene, Decode(mask)), bits, shift, k);
    XorCancels(gene, Decode(mask));
  }

  lemma {:induction false} Pow2Splits(a: nat, b: nat)
    ensures Pow2(a + b) == Pow2(a) * Pow2(b)
  {
    if a > 0 {
      Pow2Splits(a - 1, b);
      assert Pow2(a) * Pow2(b) == 2 * (Pow2(a - 1) * Pow2(b));
    }
  }

  lemma OddIsNotEven(bits: nat, p: nat, q: nat, t: nat)
    requires Odd(bits) && p > 0
    ensures bits * p != p * (2 * q) * t
  {
    if bits * p == p * (2 * q) * t {
      assert p * (2 * q) * t == (2 * (q * t)) * p;
      CancelFactor(bits, 2 * (q * t), p);
    }
  }

  lemma DivisionIdentity(x: nat, m: nat)
    requires m > 0
    ensures x == m * (x / m) + x % m
  {
  }

  /** A shifted odd pattern keeps its lowest bit inside the width, so the mask is not zero. */
  lemma OddMaskSurvives(bits: nat, shift: nat, k: nat)
    requires Odd(bits) && shift < k
    ensures (bits * Pow2(shift)) % Pow2(k) != 0
  {
    Pow2Splits(shift, k - shift);
    OddMultiple(bits, Pow2(shift), Pow2(k - shift - 1), Pow2(k));
  }

  lemma OddMultiple(bits: nat, p: nat, q: nat, m: nat)
    requires Odd(bits) && p > 0 && m > 0 && m == p * (2 * q)
    ensures (bits * p) % m != 0
  {
    var x := bits * p;
    DivisionIdentity(x, m);
    OddIsNotEven(bits, p, q, x / m);
  }

  lemma CancelFactor(a: int, b: int, p: int)
    requires a * p == b * p && p > 0
    ensures a == b
  {
    assert (a - b) * p == 0;
  }

  lemma XorChanges(a: nat, b: nat)
    ensures Xor(a, b) == a <==> b == 0
  {
    XorSelf(a);
    if Xor(a, b) == a {
      XorAssociates(a, a, b);
      XorSelf(b);
    }
  }

  /** Mutation is a no-op exactly for the zero mask; with an odd pattern and a shift below the width it never is. */
  lemma MutationChangesIff(gene: nat, bits: nat, shift: nat, k: nat)
    ensures Mutation(gene, bits, shift, k) != gene <==> (bits * Pow2(shift)) % Pow2(k) != 0
    ensures Odd(bits) && shift < k ==> Mutation(gene, bits, shift, k) != gene
  {
    var mask := (bits * Pow2(shift)) % Pow2(k);
    MutationIsXor(gene, bits, shift, k);
    XorChanges(gene, Decode(mask));
    if Decode(mask) == 0 {
      GrayInverse(mask);
      assert Encode(0) == 0;
    }
    if Odd(bits) && shift < k {
      OddMaskSurvives(bits, shift, k);
    }
  }

  /** What makes it a Gray code: neighbouring numbers have code words one bit apart. */
  lemma {:induction false} NeighboursDifferInOneBit(n: nat) returns (j: nat)
    ensures Xor(Encode(n), Encode(n + 1)) == Pow2(j)
  {
    EncodeParts(n);
    EncodeParts(n + 1);
    Successor(n);
    var a, b := Encode(n), Encode(n + 1);
    XorParts(a, b);
    if Odd(n) {
      var i := NeighboursDifferInOneBit(n / 2);
      j := i + 1;
      SameParts(Xor(a, b), Pow2(j));
    } else {
      j := 0;
      XorSelf(a / 2);
      SameParts(Xor(a, b), 1);
    }
  }

  lemma EncodeParts(n: nat)
    ensures Encode(n) / 2 == Encode(n / 2) && (Odd(Encode(n)) <==> Odd(n) != Odd(n / 2))
  {
    XorParts(n, n / 2);
  }

  lemma Successor(n: nat)
    ensures Odd(n + 1) == !Odd(n) && Odd(n / 2 + 1) == !Odd(n / 2)
    ensures (n + 1) / 2 == if Odd(n) then n / 2 + 1 else n / 2
  {
  }
}
