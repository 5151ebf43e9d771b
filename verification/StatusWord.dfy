/** A machine word read bit by bit.

    The word is the number it denotes; bit k is the parity of the word shifted right k places.
    The definitions recurse on the shifted word, so every fact about them is a plain induction. */
module StatusWord {

  /** The C test  w & (1 << k). */
  predicate IsSet(w: nat, k: nat)
    decreases k
  {
    if k == 0 then w % 2 == 1 else IsSet(w / 2, k - 1)
  }

  /** The C expression  w & ~(1 << k). */
  function ClearBit(w: nat, k: nat): nat
    decreases k
  {
    if k == 0 then w - w % 2 else 2 * ClearBit(w / 2, k - 1) + w % 2
  }

  /** The C expression  w | (1 << k). */
  function RaiseBit(w: nat, k: nat): nat
    decreases k
  {
    if k == 0 then w - w % 2 + 1 else 2 * RaiseBit(w / 2, k - 1) + w % 2
  }

  /** The word with ones in places 0..n-1. */
  function Ones(n: nat): nat {
    if n == 0 then 0 else 2 * Ones(n - 1) + 1
  }

  lemma {:induction false} ClearBitMeaning(w: nat, k: nat, j: nat)
    ensures IsSet(ClearBit(w, k), j) <==> IsSet(w, j) && j != k
    decreases k
  {
    if k > 0 && j > 0 {
      ClearBitMeaning(w / 2, k - 1, j - 1);
    }
  }

  lemma {:induction false} RaiseBitMeaning(w: nat, k: nat, j: nat)
    ensures IsSet(RaiseBit(w, k), j) <==> IsSet(w, j) || j == k
    decreases k
  {
    if k > 0 && j > 0 {
      RaiseBitMeaning(w / 2, k - 1, j - 1);
    }
  }

  lemma {:induction false} OnesMeaning(n: nat, k: nat)
    ensures IsSet(Ones(n), k) <==> k < n
    decreases k
  {
    if k == 0 {
    } else if n == 0 {
      OnesMeaning(0, k - 1);
    } else {
      OnesMeaning(n - 1, k - 1);
    }
  }

  /** A word that fits in n places and has no bit set is zero. */
  lemma {:induction false} NoBitMeansZero(w: nat, n: nat)
    requires w <= Ones(n)
    requires forall k: nat :: k < n ==> !IsSet(w, k)
    ensures w == 0
    decreases n
  {
    if n > 0 {
      assert !IsSet(w, 0);
      forall k: nat | k < n - 1
        ensures !IsSet(w / 2, k)
      {
        assert !IsSet(w, k + 1);
      }
      NoBitMeansZero(w / 2, n - 1);
    }
  }

  /** Clearing or raising a bit below place n keeps the word within n places. */
  lemma {:induction false} BitOpsFit(w: nat, k: nat, n: nat)
    requires k < n && w <= Ones(n)
    ensures ClearBit(w, k) <= Ones(n) && RaiseBit(w, k) <= Ones(n)
    decreases k
  {
    if k > 0 {
      BitOpsFit(w / 2, k - 1, n - 1);
    }
  }
}
