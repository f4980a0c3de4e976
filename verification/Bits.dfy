/** Bits of machine words held as numbers, for the bitmaps of nanopb and of
    DTLS reassembly. */
module Bits {

  /** Bit `i` of `w`. */
  predicate Bit(w: nat, i: nat) {
    if i == 0 then w % 2 == 1 else Bit(w / 2, i - 1)
  }

  /** `a | b`. */
  function Or(a: nat, b: nat): nat {
    if a == 0 then b
    else if b == 0 then a
    else (if a % 2 == 1 || b % 2 == 1 then 1 else 0) + 2 * Or(a / 2, b / 2)
  }

  /** `1 << i`. */
  function One(i: nat): (w: nat)
    ensures w > 0
  {
    if i == 0 then 1 else 2 * One(i - 1)
  }

  /** `(1 << n) - 1`: the low `n` bits. */
  function LowOnes(n: nat): nat {
    One(n) - 1
  }

  /** `~((1 << lo) - 1) & ((1 << hi) - 1)` for `lo <= hi`. */
  function RangeMask(lo: nat, hi: nat): nat
    requires lo <= hi
    ensures RangeMask(lo, hi) < One(hi)
  {
    if lo == 0 then One(hi) - 1 else 2 * RangeMask(lo - 1, hi - 1)
  }

  lemma {:induction false} OneGrows(i: nat, j: nat)
    requires i <= j
    ensures One(i) <= One(j)
  {
    if i > 0 {
      OneGrows(i - 1, j - 1);
    }
  }

  lemma OneBound(i: nat, n: nat)
    requires i < n
    ensures One(i) < One(n)
  {
    OneGrows(i + 1, n);
  }

  lemma {:induction false} ZeroBit(i: nat)
    ensures !Bit(0, i)
  {
    if i > 0 {
      ZeroBit(i - 1);
    }
  }

  lemma {:induction false} OneBit(i: nat, j: nat)
    ensures Bit(One(i), j) <==> i == j
  {
    if i == 0 && j > 0 {
      ZeroBit(j - 1);
    } else if i > 0 && j > 0 {
      OneBit(i - 1, j - 1);
    }
  }

  lemma {:induction false} OrBit(a: nat, b: nat, i: nat)
    ensures Bit(Or(a, b), i) <==> Bit(a, i) || Bit(b, i)
  {
    ZeroBit(i);
    if a != 0 && b != 0 && i > 0 {
      OrBit(a / 2, b / 2, i - 1);
      assert Or(a, b) / 2 == Or(a / 2, b / 2);
    }
  }

  lemma {:induction false} OrBound(a: nat, b: nat, n: nat)
    requires a < One(n) && b < One(n)
    ensures Or(a, b) < One(n)
  {
    if n > 0 && a != 0 && b != 0 {
      OrBound(a / 2, b / 2, n - 1);
    }
  }

  lemma {:induction false} RangeBit(lo: nat, hi: nat, i: nat)
    requires lo <= hi
    ensures Bit(RangeMask(lo, hi), i) <==> lo <= i < hi
  {
    if lo == 0 {
      LowBit(hi, i);
    } else if i > 0 {
      RangeBit(lo - 1, hi - 1, i - 1);
    }
  }

  lemma {:induction false} LowBit(n: nat, i: nat)
    ensures Bit(One(n) - 1, i) <==> i < n
  {
    if n == 0 {
      ZeroBit(i);
    } else if i > 0 {
      LowBit(n - 1, i - 1);
      assert (One(n) - 1) / 2 == One(n - 1) - 1;
    }
  }

  predicate AllBits(w: nat, n: nat) {
    forall i :: 0 <= i < n ==> Bit(w, i)
  }

  /** A word of `n` bits is all ones iff each of its bits is set. */
  lemma {:induction false} AllOnes(w: nat, n: nat)
    requires w < One(n)
    ensures w == LowOnes(n) <==> AllBits(w, n)
  {
    if n > 0 {
      AllOnes(w / 2, n - 1);
      if w == LowOnes(n) {
        forall i | 0 <= i < n ensures Bit(w, i) {
          LowBit(n, i);
        }
      }
      if AllBits(w, n) {
        assert Bit(w, 0);
        forall i | 0 <= i < n - 1 ensures Bit(w / 2, i) {
          assert Bit(w, i + 1);
        }
        assert w == 2 * (w / 2) + 1 && w / 2 == One(n - 1) - 1;
      }
    }
  }

  lemma {:induction false} HighBitsClear(w: nat, n: nat, i: nat)
    requires w < One(n) && n <= i
    ensures !Bit(w, i)
  {
    if n == 0 {
      ZeroBit(i);
    } else {
      HighBitsClear(w / 2, n - 1, i - 1);
    }
  }

  /** `a & b`. */
  function And(a: nat, b: nat): nat {
    if a == 0 || b == 0 then 0
    else (if a % 2 == 1 && b % 2 == 1 then 1 else 0) + 2 * And(a / 2, b / 2)
  }

  /** `w & (1 << i)` is not zero iff bit `i` is set. */
  lemma {:induction false} AndOne(w: nat, i: nat)
    ensures And(w, One(i)) != 0 <==> Bit(w, i)
  {
    if w == 0 {
      ZeroBit(i);
    } else if i == 0 {
      assert And(w / 2, 0) == 0;
    } else {
      AndOne(w / 2, i - 1);
      assert One(i) == 2 * One(i - 1);
    }
  }

  /** `w << k`, before truncation. */
  function Shl(w: nat, k: nat): nat {
    if k == 0 then w else 2 * Shl(w, k - 1)
  }

  /** The low `n` bits of `w`. */
  function Low(w: nat, n: nat): (r: nat)
    ensures r < One(n)
  {
    if n == 0 then 0 else w % 2 + 2 * Low(w / 2, n - 1)
  }

  lemma {:induction false} ShlBit(w: nat, k: nat, i: nat)
    ensures Bit(Shl(w, k), i) <==> k <= i && Bit(w, i - k)
  {
    if k > 0 && i > 0 {
      ShlBit(w, k - 1, i - 1);
    }
  }

  lemma {:induction false} LowBits(w: nat, n: nat, i: nat)
    ensures Bit(Low(w, n), i) <==> i < n && Bit(w, i)
  {
    if n == 0 {
      ZeroBit(i);
    } else if i > 0 {
      LowBits(w / 2, n - 1, i - 1);
      assert Low(w, n) / 2 == Low(w / 2, n - 1);
    }
  }

  lemma {:induction false} FewBits(w: nat, n: nat, m: nat)
    requires n <= m && w < One(m) && forall j :: n <= j < m ==> !Bit(w, j)
    ensures w < One(n)
    decreases m
  {
    if m > 0 {
      forall j | 0 <= j < m - 1 && n <= j + 1
        ensures !Bit(w / 2, j)
      {
        assert !Bit(w, j + 1);
      }
      if n > 0 {
        FewBits(w / 2, n - 1, m - 1);
      } else {
        FewBits(w / 2, 0, m - 1);
        assert !Bit(w, 0);
      }
    }
  }
}
