/** Shifts and bitwise operations of unsigned machine words, on naturals, one binary digit at a time. */
module Bits {

  function Pow2(n: nat): (r: nat)
    ensures r > 0
  {
    if n == 0 then 1 else 2 * Pow2(n - 1)
  }

  /** `x << n` without loss. */
  function Shl(x: nat, n: nat): (r: nat)
    ensures x > 0 ==> r > 0
  {
    if n == 0 then x else 2 * Shl(x, n - 1)
  }

  /** `x >> n` */
  function Shr(x: nat, n: nat): nat {
    if n == 0 then x else Shr(x / 2, n - 1)
  }

  /** The low `n` digits: what an `n`-bit word keeps of `x`. */
  function Low(x: nat, n: nat): nat {
    if n == 0 then 0 else x % 2 + 2 * Low(x / 2, n - 1)
  }

  /** `x | y` */
  function Or(x: nat, y: nat): nat {
    if x == 0 && y == 0 then 0
    else (if x % 2 == 1 || y % 2 == 1 then 1 else 0) + 2 * Or(x / 2, y / 2)
  }

  /** `x & y` */
  function And(x: nat, y: nat): nat {
    if x == 0 && y == 0 then 0
    else (if x % 2 == 1 && y % 2 == 1 then 1 else 0) + 2 * And(x / 2, y / 2)
  }

  lemma {:induction false} OrZero(x: nat)
    ensures Or(x, 0) == x
  {
    if x == 0 {
    } else {
      OrZero(x / 2);
    }
  }

  /** Words that share no digit: OR is addition. */
  lemma {:induction false} OrDisjoint(x: nat, y: nat, n: nat)
    requires y < Pow2(n)
    ensures Or(Shl(x, n), y) == Shl(x, n) + y
  {
    if n == 0 {
      OrZero(x);
    } else {
      OrDisjoint(x, y / 2, n - 1);
    }
  }

  lemma {:induction false} AndZero(x: nat)
    ensures And(x, 0) == 0
  {
    if x == 0 {
    } else {
      AndZero(x / 2);
    }
  }

  /** Masking with `2^n - 1` keeps the low digits. */
  lemma {:induction false} AndMask(x: nat, n: nat)
    ensures And(x, Pow2(n) - 1) == Low(x, n)
  {
    if n == 0 {
      AndZero(x);
    } else {
      AndMask(x / 2, n - 1);
      var m := Pow2(n - 1);
      assert (2 * m - 1) / 2 == m - 1 && (2 * m - 1) % 2 == 1;
    }
  }

  lemma {:induction false} ShlOne(n: nat)
    ensures Shl(1, n) == Pow2(n) && Shl(0, n) == 0
  {
    if n == 0 {
    } else {
      ShlOne(n - 1);
    }
  }

  lemma {:induction false} BelowPower(n: nat)
    ensures n < Pow2(n)
  {
    if n == 0 {
    } else {
      BelowPower(n - 1);
    }
  }

  /** A high part over a low part is taken apart again. */
  lemma {:induction false} TakeApart(x: nat, y: nat, n: nat)
    requires y < Pow2(n)
    ensures Shr(Shl(x, n) + y, n) == x && Low(Shl(x, n) + y, n) == y
  {
    if n == 0 {
    } else {
      TakeApart(x, y / 2, n - 1);
      assert (Shl(x, n) + y) / 2 == Shl(x, n - 1) + y / 2;
    }
  }

  lemma {:induction false} PutTogether(g: nat, n: nat)
    ensures g == Shl(Shr(g, n), n) + Low(g, n) && Low(g, n) < Pow2(n)
  {
    if n == 0 {
    } else {
      PutTogether(g / 2, n - 1);
    }
  }

  lemma {:induction false} LowSmall(x: nat, n: nat)
    requires x < Pow2(n)
    ensures Low(x, n) == x
  {
    if n == 0 {
    } else {
      LowSmall(x / 2, n - 1);
    }
  }

  lemma {:induction false} Bound(x: nat, m: nat, y: nat, n: nat)
    requires y < Pow2(n)
    ensures Shl(x, n) + y < Pow2(m + n) <==> x < Pow2(m)
  {
    if n == 0 {
    } else {
      Bound(x, m, y / 2, n - 1);
    }
  }
}
