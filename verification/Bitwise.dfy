/** Single bits of machine words, as the shift-and-mask loops of the tools see them. */
module Bitwise {
  predicate BitAt(x: nat, k: nat)
    decreases k
  {
    if k == 0 then x % 2 == 1 else BitAt(x / 2, k - 1)
  }

  function Pow2(k: nat): (w: nat)
    ensures w > 0
  {
    if k == 0 then 1 else 2 * Pow2(k - 1)
  }

  /** `a & b` */
  function And(a: nat, b: nat): nat {
    if a == 0 || b == 0 then 0 else 2 * And(a / 2, b / 2) + (if a % 2 == 1 && b % 2 == 1 then 1 else 0)
  }

  /** `a | b` */
  function Or(a: nat, b: nat): nat {
    if a == 0 then b else if b == 0 then a
    else 2 * Or(a / 2, b / 2) + (if a % 2 == 1 || b % 2 == 1 then 1 else 0)
  }

  /** __builtin_ctz: the position of the lowest set bit. */
  function Ctz(x: nat): nat
    requires x > 0
  {
    if x % 2 == 1 then 0 else 1 + Ctz(x / 2)
  }

  lemma {:induction false} ZeroBits(k: nat)
    ensures !BitAt(0, k)
  {
    if k > 0 {
      ZeroBits(k - 1);
    }
  }

  lemma {:induction false} AndBits(a: nat, b: nat, k: nat)
    ensures BitAt(And(a, b), k) <==> BitAt(a, k) && BitAt(b, k)
    decreases k
  {
    if a == 0 || b == 0 {
      ZeroBits(k);
    } else if k > 0 {
      AndBits(a / 2, b / 2, k - 1);
    }
  }

  lemma {:induction false} OrBits(a: nat, b: nat, k: nat)
    ensures BitAt(Or(a, b), k) <==> BitAt(a, k) || BitAt(b, k)
    decreases k
  {
    if a == 0 || b == 0 {
      ZeroBits(k);
    } else if k > 0 {
      OrBits(a / 2, b / 2, k - 1);
    }
  }

  lemma {:induction false} Pow2Bits(n: nat, k: nat)
    ensures BitAt(Pow2(n), k) <==> k == n
    decreases n
  {
    if n == 0 && k > 0 {
      ZeroBits(k - 1);
    } else if n > 0 && k > 0 {
      Pow2Bits(n - 1, k - 1);
    }
  }

  lemma {:induction false} CtzIsLowest(x: nat, k: nat)
    requires x > 0
    ensures BitAt(x, Ctz(x)) && (BitAt(x, k) ==> Ctz(x) <= k)
    decreases x
  {
    if x % 2 == 0 {
      CtzIsLowest(x / 2, if k == 0 then 0 else k - 1);
    }
  }

  /** `x & (x - 1)` clears exactly the lowest set bit. */
  lemma {:induction false} ClearsLowest(x: nat, k: nat)
    requires x > 0
    ensures And(x, x - 1) < x
    ensures BitAt(And(x, x - 1), k) <==> BitAt(x, k) && k != Ctz(x)
    decreases x
  {
    if x % 2 == 1 {
      assert (x - 1) / 2 == x / 2;
      AndBits(x, x - 1, k);
      AndItself(x / 2);
    } else {
      assert (x - 1) / 2 == x / 2 - 1;
      ClearsLowest(x / 2, if k == 0 then 0 else k - 1);
    }
  }

  lemma {:induction false} AndItself(x: nat)
    ensures And(x, x) == x
  {
    if x > 0 {
      AndItself(x / 2);
    }
  }

  lemma {:induction false} SameBits(a: nat, b: nat)
    requires forall k :: 0 <= k ==> (BitAt(a, k) <==> BitAt(b, k))
    ensures a == b
    decreases a + b
  {
    if a != 0 || b != 0 {
      assert BitAt(a, 0) <==> BitAt(b, 0);
      forall k | 0 <= k ensures BitAt(a / 2, k) <==> BitAt(b / 2, k) {
        assert BitAt(a, k + 1) <==> BitAt(b, k + 1);
      }
      SameBits(a / 2, b / 2);
    }
  }

  lemma {:induction false} HighBits(x: nat, n: nat, k: nat)
    requires x < Pow2(n) && n <= k
    ensures !BitAt(x, k)
    decreases n
  {
    if n == 0 {
      ZeroBits(k);
    } else {
      HighBits(x / 2, n - 1, k - 1);
    }
  }

  lemma {:induction false} OrBound(a: nat, b: nat, n: nat)
    requires a < Pow2(n) && b < Pow2(n)
    ensures Or(a, b) < Pow2(n)
    decreases n
  {
    if n > 0 && a > 0 && b > 0 {
      OrBound(a / 2, b / 2, n - 1);
    }
  }

  lemma {:induction false} Pow2Grows(m: nat, n: nat)
    requires m < n
    ensures Pow2(m) < Pow2(n)
    decreases n
  {
    if m < n - 1 {
      Pow2Grows(m, n - 1);
    }
  }
}
