/**
 Model of `Log2Floor` and `Log2Ceiling` (turbo/base/bits.h). A `uint32_t` is a number
 below 2^32, and shifting it right by one place halves it.
 */
module Bits {

  const UINT32_LIMIT := 0x1_0000_0000

  function Pow2(k: nat): (r: nat)
    ensures r >= 1
  {
    if k == 0 then 1 else 2 * Pow2(k - 1)
  }

  lemma LimitIsPow2()
    ensures Pow2(32) == UINT32_LIMIT && Pow2(4 + 1) == 32
  {
    assert Pow2(4) == 0x10;
    assert Pow2(8) == 0x100;
    assert Pow2(12) == 0x1000;
    assert Pow2(16) == 0x10000;
    assert Pow2(20) == 0x100000;
    assert Pow2(24) == 0x1000000;
    assert Pow2(28) == 0x10000000;
  }

  lemma {:induction false} Pow2Grows(a: nat, b: nat)
    requires a <= b
    ensures Pow2(a) <= Pow2(b)
    decreases b - a
  {
    if a < b {
      Pow2Grows(a, b - 1);
    }
  }

  /** A number lies between two neighbouring powers of two in one place only. */
  lemma LogIsUnique(n: nat, i: nat, j: nat)
    requires Pow2(i) <= n < Pow2(i + 1) && Pow2(j) <= n < Pow2(j + 1)
    ensures i == j
  {
    if i < j {
      Pow2Grows(i + 1, j);
    } else if j < i {
      Pow2Grows(j + 1, i);
    }
  }

  /** `v >> k` */
  function Shr(v: nat, k: nat): nat {
    if k == 0 then v else Shr(v / 2, k - 1)
  }

  lemma {:induction false} ShrAdds(v: nat, a: nat, b: nat)
    ensures Shr(Shr(v, a), b) == Shr(v, a + b)
    decreases a
  {
    if a > 0 {
      ShrAdds(v / 2, a - 1, b);
    }
  }

  /** Exactly the numbers below 2^k are shifted out by `k` places. */
  lemma {:induction false} ShrZero(v: nat, k: nat)
    ensures Shr(v, k) == 0 <==> v < Pow2(k)
    decreases k
  {
    if k > 0 {
      ShrZero(v / 2, k - 1);
    }
  }

  lemma ShrToOne(n: nat, log: nat)
    requires Shr(n, log) == 1 && n < UINT32_LIMIT
    ensures log < 32 && Pow2(log) <= n < Pow2(log + 1)
  {
    ShrAdds(n, log, 1);
    ShrZero(n, log);
    ShrZero(n, log + 1);
    if log >= 32 {
      Pow2Grows(32, log);
      LimitIsPow2();
    }
  }

  lemma Uint32Fits(n: nat)
    requires n < UINT32_LIMIT
    ensures Shr(n, Pow2(4 + 1)) == 0
  {
    LimitIsPow2();
    ShrZero(n, 32);
  }

  /** One round of the loop: half of the remaining width is shifted out, or was zero already. */
  lemma HalveWidth(n: nat, log: nat, value: nat, shift: nat)
    requires value == Shr(n, log) && Shr(value, 2 * shift) == 0
    ensures Shr(Shr(value, shift), shift) == 0 && Shr(value, shift) == Shr(n, log + shift)
  {
    ShrAdds(value, shift, shift);
    ShrAdds(n, log, shift);
  }

  /** `DKCHECK_EQ(value, 1u)` before the return is the assertion after the loop. */
  method Log2Floor(n: nat) returns (log: int)
    requires n < UINT32_LIMIT
    ensures n == 0 ==> log == -1
    ensures n > 0 ==> 0 <= log < 32 && Pow2(log) <= n < Pow2(log + 1)
  {
    if n == 0 {
      return -1;
    }
    log := 0;
    var value := n;
    var i := 4;
    Uint32Fits(n);
    while i >= 0
      invariant -1 <= i <= 4 && log >= 0
      invariant value == Shr(n, log) && value > 0 && Shr(value, Pow2(i + 1)) == 0
    {
      var shift := Pow2(i);
      var x := Shr(value, shift);
      HalveWidth(n, log, value, shift);
      if x != 0 {
        value := x;
        log := log + shift;
      }
      i := i - 1;
    }
    assert value == 1;
    ShrToOne(n, log);
  }

  /** The number `j` with 2^(j-1) < n <= 2^j, which for 1 is 0. */
  method Log2Ceiling(n: nat) returns (log: int)
    requires n < UINT32_LIMIT
    ensures n == 0 ==> log == -1
    ensures n > 0 ==> 0 <= log <= 32 && n <= Pow2(log) && (log == 0 || Pow2(log - 1) < n)
  {
    if n == 0 {
      return -1;
    }
    var floor := Log2Floor(n - 1);
    log := 1 + floor;
  }
}
