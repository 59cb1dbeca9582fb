/** The 32-bit operators of ECMA-262 (sections 7.1.6, 7.1.7 and 13.9 to 13.12) on integers, and the
    three facts about masks that CIDR arithmetic needs. */
module Bits32 {
  const WORD: nat := 0x1_0000_0000

  function Pow2(k: nat): (r: nat)
    ensures r >= 1
  {
    if k == 0 then 1 else 2 * Pow2(k - 1)
  }

  function ToUint32(x: int): (u: nat)
    ensures u < WORD
  {
    x % 0x1_0000_0000
  }

  function ToInt32(x: int): int {
    var u := ToUint32(x);
    if u >= 0x8000_0000 then u - WORD else u
  }

  /** Bit by bit, least significant bit first. */
  function BitAnd(a: nat, b: nat): nat {
    if a == 0 then 0 else 2 * BitAnd(a / 2, b / 2) + (if a % 2 == 1 && b % 2 == 1 then 1 else 0)
  }

  function BitOr(a: nat, b: nat): nat {
    if a == 0 then b else 2 * BitOr(a / 2, b / 2) + (if a % 2 == 1 || b % 2 == 1 then 1 else 0)
  }

  /** `a & b` */
  function And32(a: int, b: int): int {
    ToInt32(BitAnd(ToUint32(a), ToUint32(b)))
  }

  /** `a | b` */
  function Or32(a: int, b: int): int {
    ToInt32(BitOr(ToUint32(a), ToUint32(b)))
  }

  /** `~a` */
  function Not32(a: int): int {
    -ToInt32(a) - 1
  }

  /** `a << k` */
  function Shl32(a: int, k: nat): int {
    ToInt32(ToUint32(a) * Pow2(k % 32))
  }

  /** `a >>> 0` */
  function Unsigned(a: int): nat {
    ToUint32(a)
  }

  // ----- powers of two

  lemma {:induction false} Pow2Adds(j: nat, k: nat)
    ensures Pow2(j + k) == Pow2(j) * Pow2(k)
  {
    if j > 0 {
      Pow2Adds(j - 1, k);
    }
  }

  lemma Pow2Word()
    ensures Pow2(8) == 0x100 && Pow2(16) == 0x1_0000 && Pow2(24) == 0x100_0000 && Pow2(32) == WORD
  {
    assert Pow2(4) == 16;
    Pow2Adds(4, 4);
    Pow2Adds(8, 8);
    Pow2Adds(16, 8);
    Pow2Adds(16, 16);
  }

  lemma {:induction false} Pow2Monotone(j: nat, k: nat)
    requires j <= k
    ensures Pow2(j) <= Pow2(k)
  {
    if j < k {
      Pow2Monotone(j, k - 1);
    }
  }

  lemma MulGrows(a: int, b: int, d: int)
    requires a < b && d > 0
    ensures a * d + d <= b * d
  {
    assert (b - a - 1) * d >= 0;
    assert (b - a - 1) * d == b * d - a * d - d;
  }

  /** Division with remainder is unique. */
  lemma DivModUnique(a: int, d: int, q: int, r: int)
    requires d > 0 && a == q * d + r && 0 <= r < d
    ensures a / d == q && a % d == r
  {
    var q', r' := a / d, a % d;
    assert a == q' * d + r';
    if q < q' {
      MulGrows(q, q', d);
    } else if q' < q {
      MulGrows(q', q, d);
    }
  }

  lemma MulAtMost(a: int, b: int, d: int)
    requires a <= b && d > 0
    ensures a * d <= b * d
  {
    assert (b - a) * d >= 0;
  }

  lemma MulSplits(a: int, b: int, d: int)
    ensures (a + b) * d == a * d + b * d
  {
  }

  /** The low `k` bits of a number. */
  function Low(a: nat, k: nat): (r: nat)
    ensures r <= a
  {
    if k == 0 then 0 else 2 * Low(a / 2, k - 1) + a % 2
  }

  /** The low bits are the remainder by the power of two. */
  lemma {:induction false} LowIsMod(a: nat, k: nat)
    ensures Low(a, k) == a % Pow2(k)
  {
    if k > 0 {
      var d := Pow2(k - 1);
      LowIsMod(a / 2, k - 1);
      var q, r := (a / 2) / d, (a / 2) % d;
      assert a == 2 * (q * d + r) + a % 2;
      MulSwaps(q, d);
      DivModUnique(a, 2 * d, q, 2 * r + a % 2);
    }
  }

  lemma MulSwaps(q: int, d: int)
    ensures q * (2 * d) == 2 * (q * d)
  {
  }

  // ----- masks

  lemma {:induction false} AndAllOnes(a: nat, width: nat)
    requires a < Pow2(width)
    ensures BitAnd(a, Pow2(width) - 1) == a
  {
    if a != 0 && width > 0 {
      assert (Pow2(width) - 1) / 2 == Pow2(width - 1) - 1;
      AndAllOnes(a / 2, width - 1);
    }
  }

  /** Clearing the low `k` bits subtracts them. */
  lemma {:induction false} AndHighMask(a: nat, width: nat, k: nat)
    requires a < Pow2(width) && k <= width
    ensures Pow2(k) <= Pow2(width)
    ensures BitAnd(a, Pow2(width) - Pow2(k)) == a - Low(a, k)
  {
    Pow2Monotone(k, width);
    if k == 0 {
      AndAllOnes(a, width);
    } else if a != 0 {
      AndHighMask(a / 2, width - 1, k - 1);
      assert Pow2(width) - Pow2(k) == 2 * (Pow2(width - 1) - Pow2(k - 1));
    }
  }

  lemma {:induction false} OrZero(a: nat)
    ensures BitOr(a, 0) == a
  {
    if a != 0 {
      OrZero(a / 2);
    }
  }

  /** Setting low bits that are clear adds them. */
  lemma {:induction false} OrLow(a: nat, b: nat, k: nat)
    requires Low(a, k) == 0 && b < Pow2(k)
    ensures BitOr(a, b) == a + b
  {
    if k == 0 {
      OrZero(a);
    } else if a != 0 {
      OrLow(a / 2, b / 2, k - 1);
    }
  }

  /** A multiple of a larger power of two is a multiple of a smaller one. */
  lemma {:induction false} LowOfSmaller(a: nat, j: nat, k: nat)
    requires j <= k && Low(a, k) == 0
    ensures Low(a, j) == 0
  {
    if j > 0 {
      LowOfSmaller(a / 2, j - 1, k - 1);
    }
  }

  /** A number without its low bits has none left. */
  lemma {:induction false} LowCleared(a: nat, k: nat)
    ensures Low(a - Low(a, k), k) == 0
    ensures Low(a, k) < Pow2(k)
  {
    if k > 0 {
      LowCleared(a / 2, k - 1);
      assert (a - Low(a, k)) / 2 == a / 2 - Low(a / 2, k - 1);
    }
  }

  /** A number with `k` clear low bits as a multiple of `2^k`. */
  lemma Multiple(a: nat, k: nat) returns (q: nat)
    requires Low(a, k) == 0
    ensures a == q * Pow2(k)
  {
    LowIsMod(a, k);
    q := a / Pow2(k);
  }

  lemma {:induction false} MultipleHasNoLow(q: nat, k: nat, d: nat, product: nat)
    requires d == Pow2(k) && product == q * d
    ensures Low(product, k) == 0
  {
    LowIsMod(product, k);
    DivModUnique(product, d, q, 0);
  }
}
