/** Integer views of the bit operations the driver code performs on `int` and
    `long` values: powers of two, single bits, `a & ~m`, page alignment, and
    MSB-first packing of a word into a bit sequence. */
module Bits {

  /** The number of iterations of a loop counting `n` steps, such as
      `for (k = 0; k < n; k++)` or `for (k = n-1; k >= 0; k--)`: none when
      `n` is not positive. */
  function Iterations(n: int): nat
  {
    if n > 0 then n else 0
  }

  function Pow2(n: nat): (r: nat)
    ensures r >= 1
  {
    if n == 0 then 1 else 2 * Pow2(n - 1)
  }

  /** Bit `k` of `x` in two's complement, `(x >> k) & 1`, for any integer `x`. */
  predicate Bit(x: int, k: nat)
    decreases k
  {
    if k == 0 then x % 2 == 1 else Bit(x / 2, k - 1)
  }

  /** Euclidean division is unique. */
  lemma DivModUnique(a: int, d: int, q: int, r: int)
    requires 0 < d && 0 <= r < d && a == d * q + r
    ensures a / d == q && a % d == r
  {
    var q0, r0 := a / d, a % d;
    assert a == d * q0 + r0;
    if q0 < q {
      MulAtLeast(d, q - q0);
    } else if q0 > q {
      MulAtLeast(d, q0 - q);
    }
  }

  lemma {:induction false} MulAtLeast(d: int, k: int)
    requires 0 < d && 1 <= k
    ensures d * k >= d
    decreases k
  {
    if k > 1 {
      MulAtLeast(d, k - 1);
      assert d * k == d * (k - 1) + d;
    }
  }

  /** Splitting off the lowest bit: `x mod 2^(n+1)` is twice `(x/2) mod 2^n` plus `x mod 2`. */
  lemma {:induction false} ModPow2Step(x: int, n: nat)
    ensures x % Pow2(n + 1) == 2 * ((x / 2) % Pow2(n)) + x % 2
  {
    var p := Pow2(n);
    var h, b := x / 2, x % 2;
    var q, t := h / p, h % p;
    assert x == (2 * p) * q + (2 * t + b);
    DivModUnique(x, 2 * p, q, 2 * t + b);
  }

  /** `a & ~m` on non-negative integers: every bit set in `m` is cleared in `a`. */
  function ClearBits(a: nat, m: nat): (r: nat)
    ensures r <= a
  {
    if a == 0 then 0
    else 2 * ClearBits(a / 2, m / 2) + (if m % 2 == 1 then 0 else a % 2)
  }

  /** `a` with its lowest `k` bits cleared. */
  function AlignDown(a: nat, k: nat): nat
  {
    if k == 0 then a else 2 * AlignDown(a / 2, k - 1)
  }

  /** `x` has its lowest `k` bits clear, i.e. is a multiple of `2^k`. */
  predicate LowBitsClear(x: int, k: nat)
    decreases k
  {
    k == 0 || (x % 2 == 0 && LowBitsClear(x / 2, k - 1))
  }

  lemma {:induction false} ClearNothing(a: nat)
    ensures ClearBits(a, 0) == a
    decreases a
  {
    if a != 0 {
      ClearNothing(a / 2);
    }
  }

  /** With a power-of-two page size `2^k`, `a & ~(2^k - 1)` clears exactly the
      lowest `k` bits. */
  lemma {:induction false} ClearLowMask(a: nat, k: nat)
    ensures ClearBits(a, Pow2(k) - 1) == AlignDown(a, k)
    decreases k
  {
    if k == 0 {
      ClearNothing(a);
    } else if a == 0 {
      ZeroAligned(k);
    } else {
      LowMaskHalf(k);
      ClearOddMask(a, Pow2(k) - 1);
      ClearLowMask(a / 2, k - 1);
    }
  }

  /** The mask `2^k - 1` is odd for `k > 0`, and halving it gives the next mask down. */
  lemma LowMaskHalf(k: nat)
    requires k > 0
    ensures (Pow2(k) - 1) % 2 == 1 && (Pow2(k) - 1) / 2 == Pow2(k - 1) - 1
  {
    var h := Pow2(k - 1);
    assert Pow2(k) - 1 == 2 * (h - 1) + 1;
  }

  /** An odd mask clears the lowest bit and passes the rest on. */
  lemma ClearOddMask(a: nat, m: nat)
    requires a > 0 && m % 2 == 1
    ensures ClearBits(a, m) == 2 * ClearBits(a / 2, m / 2)
  {
  }

  lemma {:induction false} ZeroAligned(k: nat)
    ensures AlignDown(0, k) == 0
  {
    if k > 0 {
      ZeroAligned(k - 1);
    }
  }

  /** `AlignDown(a, k)` is the page boundary at or below `a` for pages of `2^k`
      bytes: a multiple of the page size, and less than one page below `a`. */
  lemma {:induction false} AlignDownIsPageStart(a: nat, k: nat)
    ensures LowBitsClear(AlignDown(a, k), k)
    ensures AlignDown(a, k) <= a < AlignDown(a, k) + Pow2(k)
    decreases k
  {
    if k > 0 {
      AlignDownIsPageStart(a / 2, k - 1);
      var h := AlignDown(a / 2, k - 1);
      assert AlignDown(a, k) == 2 * h;
      assert (2 * h) / 2 == h;
    }
  }

  /** The bits `w & (1 << k)` for `k = n-1` down to `0`: most significant first. */
  function ToBitsMsb(w: int, n: nat): (bits: seq<bool>)
    ensures |bits| == n
  {
    if n == 0 then [] else [Bit(w, n - 1)] + ToBitsMsb(w, n - 1)
  }

  /** Reassembles bits received most significant first: the bit at step `i` of
      `|bits|` steps sets bit `|bits| - 1 - i` of the value. */
  function FromBitsMsb(bits: seq<bool>): (v: nat)
    ensures v < Pow2(|bits|)
  {
    if |bits| == 0 then 0
    else (if bits[0] then Pow2(|bits| - 1) else 0) + FromBitsMsb(bits[1..])
  }

  lemma {:induction false} ToBitsMsbIndex(w: int, n: nat, i: nat)
    requires i < n
    ensures ToBitsMsb(w, n)[i] == Bit(w, n - 1 - i)
    decreases n
  {
    if i > 0 {
      ToBitsMsbIndex(w, n - 1, i - 1);
    }
  }

  lemma {:induction false} ToBitsMsbLast(w: int, n: nat)
    requires n > 0
    ensures ToBitsMsb(w, n) == ToBitsMsb(w / 2, n - 1) + [w % 2 == 1]
    decreases n
  {
    if n > 1 {
      ToBitsMsbLast(w, n - 1);
      assert Bit(w, n - 1) == Bit(w / 2, n - 2);
    }
  }

  lemma {:induction false} FromBitsMsbSnoc(bits: seq<bool>, b: bool)
    ensures FromBitsMsb(bits + [b]) == 2 * FromBitsMsb(bits) + (if b then 1 else 0)
    decreases |bits|
  {
    if |bits| > 0 {
      assert (bits + [b])[1..] == bits[1..] + [b];
      FromBitsMsbSnoc(bits[1..], b);
    }
  }

  /** Packing `n` bits of `w` most significant first and reassembling them
      gives back `w mod 2^n`. */
  lemma {:induction false} BitsMsbRoundTrip(w: int, n: nat)
    ensures FromBitsMsb(ToBitsMsb(w, n)) == w % Pow2(n)
    decreases n
  {
    if n > 0 {
      ToBitsMsbLast(w, n);
      FromBitsMsbSnoc(ToBitsMsb(w / 2, n - 1), w % 2 == 1);
      BitsMsbRoundTrip(w / 2, n - 1);
      ModPow2Step(w, n - 1);
    }
  }
}
