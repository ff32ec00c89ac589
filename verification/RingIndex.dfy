/** Capacity rounding and slot masking shared by MpscQueue and PacketRing
    (include/usn/core/mpsc_queue.hpp, include/usn/core/packet_ring.hpp), on 64-bit words. */
module RingIndex {
  import opened Words

  /** Bitwise operations on words, bit by bit. */
  function BitOr(a: nat, b: nat): nat
    decreases a + b
  {
    if a == 0 && b == 0 then 0
    else 2 * BitOr(a / 2, b / 2) + (if a % 2 == 1 || b % 2 == 1 then 1 else 0)
  }

  function BitAnd(a: nat, b: nat): nat
    decreases a + b
  {
    if a == 0 && b == 0 then 0
    else 2 * BitAnd(a / 2, b / 2) + (if a % 2 == 1 && b % 2 == 1 then 1 else 0)
  }

  /** `n >> j`. */
  function Shr(n: nat, j: nat): nat
    decreases j
  {
    if j == 0 then n else Shr(n / 2, j - 1)
  }

  /** `n |= n >> j`. */
  function Smear(n: nat, j: nat): nat {
    BitOr(n, Shr(n, j))
  }

  /** `round_up_power_of_two` on a 64-bit `size_t`. */
  function RoundUp(n: nat): nat
    requires n < 0x1_0000_0000_0000_0000
  {
    if n == 0 then 1 else Add64(Smear6(n - 1), 1)
  }

  /** The six shifts of the source: by 1, 2, 4, 8, 16 and 32. */
  function Smear6(n: nat): nat {
    var j := FIRST_SHIFT;
    Smear(Smear(Smear(Smear(Smear(Smear(n, j), 2 * j), 4 * j), 8 * j), 16 * j), 32 * j)
  }

  /** The first shift; each of the others doubles the one before. */
  const FIRST_SHIFT: nat := 1

  // ----- masking is remainder -----

  lemma {:induction false} MaskIsMod(x: nat, k: nat)
    ensures BitAnd(x, Pow2(k) - 1) == x % Pow2(k)
    decreases k
  {
    if k == 0 {
      AndZero(x);
    } else {
      var p := Pow2(k - 1);
      MaskIsMod(x / 2, k - 1);
      assert (2 * p - 1) / 2 == p - 1 && (2 * p - 1) % 2 == 1;
      HalfMod(x, p);
    }
  }

  lemma {:induction false} AndZero(x: nat)
    ensures BitAnd(x, 0) == 0
  {
    if x > 0 {
      AndZero(x / 2);
    }
  }

  lemma HalfMod(x: nat, p: nat)
    requires p > 0
    ensures x % (2 * p) == 2 * (x / 2 % p) + x % 2
  {
    var q, r := x / 2 / p, x / 2 % p;
    assert x / 2 == q * p + r;
    assert x == q * (2 * p) + (2 * r + x % 2);
    DivModUnique(x, 2 * p, q, 2 * r + x % 2);
  }

  /** Two numbers less than `d` apart with the same remainder are equal: a window of `d` consecutive
      tickets uses every slot at most once. */
  lemma SameSlot(a: nat, b: nat, d: nat)
    requires d > 0 && a % d == b % d && a <= b < a + d
    ensures a == b
  {
    var r, q := a % d, a / d;
    assert a == q * d + r;
    if r + (b - a) < d {
      DivModUnique(b, d, q, r + (b - a));
    } else {
      assert (q + 1) * d == q * d + d;
      DivModUnique(b, d, q + 1, r + (b - a) - d);
    }
  }

  // ----- rounding up -----

  predicate Bit(n: nat, i: nat)
    decreases i
  {
    if i == 0 then n % 2 == 1 else Bit(n / 2, i - 1)
  }

  lemma {:induction false} BitOfOr(a: nat, b: nat, i: nat)
    ensures Bit(BitOr(a, b), i) <==> Bit(a, i) || Bit(b, i)
    decreases i
  {
    if a == 0 && b == 0 {
      BitOfZero(i);
    } else if i > 0 {
      BitOfOr(a / 2, b / 2, i - 1);
    }
  }

  lemma {:induction false} BitOfZero(i: nat)
    ensures !Bit(0, i)
  {
    if i > 0 {
      BitOfZero(i - 1);
    }
  }

  lemma {:induction false} BitOfShr(n: nat, j: nat, i: nat)
    ensures Bit(Shr(n, j), i) <==> Bit(n, i + j)
    decreases j
  {
    if j > 0 {
      BitOfShr(n / 2, j - 1, i);
    }
  }

  /** `n` is below 2^w and its top `j` bits, of w, are ones. */
  ghost predicate TopOnes(n: nat, w: nat, j: nat) {
    forall i: nat :: (w <= i ==> !Bit(n, i)) && (w - j <= i < w ==> Bit(n, i))
  }

  lemma SmearDoubles(n: nat, w: nat, j: nat)
    requires TopOnes(n, w, j)
    ensures TopOnes(Smear(n, j), w, 2 * j)
  {
    forall i: nat
      ensures (w <= i ==> !Bit(Smear(n, j), i)) && (w - 2 * j <= i < w ==> Bit(Smear(n, j), i))
    {
      BitOfOr(n, Shr(n, j), i);
      BitOfShr(n, j, i);
    }
  }

  lemma {:induction false} AllOnes(n: nat, w: nat)
    requires TopOnes(n, w, w)
    ensures n == Pow2(w) - 1
    decreases w
  {
    if w == 0 {
      NoBits(n);
    } else {
      assert Bit(n, 0);
      forall i: nat
        ensures (w - 1 <= i ==> !Bit(n / 2, i)) && (0 <= i < w - 1 ==> Bit(n / 2, i))
      {
        assert Bit(n, i + 1) == Bit(n / 2, i);
      }
      AllOnes(n / 2, w - 1);
    }
  }

  lemma {:induction false} NoBits(n: nat)
    requires forall i: nat :: !Bit(n, i)
    ensures n == 0
  {
    if n > 0 {
      assert !Bit(n, 0);
      forall i: nat
        ensures !Bit(n / 2, i)
      {
        assert Bit(n, i + 1) == Bit(n / 2, i);
      }
      NoBits(n / 2);
    }
  }

  /** The number of significant bits. */
  function Width(n: nat): nat {
    if n == 0 then 0 else 1 + Width(n / 2)
  }

  lemma {:induction false} WidthBounds(n: nat)
    ensures n < Pow2(Width(n))
    ensures n > 0 ==> Pow2(Width(n) - 1) <= n
  {
    if n > 0 {
      WidthBounds(n / 2);
    }
  }

  lemma {:induction false} LeadingBit(n: nat, i: nat)
    ensures Width(n) <= i ==> !Bit(n, i)
    ensures n > 0 && i == Width(n) - 1 ==> Bit(n, i)
    decreases i
  {
    if n == 0 {
      BitOfZero(i);
    } else if i > 0 {
      LeadingBit(n / 2, i - 1);
    } else if n > 1 {
      assert Width(n / 2) > 0;
    }
  }

  lemma {:induction false} Pow2Mono(a: nat, b: nat)
    requires a <= b
    ensures Pow2(a) <= Pow2(b)
    decreases b
  {
    if a < b {
      Pow2Mono(a, b - 1);
    }
  }

  lemma {:induction false} Pow2Add(a: nat, b: nat)
    ensures Pow2(a + b) == Pow2(a) * Pow2(b)
    decreases a
  {
    if a > 0 {
      Pow2Add(a - 1, b);
    }
  }

  lemma Pow64()
    ensures Pow2(63) == 0x8000_0000_0000_0000 && Pow2(64) == 0x1_0000_0000_0000_0000
  {
    assert Pow2(4) == 16;
    Pow2Add(4, 4);
    Pow2Add(8, 8);
    Pow2Add(16, 16);
    Pow2Add(32, 32);
    assert Pow2(64) == 2 * Pow2(63);
  }

  lemma Smear6Fills(n: nat)
    requires n < 0x1_0000_0000_0000_0000
    ensures Smear6(n) == Pow2(Width(n)) - 1
  {
    var w := Width(n);
    forall i: nat
      ensures (w <= i ==> !Bit(n, i)) && (w - 1 <= i < w ==> Bit(n, i))
    {
      LeadingBit(n, i);
    }
    var n1 := Smear(n, FIRST_SHIFT);
    SmearDoubles(n, w, FIRST_SHIFT);
    var n2 := Smear(n1, 2 * FIRST_SHIFT);
    SmearDoubles(n1, w, 2 * FIRST_SHIFT);
    var n3 := Smear(n2, 4 * FIRST_SHIFT);
    SmearDoubles(n2, w, 4 * FIRST_SHIFT);
    var n4 := Smear(n3, 8 * FIRST_SHIFT);
    SmearDoubles(n3, w, 8 * FIRST_SHIFT);
    var n5 := Smear(n4, 16 * FIRST_SHIFT);
    SmearDoubles(n4, w, 16 * FIRST_SHIFT);
    SmearDoubles(n5, w, 32 * FIRST_SHIFT);
    WidthAtMost64(n);
    AllOnes(Smear(n5, 32 * FIRST_SHIFT), w);
  }

  lemma WidthAtMost64(n: nat)
    requires n < 0x1_0000_0000_0000_0000
    ensures Width(n) <= 64
  {
    Pow64();
    WidthBounds(n);
    if Width(n) > 64 {
      Pow2Mono(64, Width(n) - 1);
    }
  }

  lemma IncrementOnes(w: nat)
    requires w <= 64
    ensures Add64(Pow2(w) - 1, 1) == if w == 64 then 0 else Pow2(w)
  {
    Pow64();
    if w < 64 {
      Pow2Mono(w, 63);
      Fits64(Pow2(w));
    }
  }

  lemma RoundUpByWidth(n: nat)
    requires 0 < n < 0x1_0000_0000_0000_0000
    ensures RoundUp(n) == if Width(n - 1) == 64 then 0 else Pow2(Width(n - 1))
  {
    Smear6Fills(n - 1);
    WidthAtMost64(n - 1);
    IncrementOnes(Width(n - 1));
  }

  lemma WidthGivesLeastPower(n: nat, r: nat)
    requires 0 < n < 0x1_0000_0000_0000_0000
    requires r == if Width(n - 1) == 64 then 0 else Pow2(Width(n - 1))
    ensures n <= 0x8000_0000_0000_0000 <==> r > 0
    ensures r > 0 ==> n <= r < 2 * n
  {
    var w := Width(n - 1);
    WidthAtMost64(n - 1);
    WidthBounds(n - 1);
    WidthRange(w);
  }

  lemma WidthRange(w: nat)
    requires w <= 64
    ensures w < 64 ==> Pow2(w) <= 0x8000_0000_0000_0000
    ensures w == 64 ==> Pow2(w - 1) == 0x8000_0000_0000_0000
  {
    Pow64();
    if w < 64 {
      Pow2Mono(w, 63);
    }
  }

  /** The capacity is the least power of two that is at least the requested one, exactly when the request
      is at most 2^63; any larger request wraps to a capacity of zero. */
  lemma RoundUpIsLeastPower(n: nat)
    requires n < 0x1_0000_0000_0000_0000
    ensures n <= 0x8000_0000_0000_0000 <==> RoundUp(n) > 0
    ensures RoundUp(n) > 0 ==> exists k: nat :: RoundUp(n) == Pow2(k)
    ensures RoundUp(n) > 0 ==> n <= RoundUp(n) && (n > 0 ==> RoundUp(n) < 2 * n)
  {
    if n > 0 {
      RoundUpByWidth(n);
      WidthGivesLeastPower(n, RoundUp(n));
    } else {
      assert RoundUp(n) == Pow2(0);
    }
  }

  ghost predicate IsPow2(cap: nat) {
    exists k: nat :: cap == Pow2(k)
  }

  lemma MaskByCapacity(t: nat, cap: nat)
    requires IsPow2(cap)
    ensures cap > 0 && BitAnd(t, cap - 1) == t % cap < cap
  {
    var k: nat :| cap == Pow2(k);
    MaskIsMod(t, k);
  }

  /** `t & mask_`: the slot of position `t`. */
  function Index(t: nat, cap: nat): (i: nat)
    requires IsPow2(cap)
    ensures i < cap
  {
    MaskByCapacity(t, cap);
    BitAnd(t, cap - 1)
  }

  /** Within a window of `cap` positions every slot belongs to at most one position. */
  lemma IndexInjective(a: nat, b: nat, cap: nat)
    requires IsPow2(cap) && Index(a, cap) == Index(b, cap) && a < b + cap && b < a + cap
    ensures a == b
  {
    MaskByCapacity(a, cap);
    MaskByCapacity(b, cap);
    if a <= b {
      SameSlot(a, b, cap);
    } else {
      SameSlot(b, a, cap);
    }
  }
}
