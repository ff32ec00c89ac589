/** Machine words, bytes and the few helpers every component shares. */
module Words {

  datatype Option<+T> = None | Some(value: T)

  /** A `uint8_t`. */
  type Byte = x: int | 0 <= x < 256

  /** `uint32_t` addition. */
  function Add32(a: nat, b: nat): nat {
    (a + b) % 0x1_0000_0000
  }

  /** `uint64_t` / `size_t` addition. */
  function Add64(a: nat, b: nat): nat {
    (a + b) % 0x1_0000_0000_0000_0000
  }

  /** `uint64_t` / `size_t` subtraction, which wraps when `b` exceeds `a`. */
  function Sub64(a: nat, b: nat): nat {
    (a - b) % 0x1_0000_0000_0000_0000
  }

  lemma Fits32(x: nat)
    requires x < 0x1_0000_0000
    ensures x % 0x1_0000_0000 == x
  {
  }

  /** Words that fit are not changed by reduction. */
  lemma Fits64(x: nat)
    requires x < 0x1_0000_0000_0000_0000
    ensures x % 0x1_0000_0000_0000_0000 == x
  {
  }

  /** Reducing a running `uint32_t` sum at every step or once at the end is the same. */
  lemma Add32Running(exact: nat, d: nat)
    ensures Add32(exact % 0x1_0000_0000, d) == (exact + d) % 0x1_0000_0000
  {
    var q := exact / 0x1_0000_0000;
    assert exact + d == q * 0x1_0000_0000 + (exact % 0x1_0000_0000 + d);
  }

  lemma {:induction false} MulMono(a: nat, b: nat, p: nat)
    requires a <= b
    ensures a * p <= b * p
    decreases p
  {
    if p > 0 {
      MulMono(a, b, p - 1);
      assert a * p == a * (p - 1) + a;
      assert b * p == b * (p - 1) + b;
    }
  }

  lemma MulStrict(a: nat, b: nat, p: nat)
    requires a < b
    ensures a * p + p <= b * p
  {
    MulMono(a + 1, b, p);
    assert (a + 1) * p == a * p + p;
  }

  lemma DivModUnique(x: nat, d: nat, q: nat, r: nat)
    requires d > 0 && x == q * d + r && r < d
    ensures x % d == r && x / d == q
  {
    var q', r' := x / d, x % d;
    assert x == q' * d + r';
    if q' < q {
      MulStrict(q', q, d);
    } else if q < q' {
      MulStrict(q, q', d);
    }
  }

  /** The four bytes of a word, as quotients and as remainders. */
  lemma FourBytes(a: Byte, b: Byte, c: Byte, d: Byte, n: nat)
    requires n == 0x100_0000 * a + 0x1_0000 * b + 0x100 * c + d
    ensures n / 0x100_0000 % 256 == a && n / 0x1_0000 % 256 == b && n / 0x100 % 256 == c && n % 256 == d
  {
    DivModUnique(n, 0x100_0000, a, 0x1_0000 * b + 0x100 * c + d);
    DivModUnique(n, 0x1_0000, 0x100 * a + b, 0x100 * c + d);
    DivModUnique(n, 0x100, 0x1_0000 * a + 0x100 * b + c, d);
  }

  function Max(a: int, b: int): int {
    if a < b then b else a
  }

  function Min(a: int, b: int): int {
    if a < b then a else b
  }

  /** `a - b`, stopped at zero. */
  function Monus(a: nat, b: nat): nat {
    if b > a then 0 else a - b
  }

  function Pow2(k: nat): (p: nat)
    ensures p > 0
  {
    if k == 0 then 1 else 2 * Pow2(k - 1)
  }

  /** No number occurs twice. */
  ghost predicate Distinct(ns: seq<nat>) {
    forall i, j :: 0 <= i < j < |ns| ==> ns[i] != ns[j]
  }
}
