/** The ones-complement checksum (sections 1 and 2 of RFC 1071) as UdpProtocol and TcpProtocol compute it
    on a little-endian host. */
module Checksum {
  import opened Words

  /** `ntohs` / `htons` on a little-endian host. */
  function Swap16(w: nat): nat
    requires w < 0x1_0000
  {
    w % 256 * 256 + w / 256
  }

  /** The words added for the pseudo header; `proto` is the host-order protocol word before swapping. */
  function Pseudo(len: nat, src: nat, dst: nat, proto: nat): (s: nat)
    requires src < 0x1_0000_0000 && dst < 0x1_0000_0000 && proto < 256
    ensures proto * 256 <= s <= 6 * 65535
  {
    Swap16(src / 0x1_0000) + Swap16(src % 0x1_0000) + Swap16(dst / 0x1_0000) + Swap16(dst % 0x1_0000)
    + Swap16(proto) + len % 0x1_0000
  }

  function Pair(hi: nat, lo: nat): nat {
    256 * hi + lo
  }

  /** The big-endian word at bytes `i` and `i + 1`. */
  function At16(b: seq<Byte>, i: nat): nat
    requires i + 1 < |b|
  {
    Pair(b[i], b[i + 1])
  }

  /** The big-endian words of `d` from byte `i` on; an odd last byte counts in the low position. */
  function WordSum(d: seq<Byte>, i: nat): nat
    requires i <= |d|
    decreases |d| - i
  {
    if i == |d| then 0
    else if i + 1 == |d| then d[i]
    else Pair(d[i], d[i + 1]) + WordSum(d, i + 2)
  }

  function Sum(d: seq<Byte>, src: nat, dst: nat, proto: nat): nat
    requires src < 0x1_0000_0000 && dst < 0x1_0000_0000 && proto < 256
  {
    Pseudo(|d|, src, dst, proto) + WordSum(d, 0)
  }

  /** The folding loop. */
  function Fold(s: nat): (f: nat)
    ensures f < 0x1_0000
  {
    if s < 0x1_0000 then s else Fold(s % 0x1_0000 + s / 0x1_0000)
  }

  /** `calculate_checksum`: the running sum is a `uint32_t`. */
  function Compute(d: seq<Byte>, src: nat, dst: nat, proto: nat): (c: nat)
    requires src < 0x1_0000_0000 && dst < 0x1_0000_0000 && proto < 256
    ensures c < 0x1_0000
  {
    0xFFFF - Fold(Sum(d, src, dst, proto) % 0x1_0000_0000)
  }

  /** Folding keeps the value modulo 65535 and never turns a positive sum into zero: it is the residue in
      1..65535. */
  lemma {:induction false} FoldIsResidue(s: nat)
    ensures s > 0 ==> Fold(s) == (s - 1) % 65535 + 1
    ensures s == 0 ==> Fold(s) == 0
  {
    if s >= 0x1_0000 {
      var hi, lo := s / 0x1_0000, s % 0x1_0000;
      FoldIsResidue(lo + hi);
      assert s - 1 == hi * 65535 + (lo + hi - 1);
      ModShift(lo + hi - 1, hi);
    }
  }

  lemma ModShift(r: nat, k: nat)
    ensures (k * 65535 + r) % 65535 == r % 65535
  {
  }

  /** The words of a frame of up to 131000 bytes do not overflow the 32-bit sum. */
  lemma {:induction false} WordSumBound(d: seq<Byte>, i: nat)
    requires i <= |d|
    ensures 2 * WordSum(d, i) <= (|d| - i + 1) * 65535
    decreases |d| - i
  {
    if i + 1 < |d| {
      WordSumBound(d, i + 2);
    }
  }

  lemma SumFits(d: seq<Byte>, src: nat, dst: nat, proto: nat)
    requires src < 0x1_0000_0000 && dst < 0x1_0000_0000 && proto < 256 && |d| <= 131000
    ensures Sum(d, src, dst, proto) < 0x1_0000_0000
    ensures Compute(d, src, dst, proto) == 0xFFFF - Fold(Sum(d, src, dst, proto))
  {
    WordSumBound(d, 0);
    Fits32(Sum(d, src, dst, proto));
  }

  /** The checksum over a frame is zero exactly when its sum is a multiple of 65535. */
  lemma ZeroIffMultiple(d: seq<Byte>, src: nat, dst: nat, proto: nat)
    requires src < 0x1_0000_0000 && dst < 0x1_0000_0000 && 0 < proto < 256 && |d| <= 131000
    ensures Compute(d, src, dst, proto) == 0 <==> Sum(d, src, dst, proto) % 65535 == 0
  {
    var s := Sum(d, src, dst, proto);
    SumFits(d, src, dst, proto);
    FoldIsResidue(s);
    ResidueZero(s);
  }

  lemma ResidueZero(s: nat)
    requires s > 0
    ensures (s - 1) % 65535 == 65534 <==> s % 65535 == 0
  {
  }

  // ----- changing bytes -----

  /** What a change of `delta` in byte `i` adds to the sum. */
  function Weight(len: nat, i: nat, delta: int): int {
    if i % 2 == 0 && i + 1 < len then 256 * delta else delta
  }

  lemma {:induction false} WordSumUpdate(d: seq<Byte>, i: nat, x: Byte, from: nat)
    requires from <= i < |d| && from % 2 == 0
    ensures WordSum(d[i := x], from) == WordSum(d, from) + Weight(|d|, i, x - d[i])
    decreases |d| - from
  {
    if i >= from + 2 {
      WordSumUpdate(d, i, x, from + 2);
    } else if from + 1 < |d| {
      WordSumSame(d, d[i := x], from + 2);
    }
  }

  lemma {:induction false} WordSumSame(d: seq<Byte>, e: seq<Byte>, from: nat)
    requires |d| == |e| && from <= |d| && forall j :: from <= j < |d| ==> d[j] == e[j]
    ensures WordSum(d, from) == WordSum(e, from)
    decreases |d| - from
  {
    if from + 1 < |d| {
      WordSumSame(d, e, from + 2);
    }
  }

  lemma SumUpdate(d: seq<Byte>, i: nat, x: Byte, src: nat, dst: nat, proto: nat)
    requires src < 0x1_0000_0000 && dst < 0x1_0000_0000 && proto < 256 && i < |d|
    ensures Sum(d[i := x], src, dst, proto) == Sum(d, src, dst, proto) + Weight(|d|, i, x - d[i])
  {
    WordSumUpdate(d, i, x, 0);
  }

  /** Changing one byte changes the residue of the sum. */
  lemma ChangeMovesResidue(s: nat, t: nat, len: nat, i: nat, delta: int)
    requires t == s + Weight(len, i, delta) && delta != 0 && -256 < delta < 256
    ensures s % 65535 != t % 65535
    ensures s > 0 && t > 0 ==> Fold(s) != Fold(t)
  {
    var w := Weight(len, i, delta);
    assert w != 0 && -65535 < w < 65535;
    Nearby(s, t);
    if s > 0 && t > 0 {
      FoldIsResidue(s);
      FoldIsResidue(t);
      Nearby(s - 1, t - 1);
    }
  }

  lemma Nearby(a: nat, b: nat)
    requires a != b && -65535 < a - b < 65535
    ensures a % 65535 != b % 65535
  {
  }

  /** Storing `c` big-endian in two zero bytes at an even offset adds `c` to the sum. */
  function Store16(d: seq<Byte>, at: nat, c: nat): seq<Byte>
    requires at + 1 < |d| && c < 0x1_0000
  {
    d[at := c / 256][at + 1 := c % 256]
  }

  lemma SumStore(d: seq<Byte>, at: nat, c: nat, src: nat, dst: nat, proto: nat)
    requires src < 0x1_0000_0000 && dst < 0x1_0000_0000 && proto < 256
    requires at + 1 < |d| && at % 2 == 0 && c < 0x1_0000 && d[at] == 0 && d[at + 1] == 0
    ensures Sum(Store16(d, at, c), src, dst, proto) == Sum(d, src, dst, proto) + c
  {
    SumUpdate(d, at, c / 256, src, dst, proto);
    SumUpdate(d[at := c / 256], at + 1, c % 256, src, dst, proto);
  }

  /** A frame whose checksum was computed over zero bytes, and stored there, sums to a multiple of 65535. */
  lemma StoredChecksumCancels(d: seq<Byte>, at: nat, src: nat, dst: nat, proto: nat)
    requires src < 0x1_0000_0000 && dst < 0x1_0000_0000 && 0 < proto < 256 && |d| <= 131000
    requires at + 1 < |d| && at % 2 == 0 && d[at] == 0 && d[at + 1] == 0
    ensures Sum(Store16(d, at, Compute(d, src, dst, proto)), src, dst, proto) % 65535 == 0
  {
    var s, c := Sum(d, src, dst, proto), Compute(d, src, dst, proto);
    SumFits(d, src, dst, proto);
    FoldIsResidue(s);
    SumStore(d, at, c, src, dst, proto);
    Cancel(s);
  }

  lemma Cancel(s: nat)
    requires s > 0
    ensures (s + (65535 - ((s - 1) % 65535 + 1))) % 65535 == 0
  {
    var q := (s - 1) / 65535;
    assert s + (65535 - ((s - 1) % 65535 + 1)) == (q + 1) * 65535;
  }

  // ----- the pseudo header -----

  /** Byte `j` of `n` in memory on a little-endian host. */
  function MemoryByte(n: nat, j: nat): Byte {
    if j == 0 then n % 256 else if j == 1 then n / 0x100 % 256
    else if j == 2 then n / 0x1_0000 % 256 else n / 0x100_0000 % 256
  }

  /** The twelve bytes in front of the datagram, in the order in which the source adds them: of each address the
      upper half first, each half with its low byte first; the protocol before the zero; the length big-endian. */
  function PseudoHeader(len: nat, src: nat, dst: nat, proto: nat): (b: seq<Byte>)
    requires proto < 256
    ensures |b| == 12
  {
    [MemoryByte(src, 2), MemoryByte(src, 3), MemoryByte(src, 0), MemoryByte(src, 1),
     MemoryByte(dst, 2), MemoryByte(dst, 3), MemoryByte(dst, 0), MemoryByte(dst, 1),
     proto, 0, MemoryByte(len, 1), MemoryByte(len, 0)]
  }

  lemma {:induction false} WordSumShift(b: seq<Byte>, d: seq<Byte>, i: nat)
    requires |b| % 2 == 0 && i <= |d|
    ensures WordSum(b + d, |b| + i) == WordSum(d, i)
    decreases |d| - i
  {
    if i + 1 < |d| {
      WordSumShift(b, d, i + 2);
    }
  }

  lemma {:induction false} WordSumConcat(b: seq<Byte>, d: seq<Byte>, i: nat)
    requires |b| % 2 == 0 && i <= |b| && i % 2 == 0
    ensures WordSum(b + d, i) == WordSum(b, i) + WordSum(d, 0)
    decreases |b| - i
  {
    if i == |b| {
      WordSumShift(b, d, 0);
    } else {
      WordSumConcat(b, d, i + 2);
    }
  }

  lemma SwappedHalves(n: nat)
    requires n < 0x1_0000_0000
    ensures Swap16(n / 0x1_0000) == Pair(MemoryByte(n, 2), MemoryByte(n, 3))
    ensures Swap16(n % 0x1_0000) == Pair(MemoryByte(n, 0), MemoryByte(n, 1))
  {
    var hi, lo := n / 0x1_0000, n % 0x1_0000;
    FourBytes(hi / 256, hi % 256, lo / 256, lo % 256, n);
  }

  lemma PseudoIsWordSum(len: nat, src: nat, dst: nat, proto: nat)
    requires src < 0x1_0000_0000 && dst < 0x1_0000_0000 && proto < 256
    ensures Pseudo(len, src, dst, proto) == WordSum(PseudoHeader(len, src, dst, proto), 0)
  {
    PseudoWords(len, src, dst, proto);
    SwappedHalves(src);
    SwappedHalves(dst);
    LengthWord(len);
    ProtocolWord(proto);
  }

  lemma ProtocolWord(proto: nat)
    requires proto < 256
    ensures Swap16(proto) == Pair(proto, 0)
  {
  }

  lemma PseudoWords(len: nat, src: nat, dst: nat, proto: nat)
    requires proto < 256
    ensures WordSum(PseudoHeader(len, src, dst, proto), 0)
         == Pair(MemoryByte(src, 2), MemoryByte(src, 3)) + Pair(MemoryByte(src, 0), MemoryByte(src, 1))
            + Pair(MemoryByte(dst, 2), MemoryByte(dst, 3)) + Pair(MemoryByte(dst, 0), MemoryByte(dst, 1))
            + Pair(proto, 0) + Pair(MemoryByte(len, 1), MemoryByte(len, 0))
  {
    SixWords(PseudoHeader(len, src, dst, proto));
  }

  /** Six words, one after the other. */
  lemma SixWords(b: seq<Byte>)
    requires |b| == 12
    ensures WordSum(b, 0) == At16(b, 0) + At16(b, 2) + At16(b, 4) + At16(b, 6) + At16(b, 8) + At16(b, 10)
  {
    assert WordSum(b, 10) == At16(b, 10) + WordSum(b, 12);
    assert WordSum(b, 8) == At16(b, 8) + WordSum(b, 10);
    assert WordSum(b, 6) == At16(b, 6) + WordSum(b, 8);
    assert WordSum(b, 4) == At16(b, 4) + WordSum(b, 6);
    assert WordSum(b, 2) == At16(b, 2) + WordSum(b, 4);
  }

  /** What is summed are the words of the pseudo header followed by the datagram. */
  lemma SumIsWordSum(d: seq<Byte>, src: nat, dst: nat, proto: nat)
    requires src < 0x1_0000_0000 && dst < 0x1_0000_0000 && proto < 256
    ensures Sum(d, src, dst, proto) == WordSum(PseudoHeader(|d|, src, dst, proto) + d, 0)
  {
    var b := PseudoHeader(|d|, src, dst, proto);
    WordSumConcat(b, d, 0);
    PseudoIsWordSum(|d|, src, dst, proto);
  }

  lemma LengthWord(len: nat)
    ensures len % 0x1_0000 == Pair(MemoryByte(len, 1), MemoryByte(len, 0))
  {
    var q := len / 0x1_0000;
    assert len / 0x100 == q * 0x100 + len % 0x1_0000 / 0x100;
  }

  // ----- other addresses, other protocols -----

  /** The four 16-bit halves of an address pair. */
  function Half(src: nat, dst: nat, k: nat): nat {
    if k == 0 then src / 0x1_0000 else if k == 1 then src % 0x1_0000
    else if k == 2 then dst / 0x1_0000 else dst % 0x1_0000
  }

  /** The pairs differ in half `k` at most. */
  ghost predicate SameBut(src: nat, dst: nat, src': nat, dst': nat, k: nat) {
    k < 4 && forall j :: 0 <= j < 4 && j != k ==> Half(src, dst, j) == Half(src', dst', j)
  }

  lemma SumHalfChanged(d: seq<Byte>, src: nat, dst: nat, src': nat, dst': nat, k: nat, proto: nat)
    requires src < 0x1_0000_0000 && dst < 0x1_0000_0000 && src' < 0x1_0000_0000 && dst' < 0x1_0000_0000 && proto < 256
    requires SameBut(src, dst, src', dst', k)
    ensures Sum(d, src', dst', proto) - Sum(d, src, dst, proto) == Swap16(Half(src', dst', k)) - Swap16(Half(src, dst, k))
  {
    assert k == 0 || k == 1 || k == 2 || k == 3;
    assert k != 0 ==> Half(src, dst, 0) == Half(src', dst', 0);
    assert k != 1 ==> Half(src, dst, 1) == Half(src', dst', 1);
    assert k != 2 ==> Half(src, dst, 2) == Half(src', dst', 2);
    assert k != 3 ==> Half(src, dst, 3) == Half(src', dst', 3);
  }

  /** Swapping bytes keeps congruence: two words are congruent exactly when they are equal or 0 and 65535. */
  lemma SwapCongruent(x: nat, y: nat)
    requires x < 0x1_0000 && y < 0x1_0000
    ensures Swap16(x) < 0x1_0000
    ensures x % 65535 == y % 65535 <==> Swap16(x) % 65535 == Swap16(y) % 65535
  {
    SwapTwice(x);
    SwapTwice(y);
    CongruentWords(x, y);
    CongruentWords(Swap16(x), Swap16(y));
  }

  lemma SwapTwice(x: nat)
    requires x < 0x1_0000
    ensures Swap16(x) < 0x1_0000 && Swap16(Swap16(x)) == x
    ensures (Swap16(x) == 0 <==> x == 0) && (Swap16(x) == 65535 <==> x == 65535)
  {
    DivModUnique(Swap16(x), 256, x % 256, x / 256);
    assert x == x / 256 * 256 + x % 256;
  }

  lemma CongruentWords(x: nat, y: nat)
    requires x < 0x1_0000 && y < 0x1_0000
    ensures x % 65535 == y % 65535 <==> x == y || (x == 0 && y == 65535) || (x == 65535 && y == 0)
  {
  }

  lemma CongruentSums(s: nat, t: nat, x: nat, y: nat)
    requires t - s == y - x
    ensures s % 65535 == t % 65535 <==> x % 65535 == y % 65535
  {
    ShiftResidue(s, t);
    ShiftResidue(x, y);
  }

  lemma ShiftResidue(s: nat, t: nat)
    ensures s % 65535 == t % 65535 <==> (t - s) % 65535 == 0
  {
    var a, b := s / 65535, t / 65535;
    assert t - s == (b - a) * 65535 + (t % 65535 - s % 65535);
  }

  lemma FoldsAgree(s: nat, t: nat)
    requires s > 0 && t > 0
    ensures Fold(s) == Fold(t) <==> s % 65535 == t % 65535
  {
    FoldIsResidue(s);
    FoldIsResidue(t);
    ShiftResidue(s, t);
    ShiftResidue(s - 1, t - 1);
  }

  lemma EqualIffCongruent(d: seq<Byte>, e: seq<Byte>, src: nat, dst: nat, src': nat, dst': nat, proto: nat, proto': nat)
    requires src < 0x1_0000_0000 && dst < 0x1_0000_0000 && src' < 0x1_0000_0000 && dst' < 0x1_0000_0000
    requires 0 < proto < 256 && 0 < proto' < 256 && |d| <= 131000 && |e| <= 131000
    ensures Compute(d, src, dst, proto) == Compute(e, src', dst', proto')
            <==> Sum(d, src, dst, proto) % 65535 == Sum(e, src', dst', proto') % 65535
  {
    SumFits(d, src, dst, proto);
    SumFits(e, src', dst', proto');
    FoldsAgree(Sum(d, src, dst, proto), Sum(e, src', dst', proto'));
  }

  /** With one half of the address pair changed the checksum is the same exactly when the two halves are congruent
      modulo 65535: equal, or 0 in one pair and 65535 in the other. */
  lemma HalfChanged(d: seq<Byte>, src: nat, dst: nat, src': nat, dst': nat, k: nat, proto: nat)
    requires src < 0x1_0000_0000 && dst < 0x1_0000_0000 && src' < 0x1_0000_0000 && dst' < 0x1_0000_0000
    requires 0 < proto < 256 && |d| <= 131000 && SameBut(src, dst, src', dst', k)
    ensures Compute(d, src', dst', proto) == Compute(d, src, dst, proto)
            <==> Half(src', dst', k) % 65535 == Half(src, dst, k) % 65535
  {
    var x, y := Half(src, dst, k), Half(src', dst', k);
    SumHalfChanged(d, src, dst, src', dst', k, proto);
    SwapCongruent(x, y);
    CongruentSums(Sum(d, src, dst, proto), Sum(d, src', dst', proto), Swap16(x), Swap16(y));
    EqualIffCongruent(d, d, src', dst', src, dst, proto, proto);
  }

  lemma SumUnderProtocol(d: seq<Byte>, src: nat, dst: nat, proto: nat, proto': nat)
    requires src < 0x1_0000_0000 && dst < 0x1_0000_0000 && proto < 256 && proto' < 256
    ensures Sum(d, src, dst, proto') - Sum(d, src, dst, proto) == 256 * (proto' - proto)
  {
    ProtocolWord(proto);
    ProtocolWord(proto');
  }

  /** The same bytes never have the same checksum under two protocol numbers. */
  lemma OtherProtocolDiffers(d: seq<Byte>, src: nat, dst: nat, proto: nat, proto': nat)
    requires src < 0x1_0000_0000 && dst < 0x1_0000_0000 && |d| <= 131000
    requires 0 < proto < 256 && 0 < proto' < 256 && proto != proto'
    ensures Compute(d, src, dst, proto) != Compute(d, src, dst, proto')
  {
    SumUnderProtocol(d, src, dst, proto, proto');
    Nearby(Sum(d, src, dst, proto), Sum(d, src, dst, proto'));
    EqualIffCongruent(d, d, src, dst, src, dst, proto, proto');
  }

  // ----- the loops -----

  /** Adds the words of `d` to a 32-bit running sum. */
  method AddWords(d: array<Byte>, len: nat, start: nat) returns (sum: nat)
    requires len <= d.Length && start < 0x1_0000_0000
    ensures sum == (start + WordSum(d[..len], 0)) % 0x1_0000_0000
  {
    ghost var data := d[..len];
    sum := start;
    ghost var exact: nat := start;
    Fits32(start);
    for i := 0 to len / 2
      invariant sum == exact % 0x1_0000_0000
      invariant exact + WordSum(data, 2 * i) == start + WordSum(data, 0)
    {
      var word := Pair(d[2 * i], d[2 * i + 1]);
      Add32Running(exact, word);
      sum := Add32(sum, word);
      exact := exact + word;
    }
    if len % 2 != 0 {
      Add32Running(exact, d[len - 1]);
      sum := Add32(sum, d[len - 1]);
      exact := exact + d[len - 1];
    }
  }

  method CalculateChecksum(d: array<Byte>, len: nat, src: nat, dst: nat, proto: nat) returns (c: nat)
    requires src < 0x1_0000_0000 && dst < 0x1_0000_0000 && proto < 256 && len <= d.Length
    ensures c == Compute(d[..len], src, dst, proto)
  {
    var sum := AddWords(d, len, Pseudo(len, src, dst, proto));
    ghost var total := sum;
    while sum >= 0x1_0000
      invariant Fold(sum) == Fold(total)
      decreases sum
    {
      sum := sum % 0x1_0000 + sum / 0x1_0000;
    }
    c := 0xFFFF - sum;
  }
}
