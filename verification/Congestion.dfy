/** TcpCongestionController (include/usn/protocol/tcp_congestion.hpp): slow start and congestion
    avoidance (section 3.1 of RFC 5681) in the source's 32-bit arithmetic. */
module Congestion {
  import opened Words

  const MAX_CWND: nat := 0x10_0000

  datatype Cc = Cc(mss: nat, cwnd: nat, ssthresh: nat, acc: nat)

  function Fresh(mssBytes: nat): Cc {
    var mss := if mssBytes == 0 then 1200 else mssBytes;
    Cc(mss, mss, 8 * mss % 0x1_0000_0000, 0)
  }

  predicate CanSend(c: Cc, inflight: nat, len: nat, peerWindow: nat) {
    inflight + len <= Min(c.cwnd, peerWindow)
  }

  /** The congestion-avoidance loop as compiled: the window it grows is a `uint32_t`. */
  function Avoid(acc: nat, cwnd: nat, mss: nat): (r: (nat, nat))
    requires 0 < mss < 0x1_0000_0000 && cwnd < 0x1_0000_0000
    ensures r.1 < 0x1_0000_0000
    decreases acc, if cwnd == 0 then 1 else 0
  {
    if acc >= cwnd then Avoid(acc - cwnd, Add32(cwnd, mss), mss) else (acc, cwnd)
  }

  predicate Words32(c: Cc) {
    && 0 < c.mss < 0x1_0000_0000
    && c.cwnd < 0x1_0000_0000
    && c.ssthresh < 0x1_0000_0000
    && c.acc < 0x1_0000_0000
  }

  function OnAck(c: Cc, acked: nat): Cc
    requires Words32(c)
  {
    if acked == 0 then c
    else
      var grown :=
        if c.cwnd < c.ssthresh then c.(cwnd := Add32(c.cwnd, acked))
        else
          var (acc, cwnd) := Avoid(Add32(c.acc, acked), c.cwnd, c.mss);
          c.(acc := acc, cwnd := cwnd);
      grown.(cwnd := Min(grown.cwnd, MAX_CWND))
  }

  function OnLoss(c: Cc): Cc {
    c.(ssthresh := Max(2 * c.mss % 0x1_0000_0000, c.cwnd / 2), cwnd := c.mss, acc := 0)
  }

  // ----- the loop over the mathematical integers -----

  function Grow(total: nat, cwnd: nat, mss: nat): (r: (nat, nat))
    requires 0 < cwnd
    ensures r.1 >= cwnd
    decreases total
  {
    if total >= cwnd then Grow(total - cwnd, cwnd + mss, mss) else (total, cwnd)
  }

  /** Bytes that have to be acknowledged to grow the window `k` times. */
  function Cost(cwnd: nat, mss: nat, k: nat): nat
    decreases k
  {
    if k == 0 then 0 else cwnd + Cost(cwnd + mss, mss, k - 1)
  }

  function Increments(total: nat, cwnd: nat, mss: nat): nat
    requires 0 < cwnd
    decreases total
  {
    if total >= cwnd then 1 + Increments(total - cwnd, cwnd + mss, mss) else 0
  }

  lemma TriangleStep(cwnd: nat, mss: nat, j: nat)
    ensures 2 * j * (cwnd + mss) + mss * j * (j - 1) + 2 * cwnd == 2 * (j + 1) * cwnd + mss * (j + 1) * j
  {
    assert 2 * j * (cwnd + mss) == 2 * j * cwnd + 2 * (mss * j);
    assert mss * j * (j - 1) == mss * j * j - mss * j;
    assert mss * (j + 1) * j == mss * j * j + mss * j;
  }

  lemma {:induction false} CostClosedForm(cwnd: nat, mss: nat, k: nat)
    ensures 2 * Cost(cwnd, mss, k) == 2 * k * cwnd + mss * k * (k - 1)
    decreases k
  {
    if k > 0 {
      CostClosedForm(cwnd + mss, mss, k - 1);
      TriangleStep(cwnd, mss, k - 1);
    }
  }

  lemma {:induction false} CostMonotone(cwnd: nat, mss: nat, j: nat, k: nat)
    requires j <= k
    ensures Cost(cwnd, mss, j) <= Cost(cwnd, mss, k)
    decreases j
  {
    if j > 0 {
      CostMonotone(cwnd + mss, mss, j - 1, k - 1);
    }
  }

  lemma {:induction false} GrowByCost(total: nat, cwnd: nat, mss: nat)
    requires 0 < cwnd
    ensures var k := Increments(total, cwnd, mss);
            && Cost(cwnd, mss, k) <= total < Cost(cwnd, mss, k + 1)
            && Grow(total, cwnd, mss) == (total - Cost(cwnd, mss, k), cwnd + k * mss)
    decreases total
  {
    if total >= cwnd {
      GrowByCost(total - cwnd, cwnd + mss, mss);
      var k := Increments(total - cwnd, cwnd + mss, mss);
      OneMore(k, mss);
      CostStep(cwnd, mss, k);
      CostStep(cwnd, mss, k + 1);
    } else {
      CostStep(cwnd, mss, 0);
    }
  }

  lemma OneMore(k: nat, mss: nat)
    ensures (k + 1) * mss == k * mss + mss
  {
  }

  lemma CostStep(cwnd: nat, mss: nat, k: nat)
    ensures Cost(cwnd, mss, k + 1) == cwnd + Cost(cwnd + mss, mss, k)
  {
  }

  /** While nothing exceeds 32 bits the compiled loop is the mathematical one. */
  lemma {:induction false} AvoidIsGrow(total: nat, cwnd: nat, mss: nat)
    requires 0 < mss < 0x1_0000_0000 && 0 < cwnd
    requires Grow(total, cwnd, mss).1 < 0x1_0000_0000
    ensures cwnd < 0x1_0000_0000 && Avoid(total, cwnd, mss) == Grow(total, cwnd, mss)
    decreases total
  {
    if total >= cwnd {
      AvoidIsGrow(total - cwnd, cwnd + mss, mss);
    }
  }

  lemma {:induction false} GrowSplits(a: nat, b: nat, cwnd: nat, mss: nat)
    requires 0 < cwnd
    ensures var (acc, w) := Grow(a, cwnd, mss); Grow(a + b, cwnd, mss) == Grow(acc + b, w, mss)
    decreases a
  {
    if a >= cwnd {
      GrowSplits(a - cwnd, b, cwnd + mss, mss);
    }
  }

  function Sum(acks: seq<nat>): nat {
    if acks == [] then 0 else acks[0] + Sum(acks[1..])
  }

  function OnAcks(c: Cc, acks: seq<nat>): Cc
    requires Words32(c)
    decreases |acks|
  {
    if acks == [] then c else AckKeepsWords(c, acks[0]); OnAcks(OnAck(c, acks[0]), acks[1..])
  }

  lemma AvoidAccumulator(acc: nat, cwnd: nat, mss: nat)
    requires 0 < mss < 0x1_0000_0000 && cwnd < 0x1_0000_0000
    ensures Avoid(acc, cwnd, mss).0 <= acc
    decreases acc, if cwnd == 0 then 1 else 0
  {
    if acc >= cwnd {
      AvoidAccumulator(acc - cwnd, Add32(cwnd, mss), mss);
    }
  }

  lemma AckKeepsWords(c: Cc, acked: nat)
    requires Words32(c)
    ensures Words32(OnAck(c, acked))
  {
    AvoidAccumulator(Add32(c.acc, acked), c.cwnd, c.mss);
  }

  /** An acknowledgement in congestion avoidance, below the clamp and without 32-bit wrap. */
  lemma AckInAvoidance(c: Cc, acked: nat)
    requires Words32(c) && 0 < c.cwnd && c.ssthresh <= c.cwnd && c.acc < c.cwnd
    requires c.acc + acked < 0x1_0000_0000
    requires Grow(c.acc + acked, c.cwnd, c.mss).1 <= MAX_CWND
    ensures var (acc, w) := Grow(c.acc + acked, c.cwnd, c.mss);
            OnAck(c, acked) == c.(acc := acc, cwnd := w)
  {
    AvoidIsGrow(c.acc + acked, c.cwnd, c.mss);
  }

  lemma GrowRemainder(total: nat, cwnd: nat, mss: nat)
    requires 0 < cwnd
    ensures Grow(total, cwnd, mss).0 <= total && Grow(total, cwnd, mss).0 < Grow(total, cwnd, mss).1
    decreases total
  {
  }

  /** Congestion avoidance does not depend on how the acknowledged bytes are split into calls: below
      the clamp, any list of acks leaves the same controller as one ack of their sum, and the window
      has grown by the largest k with k*cwnd + mss*k*(k-1)/2 <= accumulator + acknowledged. */
  lemma {:induction false} AckSplittingIrrelevant(c: Cc, acks: seq<nat>)
    requires Words32(c) && 0 < c.cwnd && c.ssthresh <= c.cwnd && c.acc < c.cwnd
    requires c.acc + Sum(acks) < 0x1_0000_0000
    requires Grow(c.acc + Sum(acks), c.cwnd, c.mss).1 <= MAX_CWND
    ensures OnAcks(c, acks) == OnAck(c, Sum(acks))
    decreases |acks|
  {
    if acks != [] {
      var a, rest := acks[0], Sum(acks[1..]);
      GrowSplits(c.acc + a, rest, c.cwnd, c.mss);
      GrowRemainder(c.acc + a, c.cwnd, c.mss);
      AckInAvoidance(c, Sum(acks));
      AckInAvoidance(c, a);
      var c1 := OnAck(c, a);
      AckKeepsWords(c, a);
      AckSplittingIrrelevant(c1, acks[1..]);
      AckInAvoidance(c1, rest);
    }
  }

  lemma IncrementsLargest(total: nat, cwnd: nat, mss: nat, k: nat)
    requires 0 < cwnd
    ensures Cost(cwnd, mss, k) <= total <==> k <= Increments(total, cwnd, mss)
  {
    var n := Increments(total, cwnd, mss);
    GrowByCost(total, cwnd, mss);
    if k <= n {
      CostMonotone(cwnd, mss, k, n);
    } else {
      CostMonotone(cwnd, mss, n + 1, k);
    }
  }

  lemma {:induction false} ScaleOrder(j: nat, k: nat, mss: nat)
    requires 0 < mss
    ensures j <= k <==> j * mss <= k * mss
  {
    if j > 0 && k > 0 {
      ScaleOrder(j - 1, k - 1, mss);
      assert j * mss == (j - 1) * mss + mss;
      assert k * mss == (k - 1) * mss + mss;
    }
  }

  /** The window grows by at least k segments exactly when the accumulated bytes pay for k of them. */
  lemma LargestIncrement(c: Cc, acked: nat, k: nat)
    requires Words32(c) && 0 < c.cwnd && c.ssthresh <= c.cwnd && c.acc < c.cwnd
    requires c.acc + acked < 0x1_0000_0000
    requires Grow(c.acc + acked, c.cwnd, c.mss).1 <= MAX_CWND
    ensures 2 * k * c.cwnd + c.mss * k * (k - 1) <= 2 * (c.acc + acked)
            <==> c.cwnd + k * c.mss <= OnAck(c, acked).cwnd
  {
    var total := c.acc + acked;
    AckInAvoidance(c, acked);
    assert OnAck(c, acked).cwnd == c.cwnd + Increments(total, c.cwnd, c.mss) * c.mss by {
      GrowByCost(total, c.cwnd, c.mss);
    }
    ScaleOrder(k, Increments(total, c.cwnd, c.mss), c.mss);
    IncrementsLargest(total, c.cwnd, c.mss, k);
    CostClosedForm(c.cwnd, c.mss, k);
  }

  /** Slow start does not depend on how the acknowledged bytes are split either: up to ssthresh, and below the
      clamp, the window grows by exactly what was acknowledged and nothing else changes. */
  lemma {:induction false} SlowStartAdds(c: Cc, acks: seq<nat>)
    requires Words32(c) && c.cwnd + Sum(acks) <= c.ssthresh && c.cwnd + Sum(acks) <= MAX_CWND
    requires 0 < c.cwnd && c.acc == 0
    ensures OnAcks(c, acks) == c.(cwnd := c.cwnd + Sum(acks))
    decreases |acks|
  {
    if acks != [] {
      Fits32(c.cwnd + acks[0]);
      AckKeepsWords(c, acks[0]);
      SlowStartAdds(OnAck(c, acks[0]), acks[1..]);
    }
  }

  /** A new controller starts with one segment and leaves slow start when the window has reached eight. */
  lemma FreshSlowStart(mssBytes: nat, acks: seq<nat>)
    requires 0 < mssBytes && 8 * mssBytes <= MAX_CWND && Sum(acks) <= 7 * mssBytes
    ensures Words32(Fresh(mssBytes))
    ensures var c := OnAcks(Fresh(mssBytes), acks);
            && c.cwnd == mssBytes + Sum(acks) && c.acc == 0
            && (c.cwnd < c.ssthresh <==> Sum(acks) < 7 * mssBytes)
  {
    Fits32(8 * mssBytes);
    SlowStartAdds(Fresh(mssBytes), acks);
  }

  // ----- whole runs of acks and losses -----

  datatype Event = Ack(bytes: nat) | Loss

  /** What every run keeps; every field is far from 2^32. */
  ghost predicate Healthy(c: Cc) {
    && 1 <= c.mss <= MAX_CWND
    && c.mss <= c.cwnd <= MAX_CWND
    && 2 * c.mss <= c.ssthresh <= 8 * MAX_CWND
    && c.acc < c.cwnd
    && (c.cwnd < c.ssthresh ==> c.acc == 0)
  }

  lemma FreshHealthy(mssBytes: nat)
    requires mssBytes <= MAX_CWND
    ensures Healthy(Fresh(mssBytes))
  {
  }

  lemma {:induction false} GrowStep(total: nat, cwnd: nat, mss: nat)
    requires 1 <= mss <= cwnd <= MAX_CWND && total < cwnd + MAX_CWND
    ensures var (acc, w) := Grow(total, cwnd, mss); w <= 2 * MAX_CWND + mss && (w > cwnd ==> acc < MAX_CWND)
  {
    if total >= cwnd {
      GrowLoop(total - cwnd, cwnd + mss, mss);
    }
  }

  lemma {:induction false} GrowLoop(total: nat, cwnd: nat, mss: nat)
    requires 1 <= mss <= cwnd
    ensures var (acc, w) := Grow(total, cwnd, mss); acc <= total && w <= cwnd + total
    decreases total
  {
    if total >= cwnd {
      GrowLoop(total - cwnd, cwnd + mss, mss);
    }
  }

  /** No 32-bit value overflows in an ack of at most 2^20 bytes from a healthy controller. */
  lemma AckNoOverflow(c: Cc, n: nat)
    requires Healthy(c) && n <= MAX_CWND
    ensures c.cwnd + n < 0x1_0000_0000 && c.acc + n < 0x1_0000_0000
    ensures Grow(c.acc + n, c.cwnd, c.mss).1 < 0x1_0000_0000
    ensures Avoid(c.acc + n, c.cwnd, c.mss) == Grow(c.acc + n, c.cwnd, c.mss)
  {
    GrowStep(c.acc + n, c.cwnd, c.mss);
    AvoidIsGrow(c.acc + n, c.cwnd, c.mss);
  }

  lemma SlowStartHealthy(c: Cc, n: nat)
    requires Healthy(c) && n <= MAX_CWND && c.cwnd < c.ssthresh
    ensures Healthy(OnAck(c, n)) && c.cwnd <= OnAck(c, n).cwnd
    ensures OnAck(c, n).cwnd == Min(c.cwnd + n, MAX_CWND)
  {
    Fits32(c.cwnd + n);
  }

  lemma AvoidanceHealthy(c: Cc, n: nat)
    requires Healthy(c) && 0 < n <= MAX_CWND && c.ssthresh <= c.cwnd
    ensures Healthy(OnAck(c, n)) && c.cwnd <= OnAck(c, n).cwnd && c.ssthresh <= OnAck(c, n).cwnd
  {
    AckNoOverflow(c, n);
    Fits32(c.acc + n);
    GrowStep(c.acc + n, c.cwnd, c.mss);
    GrowRemainder(c.acc + n, c.cwnd, c.mss);
    var (acc, w) := Grow(c.acc + n, c.cwnd, c.mss);
    assert OnAck(c, n) == c.(acc := acc, cwnd := Min(w, MAX_CWND));
  }

  lemma AckHealthy(c: Cc, n: nat)
    requires Healthy(c) && n <= MAX_CWND
    ensures Healthy(OnAck(c, n))
    ensures c.ssthresh <= c.cwnd ==> OnAck(c, n).ssthresh <= OnAck(c, n).cwnd
    ensures c.cwnd <= OnAck(c, n).cwnd
  {
    if n > 0 {
      if c.cwnd < c.ssthresh {
        SlowStartHealthy(c, n);
      } else {
        AvoidanceHealthy(c, n);
      }
    }
  }

  /** A loss restarts slow start from one segment towards half the window, but no less than two segments. */
  lemma LossHealthy(c: Cc)
    requires Healthy(c)
    ensures Healthy(OnLoss(c))
    ensures OnLoss(c).cwnd == c.mss < OnLoss(c).ssthresh
    ensures 2 * OnLoss(c).ssthresh <= Max(4 * c.mss, c.cwnd) <= 2 * OnLoss(c).ssthresh + 1
  {
  }

  ghost predicate SmallAcks(es: seq<Event>) {
    forall i :: 0 <= i < |es| && es[i].Ack? ==> es[i].bytes <= MAX_CWND
  }

  ghost function Run(c: Cc, es: seq<Event>): (r: Cc)
    requires Healthy(c) && SmallAcks(es)
    ensures Healthy(r)
  {
    if es == [] then c
    else
      var last := es[|es| - 1];
      var before := Run(c, es[..|es| - 1]);
      assert last.Ack? ==> last.bytes <= MAX_CWND;
      if last.Ack? then AckHealthy(before, last.bytes); OnAck(before, last.bytes)
      else LossHealthy(before); OnLoss(before)
  }

  /** Over every run of acks (of at most 2^20 bytes) and losses, from a new controller with an mss of
      at most 2^20: mss <= cwnd <= 2^20, ssthresh >= 2*mss, and the accumulator is zero in slow start. */
  lemma RunStaysHealthy(mssBytes: nat, es: seq<Event>)
    requires mssBytes <= MAX_CWND && SmallAcks(es)
    ensures Healthy(Fresh(mssBytes))
    ensures var c := Run(Fresh(mssBytes), es);
            && c.mss == (if mssBytes == 0 then 1200 else mssBytes)
            && c.mss <= c.cwnd <= MAX_CWND
            && 2 * c.mss <= c.ssthresh
            && (c.cwnd < c.ssthresh ==> c.acc == 0)
  {
    FreshHealthy(mssBytes);
    RunKeepsMss(Fresh(mssBytes), es);
  }

  lemma {:induction false} RunKeepsMss(c: Cc, es: seq<Event>)
    requires Healthy(c) && SmallAcks(es)
    ensures Run(c, es).mss == c.mss
  {
    if es != [] {
      RunKeepsMss(c, es[..|es| - 1]);
    }
  }

  /** Between losses the phase never goes back from avoidance to slow start, and cwnd never shrinks. */
  lemma {:induction false} PhaseIsMonotone(c: Cc, es: seq<Event>, i: nat)
    requires Healthy(c) && SmallAcks(es) && i <= |es|
    requires forall j :: i <= j < |es| ==> es[j].Ack?
    ensures SmallAcks(es[..i])
    ensures var mid := Run(c, es[..i]); var end := Run(c, es);
            mid.cwnd <= end.cwnd && (mid.ssthresh <= mid.cwnd ==> end.ssthresh <= end.cwnd)
    decreases |es|
  {
    if i == |es| {
      assert es[..i] == es;
    } else {
      var prev := es[..|es| - 1];
      assert prev[..i] == es[..i];
      PhaseIsMonotone(c, prev, i);
      AckHealthy(Run(c, prev), es[|es| - 1].bytes);
    }
  }

  class TcpCongestionController {
    var mss: nat
    var cwnd: nat
    var ssthresh: nat
    var acc: nat

    ghost function Value(): Cc
      reads this
    {
      Cc(mss, cwnd, ssthresh, acc)
    }

    constructor (mssBytes: nat)
      requires mssBytes < 0x1_0000_0000
      ensures Value() == Fresh(mssBytes)
    {
      var m := if mssBytes == 0 then 1200 else mssBytes;
      mss, cwnd, ssthresh, acc := m, m, 8 * m % 0x1_0000_0000, 0;
    }

    method CanSendNow(inflight: nat, len: nat, peerWindow: nat) returns (ok: bool)
      ensures ok <==> CanSend(Value(), inflight, len, peerWindow)
    {
      var allowed := Min(cwnd, peerWindow);
      ok := inflight + len <= allowed;
    }

    method OnAcked(acked: nat)
      requires Words32(Value())
      modifies this
      ensures Value() == OnAck(old(Value()), acked)
    {
      if acked == 0 {
        return;
      }
      if cwnd < ssthresh {
        cwnd := Add32(cwnd, acked);
      } else {
        acc := Add32(acc, acked);
        while acc >= cwnd
          invariant mss == old(mss) && ssthresh == old(ssthresh) && cwnd < 0x1_0000_0000
          invariant Avoid(acc, cwnd, mss) == Avoid(Add32(old(acc), acked), old(cwnd), mss)
          decreases acc, if cwnd == 0 then 1 else 0
        {
          acc := acc - cwnd;
          cwnd := Add32(cwnd, mss);
        }
      }
      if cwnd > MAX_CWND {
        cwnd := MAX_CWND;
      }
    }

    method OnLost()
      modifies this
      ensures Value() == OnLoss(old(Value()))
    {
      ssthresh := Max(2 * mss % 0x1_0000_0000, cwnd / 2);
      cwnd := mss;
      acc := 0;
    }
  }
}
