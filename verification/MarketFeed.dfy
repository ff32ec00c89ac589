/** The market feed: the publisher's drop / swap / send loop (apps/market_udp/feed_publisher.cpp) and the
    subscriber's gap and reorder accounting (include/usn/protocol/udp_feedback.hpp). */
module MarketFeed {
  import opened Words

  // ----- subscriber -----

  datatype Feedback = Feedback(expected: nat, total: nat, gaps: nat, reorderEvents: nat, maxDepth: nat)

  const NOTHING_SEEN := Feedback(1, 0, 0, 0, 0)

  function Observe(f: Feedback, n: nat): Feedback {
    var g := f.(total := f.total + 1);
    if n == f.expected then g.(expected := n + 1)
    else if n > f.expected then g.(gaps := f.gaps + (n - f.expected), expected := n + 1)
    else g.(reorderEvents := f.reorderEvents + 1, maxDepth := Max(f.maxDepth, f.expected - n))
  }

  function ObserveAll(f: Feedback, ns: seq<nat>): Feedback {
    if ns == [] then f else Observe(ObserveAll(f, ns[..|ns| - 1]), ns[|ns| - 1])
  }

  /** The highest number in `ns`, or zero. */
  function Highest(ns: seq<nat>): nat {
    if ns == [] then 0 else Max(Highest(ns[..|ns| - 1]), ns[|ns| - 1])
  }

  lemma ObserveAppend(f: Feedback, ns: seq<nat>, n: nat)
    ensures ObserveAll(f, ns + [n]) == Observe(ObserveAll(f, ns), n)
    ensures Highest(ns + [n]) == Max(Highest(ns), n)
  {
    assert (ns + [n])[..|ns|] == ns;
  }

  /** Whatever arrives, in whatever order: expected_seq - 1 is the highest number seen, every arrival is
      counted, and expected_seq - 1 = total - reorder_events + gaps. */
  lemma {:induction false} SubscriberBalance(ns: seq<nat>)
    ensures var f := ObserveAll(NOTHING_SEEN, ns);
            && f.expected == Highest(ns) + 1
            && f.total == |ns|
            && f.expected - 1 == f.total - f.reorderEvents + f.gaps
  {
    if ns != [] {
      SubscriberBalance(ns[..|ns| - 1]);
    }
  }

  /** Arrival `j` is late: not above all the ones before it. */
  predicate Late(ns: seq<nat>, j: nat)
    requires j < |ns|
  {
    ns[j] <= Highest(ns[..j])
  }

  /** How far behind it is. */
  function Lag(ns: seq<nat>, j: nat): int
    requires j < |ns|
  {
    Highest(ns[..j]) + 1 - ns[j]
  }

  ghost function LateOnes(ns: seq<nat>): set<nat> {
    set j | 0 <= j < |ns| && Late(ns, j)
  }

  lemma LateOnesAppend(ns: seq<nat>)
    requires ns != []
    ensures var n := |ns| - 1; LateOnes(ns) == LateOnes(ns[..n]) + (if Late(ns, n) then {n} else {})
    ensures |ns| - 1 !in LateOnes(ns[..|ns| - 1])
  {
    var n := |ns| - 1;
    assert forall j :: 0 <= j < n ==> ns[..n][..j] == ns[..j] && ns[..n][j] == ns[j];
  }

  /** `m` is the largest lag of a late arrival, or zero if none is late. */
  ghost predicate LargestLag(ns: seq<nat>, m: nat) {
    && (forall j :: 0 <= j < |ns| && Late(ns, j) ==> Lag(ns, j) <= m)
    && (m == 0 || exists j :: 0 <= j < |ns| && Late(ns, j) && Lag(ns, j) == m)
  }

  lemma LargestLagAppend(ns: seq<nat>, m: nat)
    requires ns != [] && LargestLag(ns[..|ns| - 1], m)
    ensures var n := |ns| - 1; LargestLag(ns, if Late(ns, n) then Max(m, Lag(ns, n)) else m)
  {
    var n := |ns| - 1;
    var init := ns[..n];
    assert forall j :: 0 <= j < n ==> init[..j] == ns[..j] && init[j] == ns[j];
    assert forall j :: 0 <= j < n ==> Late(init, j) == Late(ns, j) && Lag(init, j) == Lag(ns, j);
    if m != 0 {
      var j :| 0 <= j < |init| && Late(init, j) && Lag(init, j) == m;
      assert Late(ns, j) && Lag(ns, j) == m;
    }
  }

  /** reorder_events counts the late arrivals, and max_reorder_depth is the largest lag among them. */
  lemma {:induction false} ReordersAreLate(ns: seq<nat>)
    ensures var f := ObserveAll(NOTHING_SEEN, ns); f.reorderEvents == |LateOnes(ns)| && LargestLag(ns, f.maxDepth)
  {
    if ns == [] {
      assert LateOnes(ns) == {};
    } else {
      var n := |ns| - 1;
      ReordersAreLate(ns[..n]);
      SubscriberBalance(ns[..n]);
      LateOnesAppend(ns);
      LargestLagAppend(ns, ObserveAll(NOTHING_SEEN, ns[..n]).maxDepth);
    }
  }

  class UdpDeliveryFeedback {
    var expectedSeq: nat
    var total: nat
    var gaps: nat
    var reorderEvents: nat
    var maxReorderDepth: nat

    ghost function Value(): Feedback
      reads this
    {
      Feedback(expectedSeq, total, gaps, reorderEvents, maxReorderDepth)
    }

    constructor ()
      ensures Value() == NOTHING_SEEN
    {
      expectedSeq, total, gaps, reorderEvents, maxReorderDepth := 1, 0, 0, 0, 0;
    }

    method ObserveSeq(n: nat)
      modifies this
      ensures Value() == Observe(old(Value()), n)
    {
      total := total + 1;
      if n == expectedSeq {
        expectedSeq := expectedSeq + 1;
        return;
      }
      if n > expectedSeq {
        gaps := gaps + (n - expectedSeq);
        expectedSeq := n + 1;
        return;
      }
      reorderEvents := reorderEvents + 1;
      maxReorderDepth := Max(maxReorderDepth, expectedSeq - n);
    }
  }

  // ----- publisher -----

  /** Sequence numbers stand for the messages; `sent` and `dropped` record which ones went where. */
  datatype Publisher = Publisher(next: nat, held: seq<nat>, sent: seq<nat>, dropped: set<nat>,
                                 droppedTotal: nat, reorderedTotal: nat)

  const START := Publisher(1, [], [], {}, 0, 0)

  function SwapLast(q: seq<nat>): seq<nat>
    requires |q| >= 2
  {
    q[..|q| - 2] + [q[|q| - 1], q[|q| - 2]]
  }

  /** The queue once message `m` has been appended and possibly swapped with the one before it. */
  function Enqueued(held: seq<nat>, m: nat, reorder: bool): (q: seq<nat>)
    ensures |q| == |held| + 1
  {
    if reorder && held != [] then SwapLast(held + [m]) else held + [m]
  }

  /** One pass of the loop; `drop` and `reorder` are its two random draws. */
  function Tick(p: Publisher, drop: bool, reorder: bool): Publisher {
    var m := p.next;
    var p1 := p.(next := m + 1);
    if drop then p1.(dropped := p.dropped + {m}, droppedTotal := p.droppedTotal + 1)
    else
      var q := Enqueued(p.held, m, reorder);
      p1.(held := q[|p.held|..], sent := p.sent + q[..|p.held|],
          reorderedTotal := if reorder && p.held != [] then p.reorderedTotal + 1 else p.reorderedTotal)
  }

  function Ticks(draws: seq<(bool, bool)>): Publisher {
    if draws == [] then START
    else
      var d := draws[|draws| - 1];
      Tick(Ticks(draws[..|draws| - 1]), d.0, d.1)
  }

  class FeedPublisher {
    var next: nat
    var queue: seq<nat>
    var sentTotal: nat
    var droppedTotal: nat
    var reorderedTotal: nat
    ghost var sent: seq<nat>
    ghost var dropped: set<nat>

    ghost predicate Valid()
      reads this
    {
      sentTotal == |sent|
    }

    ghost function Value(): Publisher
      reads this
    {
      Publisher(next, queue, sent, dropped, droppedTotal, reorderedTotal)
    }

    constructor ()
      ensures Valid() && Value() == START
    {
      next, queue, sentTotal, droppedTotal, reorderedTotal := 1, [], 0, 0, 0;
      sent, dropped := [], {};
    }

    method Publish(drop: bool, reorder: bool)
      requires Valid()
      modifies this
      ensures Valid() && Value() == Tick(old(Value()), drop, reorder)
    {
      var m := next;
      next := next + 1;
      if drop {
        droppedTotal := droppedTotal + 1;
        dropped := dropped + {m};
        return;
      }
      Enqueue(m, reorder);
      Flush();
    }

    method Enqueue(m: nat, reorder: bool)
      modifies this`queue, this`reorderedTotal
      ensures queue == Enqueued(old(queue), m, reorder)
      ensures reorderedTotal == if reorder && old(queue) != [] then old(reorderedTotal) + 1 else old(reorderedTotal)
    {
      queue := queue + [m];
      if reorder && |queue| >= 2 {
        queue := SwapLast(queue);
        reorderedTotal := reorderedTotal + 1;
      }
    }

    /** Sends from the front until one message is left. */
    method Flush()
      requires Valid() && |queue| >= 1
      modifies this`queue, this`sent, this`sentTotal
      ensures Valid()
      ensures queue == old(queue)[|old(queue)| - 1..]
      ensures sent == old(sent) + old(queue)[..|old(queue)| - 1]
    {
      ghost var i := 0;
      while |queue| > 1
        invariant Valid() && 0 <= i < |old(queue)|
        invariant queue == old(queue)[i..]
        invariant sent == old(sent) + old(queue)[..i]
        decreases |queue|
      {
        var msg := queue[0];
        queue := queue[1..];
        sent := sent + [msg];
        sentTotal := sentTotal + 1;
        i := i + 1;
      }
    }
  }

  // ----- both ends over a lossless ordered link -----

  /** Each number below `next` has been sent, dropped or is held: exactly one of the three. */
  ghost predicate Partition(p: Publisher) {
    && (forall n :: 1 <= n < p.next ==> n in p.sent || n in p.dropped || n in p.held)
    && (forall n :: n in p.sent ==> 1 <= n < p.next && n !in p.dropped && n !in p.held)
    && (forall n :: n in p.dropped ==> 1 <= n < p.next && n !in p.held)
    && (forall n :: n in p.held ==> 1 <= n < p.next)
    && Distinct(p.sent)
  }

  ghost predicate Inv(p: Publisher) {
    && p.next >= 1 && |p.held| <= 1
    && Partition(p)
    && |p.sent| + p.droppedTotal + |p.held| == p.next - 1
    && |p.dropped| == p.droppedTotal
    && Highest(p.sent) < p.next
    && (forall n :: n in p.sent ==> n <= Highest(p.sent))
    && ObserveAll(NOTHING_SEEN, p.sent).reorderEvents
       + (if p.held != [] && p.held[0] <= Highest(p.sent) then 1 else 0) <= p.reorderedTotal
  }

  lemma TickDropKeeps(p: Publisher, reorder: bool)
    requires Inv(p)
    ensures Inv(Tick(p, true, reorder))
  {
    assert p.next !in p.dropped;
  }

  lemma SendOnePartition(p: Publisher, h: nat, n: nat, left: nat)
    requires Partition(p) && p.held == [h] && ((n == h && left == p.next) || (n == p.next && left == h))
    ensures Partition(p.(next := p.next + 1, held := [left], sent := p.sent + [n]))
  {
    assert h in p.held && p.next !in p.held;
    assert n !in p.sent;
  }

  /** Sending `n` and keeping `left`, the two being the held message and the new one. */
  lemma SendOne(p: Publisher, h: nat, n: nat, left: nat)
    requires Inv(p) && p.held == [h] && ((n == h && left == p.next) || (n == p.next && left == h))
    ensures Inv(p.(next := p.next + 1, held := [left], sent := p.sent + [n],
                   reorderedTotal := if n == p.next then p.reorderedTotal + 1 else p.reorderedTotal))
  {
    ObserveAppend(NOTHING_SEEN, p.sent, n);
    SubscriberBalance(p.sent);
    assert h in p.held;
    SendOnePartition(p, h, n, left);
  }

  lemma TickHoldsFirst(p: Publisher, reorder: bool)
    requires Inv(p) && p.held == []
    ensures Inv(Tick(p, false, reorder))
  {
    var m := p.next;
    assert Enqueued(p.held, m, reorder) == [m];
    assert Tick(p, false, reorder) == p.(next := m + 1, held := [m]) by {
      assert p.sent + [] == p.sent;
    }
    assert m !in p.sent && m !in p.dropped;
  }

  lemma TickSendsOne(p: Publisher, h: nat, reorder: bool)
    requires p.held == [h]
    ensures Tick(p, false, reorder)
            == p.(next := p.next + 1, held := [if reorder then h else p.next],
                  sent := p.sent + [if reorder then p.next else h],
                  reorderedTotal := if reorder then p.reorderedTotal + 1 else p.reorderedTotal)
  {
    var q := Enqueued(p.held, p.next, reorder);
    assert q == if reorder then [p.next, h] else [h, p.next];
  }

  lemma TickSendKeeps(p: Publisher, reorder: bool)
    requires Inv(p)
    ensures Inv(Tick(p, false, reorder))
  {
    if p.held == [] {
      TickHoldsFirst(p, reorder);
    } else {
      var h := p.held[0];
      assert h in p.held && p.held == [h];
      TickSendsOne(p, h, reorder);
      if reorder {
        SendOne(p, h, p.next, h);
      } else {
        SendOne(p, h, h, p.next);
      }
    }
  }

  lemma {:induction false} TicksKeep(draws: seq<(bool, bool)>)
    ensures Inv(Ticks(draws))
  {
    if draws != [] {
      var d := draws[|draws| - 1];
      var p := Ticks(draws[..|draws| - 1]);
      TicksKeep(draws[..|draws| - 1]);
      if d.0 {
        TickDropKeeps(p, d.1);
      } else {
        TickSendKeeps(p, d.1);
      }
    }
  }

  /** Publisher accounting: sent + dropped + held = seq - 1, with at most one held. */
  lemma PublisherBalance(draws: seq<(bool, bool)>)
    ensures var p := Ticks(draws); |p.held| <= 1 && |p.sent| + p.droppedTotal + |p.held| == p.next - 1
  {
    TicksKeep(draws);
  }

  /** Message `n` was not dropped. */
  predicate KeptAt(draws: seq<(bool, bool)>, n: nat) {
    1 <= n <= |draws| && !draws[n - 1].0
  }

  /** Message `n` swapped places with the one held. */
  ghost predicate SwappedAt(draws: seq<(bool, bool)>, n: nat) {
    KeptAt(draws, n) && draws[n - 1].1 && exists m: nat :: m < n && KeptAt(draws, m)
  }

  /** Message `n` is the one held back: kept, not itself sent ahead of an older one, and every message kept after
      it was sent ahead of it. */
  ghost predicate HeldBack(draws: seq<(bool, bool)>, n: nat) {
    && KeptAt(draws, n) && !SwappedAt(draws, n)
    && forall m: nat :: m > n && KeptAt(draws, m) ==> draws[m - 1].1
  }

  lemma KeptPrefix(draws: seq<(bool, bool)>, n: nat)
    requires draws != []
    ensures n < |draws| ==> KeptAt(draws, n) == KeptAt(draws[..|draws| - 1], n)
    ensures n < |draws| ==> SwappedAt(draws, n) == SwappedAt(draws[..|draws| - 1], n)
  {
    var init := draws[..|draws| - 1];
    if n < |draws| {
      forall m: nat | m < n
        ensures KeptAt(draws, m) == KeptAt(init, m)
      {
      }
    }
  }

  lemma {:induction false} NothingHeld(draws: seq<(bool, bool)>)
    ensures Ticks(draws).next == |draws| + 1
    ensures Ticks(draws).held == [] <==> forall n: nat :: !KeptAt(draws, n)
  {
    if draws != [] {
      var init := draws[..|draws| - 1];
      NothingHeld(init);
      TicksKeep(init);
      forall n: nat | n < |draws|
        ensures KeptAt(draws, n) == KeptAt(init, n)
      {
        KeptPrefix(draws, n);
      }
      if !draws[|draws| - 1].0 {
        assert KeptAt(draws, |draws|);
      }
    }
  }

  lemma TickHolds(p: Publisher, drop: bool, reorder: bool, n: nat)
    requires |p.held| <= 1
    ensures n in Tick(p, drop, reorder).held <==>
              || (n == p.next && !drop && !(reorder && p.held != []))
              || (n in p.held && (drop || reorder))
  {
    if !drop {
      if p.held == [] {
        assert Enqueued(p.held, p.next, reorder) == [p.next];
      } else {
        assert p.held == [p.held[0]];
        TickSendsOne(p, p.held[0], reorder);
      }
    }
  }

  lemma LastHeldBack(draws: seq<(bool, bool)>)
    requires draws != []
    ensures var last := |draws|; var p := Ticks(draws[..last - 1]);
            HeldBack(draws, last) <==> !draws[last - 1].0 && !(draws[last - 1].1 && p.held != [])
  {
    var last := |draws|;
    var init := draws[..last - 1];
    NothingHeld(init);
    forall m: nat | m < last
      ensures KeptAt(draws, m) == KeptAt(init, m)
    {
      KeptPrefix(draws, m);
    }
  }

  lemma {:induction false} HeldDecided(draws: seq<(bool, bool)>, n: nat)
    ensures n in Ticks(draws).held <==> HeldBack(draws, n)
  {
    if draws != [] {
      var last := |draws|;
      var init := draws[..last - 1];
      HeldDecided(init, n);
      NothingHeld(init);
      TicksKeep(init);
      TickHolds(Ticks(init), draws[last - 1].0, draws[last - 1].1, n);
      if n < last {
        HeldBackLonger(draws, n);
      } else if n == last {
        LastHeldBack(draws);
      }
    }
  }

  lemma {:induction false} DroppedDecided(draws: seq<(bool, bool)>, n: nat)
    ensures n in Ticks(draws).dropped <==> 1 <= n <= |draws| && draws[n - 1].0
  {
    if draws != [] {
      var init := draws[..|draws| - 1];
      DroppedDecided(init, n);
      NothingHeld(init);
    }
  }

  /** What the publisher did with each message is decided by its draws alone: dropped exactly if drawn so, held
      back exactly as `HeldBack` says, and sent otherwise. */
  lemma DrawsDecide(draws: seq<(bool, bool)>, n: nat)
    ensures var p := Ticks(draws);
            && (n in p.dropped <==> 1 <= n <= |draws| && draws[n - 1].0)
            && (n in p.held <==> HeldBack(draws, n))
            && (n in p.sent <==> KeptAt(draws, n) && !HeldBack(draws, n))
  {
    TicksKeep(draws);
    NothingHeld(draws);
    HeldDecided(draws, n);
    DroppedDecided(draws, n);
  }

  lemma HeldBackLonger(draws: seq<(bool, bool)>, n: nat)
    requires draws != [] && n < |draws|
    ensures var last := |draws|;
            HeldBack(draws, n) <==> HeldBack(draws[..last - 1], n) && (draws[last - 1].0 || draws[last - 1].1)
  {
    var last := |draws|;
    var init := draws[..last - 1];
    forall m: nat
      ensures m < last ==> KeptAt(draws, m) == KeptAt(init, m) && SwappedAt(draws, m) == SwappedAt(init, m)
      ensures m >= last ==> !KeptAt(init, m)
    {
      KeptPrefix(draws, m);
    }
    assert KeptAt(draws, last) == !draws[last - 1].0;
  }

  ghost function Swaps(draws: seq<(bool, bool)>): set<nat> {
    set n: nat | n <= |draws| && SwappedAt(draws, n)
  }

  lemma SwapsLonger(draws: seq<(bool, bool)>)
    requires draws != []
    ensures var last := |draws|;
            && Swaps(draws) == Swaps(draws[..last - 1]) + (if SwappedAt(draws, last) then {last} else {})
            && last !in Swaps(draws[..last - 1])
  {
    forall n: nat
      ensures n < |draws| ==> SwappedAt(draws, n) == SwappedAt(draws[..|draws| - 1], n)
    {
      KeptPrefix(draws, n);
    }
  }

  /** reordered_total counts the messages sent ahead of the one held. */
  lemma {:induction false} SwapsCounted(draws: seq<(bool, bool)>)
    ensures Ticks(draws).reorderedTotal == |Swaps(draws)|
  {
    if draws == [] {
      assert Swaps(draws) == {};
    } else {
      var last := |draws|;
      var init := draws[..last - 1];
      SwapsCounted(init);
      SwapsLonger(draws);
      NothingHeld(init);
      forall m: nat | m < last
        ensures KeptAt(draws, m) == KeptAt(init, m)
      {
        KeptPrefix(draws, m);
      }
    }
  }

  ghost function Upto(m: nat): (s: set<nat>)
    ensures |s| == m && forall n :: n in s <==> 1 <= n <= m
  {
    if m == 0 then {} else Upto(m - 1) + {m}
  }

  ghost function Members(ns: seq<nat>): set<nat> {
    set n | n in ns
  }

  lemma {:induction false} DistinctSize(ns: seq<nat>)
    requires Distinct(ns)
    ensures |Members(ns)| == |ns|
  {
    if ns != [] {
      var init, last := ns[..|ns| - 1], ns[|ns| - 1];
      DistinctSize(init);
      assert ns == init + [last];
      assert Members(ns) == Members(init) + {last};
      assert last !in init;
    }
  }

  /** The numbers that were dropped or are held, below the highest one received. */
  ghost function MissingBelow(p: Publisher, top: nat): set<nat> {
    set n | n in p.dropped + Members(p.held) && n < top
  }

  lemma SentOrMissing(p: Publisher, top: nat, n: nat)
    requires Partition(p) && top < p.next && (top == 0 || top in p.sent)
    requires forall n :: n in p.sent ==> n <= top
    ensures n in Upto(top) <==> n in p.sent || n in MissingBelow(p, top)
    ensures !(n in p.sent && n in MissingBelow(p, top))
  {
    if n in Upto(top) {
      assert n in p.sent || n in p.dropped || n in p.held;
    }
  }

  lemma SentAndMissing(p: Publisher, top: nat)
    requires Partition(p) && top < p.next && (top == 0 || top in p.sent)
    requires forall n :: n in p.sent ==> n <= top
    ensures Members(p.sent) !! MissingBelow(p, top)
    ensures Upto(top) == Members(p.sent) + MissingBelow(p, top)
  {
    forall n: nat
      ensures n in Upto(top) <==> n in Members(p.sent) + MissingBelow(p, top)
      ensures !(n in Members(p.sent) && n in MissingBelow(p, top))
    {
      SentOrMissing(p, top, n);
    }
  }

  lemma MissingCount(p: Publisher)
    requires Inv(p)
    ensures |MissingBelow(p, Highest(p.sent))| + |p.sent| == Highest(p.sent)
  {
    DistinctSize(p.sent);
    HighestIsMember(p.sent);
    SentAndMissing(p, Highest(p.sent));
  }

  lemma {:induction false} HighestIsMember(ns: seq<nat>)
    ensures Highest(ns) == 0 || Highest(ns) in ns
  {
    if ns != [] {
      HighestIsMember(ns[..|ns| - 1]);
    }
  }

  /** End to end, for every sequence of draws: what the subscriber reports as gaps less reorder events is
      exactly the number of messages dropped or still held below the highest one received, and it never sees
      more reorder events than the publisher made swaps. */
  lemma FeedAccounting(draws: seq<(bool, bool)>)
    ensures var p := Ticks(draws); var f := ObserveAll(NOTHING_SEEN, p.sent);
            && f.gaps - f.reorderEvents == |MissingBelow(p, Highest(p.sent))|
            && f.reorderEvents <= p.reorderedTotal
  {
    TicksKeep(draws);
    var p := Ticks(draws);
    SubscriberBalance(p.sent);
    MissingCount(p);
  }
}
