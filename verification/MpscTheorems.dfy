/** What the multi-producer queue guarantees in every reachable state, for any number of producers and
    any interleaving. */
module MpscTheorems {
  import opened Words
  import opened RingIndex
  import opened MpscQueue
  import opened MpscInvariant

  // ----- conservation -----

  function Full<T>(b: seq<Option<T>>): nat {
    if b == [] then 0 else Full(b[..|b| - 1]) + (if b[|b| - 1].Some? then 1 else 0)
  }

  lemma {:induction false} FullUpdate<T>(b: seq<Option<T>>, i: nat, x: Option<T>)
    requires i < |b|
    ensures Full(b[i := x]) == Full(b) - (if b[i].Some? then 1 else 0) + (if x.Some? then 1 else 0)
    decreases |b|
  {
    var c := b[i := x];
    if i == |b| - 1 {
      assert c[..|c| - 1] == b[..|b| - 1];
    } else {
      FullUpdate(b[..|b| - 1], i, x);
      assert c[..|c| - 1] == b[..|b| - 1][i := x];
    }
  }

  lemma {:induction false} FullOfEmpty<T>(b: seq<Option<T>>)
    requires forall i :: 0 <= i < |b| ==> b[i].None?
    ensures Full(b) == 0
  {
    if b != [] {
      FullOfEmpty(b[..|b| - 1]);
    }
  }

  /** The producers that have won a ticket and not yet written. */
  ghost function Unwritten<T>(q: Queue<T>): set<nat> {
    set p | p in q.producers && q.producers[p].Claimed?
  }

  /** Tickets won = popped + stored + claimed but unwritten (+ the one whose slot the consumer has just cleared). */
  ghost predicate Conserved<T>(q: Queue<T>) {
    q.tail == |q.popped| + Full(q.buffer) + |Unwritten(q)| + (if q.consumer.Cleared? then 1 else 0)
  }

  lemma UnwrittenGoto<T>(q: Queue<T>, p: nat, pc: Producer<T>)
    ensures Unwritten(Goto(q, p, pc)) == if pc.Claimed? then Unwritten(q) + {p} else Unwritten(q) - {p}
  {
  }

  lemma WriteConserves<T(!new)>(q: Queue<T>, p: nat, v: T, t: nat)
    requires Inv(q) && Conserved(q) && Pc(q, p) == Claimed(v, t)
    ensures Conserved(DoWrite(q, p, v, t))
  {
    assert ProducerOk(q, p);
    assert TicketOk(q, t);
    UnwrittenGoto(q, p, Idle);
    FullUpdate(q.buffer, Index(t, q.cap), Some(v));
  }

  lemma CasConserves<T(!new)>(q: Queue<T>, p: nat, v: T, tail: nat, head: nat, spurious: bool)
    requires Conserved(q) && Pc(q, p) == GotHead(v, tail, head)
    ensures Conserved(DoCas(q, p, v, tail, head, spurious))
  {
    UnwrittenGoto(q, p, Idle);
    UnwrittenGoto(q, p, GotTail(v, q.tail));
    UnwrittenGoto(q, p, Claimed(v, tail));
  }

  lemma GotoConserves<T>(q: Queue<T>, p: nat, pc: Producer<T>)
    requires Conserved(q) && !Pc(q, p).Claimed? && !pc.Claimed?
    ensures Conserved(Goto(q, p, pc))
  {
    UnwrittenGoto(q, p, pc);
    assert Unwritten(q) - {p} == Unwritten(q);
  }

  lemma ConsumerConserves<T(!new)>(q: Queue<T>, e: Event<T>)
    requires Inv(q) && Conserved(q)
    requires e.PopLoadHead? || e.PopLoadTail? || e.PopCheck? || e.PopMove? || e.PopClear? || e.PopStore?
    ensures Conserved(Step(q, e))
  {
    if e.PopClear? && q.consumer.Moved? {
      FullUpdate(q.buffer, Index(q.consumer.head, q.cap), None);
    }
  }

  lemma StepConserves<T(!new)>(q: Queue<T>, e: Event<T>)
    requires Inv(q) && Conserved(q)
    ensures Conserved(Step(q, e))
  {
    match e
    case LoadTail(p, v) =>
      if Pc(q, p).Idle? {
        GotoConserves(q, p, GotTail(v, q.tail));
      }
    case LoadHead(p) =>
      if Pc(q, p).GotTail? {
        GotoConserves(q, p, GotHead(Pc(q, p).v, Pc(q, p).tail, q.head));
      }
    case Cas(p, spurious) =>
      if Pc(q, p).GotHead? {
        CasConserves(q, p, Pc(q, p).v, Pc(q, p).tail, Pc(q, p).head, spurious);
      }
    case Write(p) =>
      if Pc(q, p).Claimed? {
        WriteConserves(q, p, Pc(q, p).v, Pc(q, p).ticket);
      }
    case _ => ConsumerConserves(q, e);
  }

  // ----- per-producer order -----

  /** The values of the tickets won by `p`, in ticket order. */
  function WonBy<T>(ts: seq<Ticket<T>>, p: nat): seq<T> {
    if ts == [] then []
    else
      var last := ts[|ts| - 1];
      WonBy(ts[..|ts| - 1], p) + (if last.owner == p then [last.v] else [])
  }

  function Pending<T>(q: Queue<T>, p: nat): seq<T> {
    if Pc(q, p).Claimed? then [Pc(q, p).v] else []
  }

  /** Each producer's tickets are its completed pushes in program order, then the one in progress. */
  ghost predicate InOrder<T>(q: Queue<T>, p: nat) {
    WonBy(q.tickets, p) == PushedBy(q, p) + Pending(q, p)
  }

  ghost predicate InProgramOrder<T(!new)>(q: Queue<T>) {
    forall p :: InOrder(q, p)
  }

  lemma WonByAppend<T>(ts: seq<Ticket<T>>, t: Ticket<T>, p: nat)
    ensures WonBy(ts + [t], p) == WonBy(ts, p) + (if t.owner == p then [t.v] else [])
  {
    assert (ts + [t])[..|ts|] == ts;
  }

  lemma OrderAfterClaim<T>(q: Queue<T>, p: nat, v: T, x: nat)
    requires !Pc(q, p).Claimed? && InOrder(q, x)
    ensures var r := Goto(q, p, Claimed(v, q.tail)).(tail := q.tail + 1, tickets := q.tickets + [Ticket(p, v)]);
            InOrder(r, x)
  {
    WonByAppend(q.tickets, Ticket(p, v), x);
    assert PushedBy(q, x) + [] == PushedBy(q, x);
  }

  lemma OrderAfterGoto<T>(q: Queue<T>, p: nat, pc: Producer<T>, x: nat)
    requires !Pc(q, p).Claimed? && !pc.Claimed? && InOrder(q, x)
    ensures InOrder(Goto(q, p, pc), x)
  {
  }

  lemma OrderAfterCas<T>(q: Queue<T>, p: nat, v: T, tail: nat, head: nat, spurious: bool, x: nat)
    requires Pc(q, p) == GotHead(v, tail, head)
    requires InOrder(q, x)
    ensures InOrder(DoCas(q, p, v, tail, head, spurious), x)
  {
    if Sub64(tail, head) >= q.cap {
      OrderAfterGoto(q, p, Idle, x);
    } else if q.tail != tail || spurious {
      OrderAfterGoto(q, p, GotTail(v, q.tail), x);
    } else {
      OrderAfterClaim(q, p, v, x);
    }
  }

  lemma OrderAfterWrite<T>(q: Queue<T>, p: nat, v: T, ticket: nat, x: nat)
    requires Shaped(q) && Pc(q, p) == Claimed(v, ticket) && InOrder(q, x)
    ensures InOrder(DoWrite(q, p, v, ticket), x)
  {
  }

  lemma OrderAfterStep<T>(q: Queue<T>, e: Event<T>, x: nat)
    requires Shaped(q) && InOrder(q, x)
    ensures InOrder(Step(q, e), x)
  {
    match e
    case LoadTail(p, v) => if Pc(q, p).Idle? { OrderAfterGoto(q, p, GotTail(v, q.tail), x); }
    case LoadHead(p) =>
      if Pc(q, p).GotTail? {
        OrderAfterGoto(q, p, GotHead(Pc(q, p).v, Pc(q, p).tail, q.head), x);
      }
    case Cas(p, spurious) =>
      if Pc(q, p).GotHead? {
        OrderAfterCas(q, p, Pc(q, p).v, Pc(q, p).tail, Pc(q, p).head, spurious, x);
      }
    case Write(p) =>
      if Pc(q, p).Claimed? {
        OrderAfterWrite(q, p, Pc(q, p).v, Pc(q, p).ticket, x);
      }
    case _ =>
  }

  lemma StepKeepsOrder<T(!new)>(q: Queue<T>, e: Event<T>)
    requires Shaped(q) && InProgramOrder(q)
    ensures InProgramOrder(Step(q, e))
  {
    forall x: nat
      ensures InOrder(Step(q, e), x)
    {
      OrderAfterStep(q, e, x);
    }
  }

  lemma {:induction false} WonByPrefix<T>(ts: seq<Ticket<T>>, k: nat, p: nat)
    requires k <= |ts|
    ensures WonBy(ts[..k], p) <= WonBy(ts, p)
    decreases |ts|
  {
    if k == |ts| {
      assert ts[..k] == ts;
    } else {
      assert ts[..|ts| - 1][..k] == ts[..k];
      WonByPrefix(ts[..|ts| - 1], k, p);
    }
  }

  // ----- runs -----

  ghost predicate Good<T(!new)>(q: Queue<T>) {
    Inv(q) && Conserved(q) && InProgramOrder(q)
  }

  lemma InitGood<T(!new)>(cap: nat)
    requires IsPow2(cap)
    ensures Good(Init<T>(cap))
  {
    InitInv<T>(cap);
    var q := Init<T>(cap);
    FullOfEmpty(q.buffer);
    assert Unwritten(q) == {};
  }

  lemma {:induction false} RunGood<T(!new)>(q: Queue<T>, es: seq<Event<T>>)
    requires Good(q)
    ensures Good(Run(q, es))
  {
    if es != [] {
      var before := Run(q, es[..|es| - 1]);
      RunGood(q, es[..|es| - 1]);
      StepKeeps(before, es[|es| - 1]);
      StepConserves(before, es[|es| - 1]);
      StepKeepsOrder(before, es[|es| - 1]);
    }
  }

  /** `q` is reached by some interleaving from an empty queue. */
  ghost predicate Reachable<T(!new)>(q: Queue<T>) {
    exists cap: nat, es: seq<Event<T>> :: IsPow2(cap) && q == Run(Init<T>(cap), es)
  }

  lemma ReachableGood<T(!new)>(q: Queue<T>)
    requires Reachable(q)
    ensures Good(q)
  {
    var cap: nat, es: seq<Event<T>> :| IsPow2(cap) && q == Run(Init<T>(cap), es);
    InitGood<T>(cap);
    RunGood(Init<T>(cap), es);
  }

  /** The constructor starts there: every requested capacity up to 2^63 rounds to a power of two. */
  lemma ConstructedIsReachable<T(!new)>(capacity: nat)
    requires capacity <= 0x8000_0000_0000_0000
    ensures IsPow2(RoundUp(capacity)) && Reachable(Init<T>(RoundUp(capacity)))
  {
    RoundUpIsLeastPower(capacity);
    assert Init<T>(RoundUp(capacity)) == Run(Init<T>(RoundUp(capacity)), []);
  }

  // ----- the guarantees -----

  /** The k-th successful pop returns the value of the producer that won ticket k; so each pushed value is
      popped at most once, in ticket order. */
  lemma PopFollowsTickets<T(!new)>(q: Queue<T>, k: nat)
    requires Reachable(q) && k < |q.popped|
    ensures k < |q.tickets| && q.popped[k] == q.tickets[k].v
  {
    ReachableGood(q);
  }

  /** tickets won = popped + stored + claimed but unwritten (+1 while the consumer is between clearing a
      slot and storing head). */
  lemma TicketsConserved<T(!new)>(q: Queue<T>)
    requires Reachable(q)
    ensures |q.tickets| == |q.popped| + Full(q.buffer) + |Unwritten(q)| + (if q.consumer.Cleared? then 1 else 0)
  {
    ReachableGood(q);
  }

  /** A ticket claimed and not yet written is not among the popped ones. */
  lemma PendingNotPopped<T(!new)>(q: Queue<T>, p: nat)
    requires Inv(q) && Pc(q, p).Claimed?
    ensures |WonBy(q.tickets[..q.head], p)| < |WonBy(q.tickets, p)|
  {
    assert ProducerOk(q, p);
    var t := Pc(q, p).ticket;
    WonByPrefix(q.tickets, t + 1, p);
    WonByPrefix(q.tickets[..t], q.head, p);
    assert q.tickets[..t][..q.head] == q.tickets[..q.head];
    assert q.tickets[..t + 1] == q.tickets[..t] + [q.tickets[t]];
    WonByAppend(q.tickets[..t], q.tickets[t], p);
  }

  /** Per-producer order: the popped values are those of the tickets below head, and the ones among them that
      `p` won are a prefix of what `p` has pushed with success, in program order. */
  lemma PerProducerOrder<T(!new)>(q: Queue<T>, p: nat)
    requires Reachable(q)
    ensures q.head <= |q.tickets| && q.popped == Values(q.tickets[..q.head])
    ensures WonBy(q.tickets[..q.head], p) <= PushedBy(q, p)
  {
    ReachableGood(q);
    WonByPrefix(q.tickets, q.head, p);
    assert InOrder(q, p);
    if Pc(q, p).Claimed? {
      PendingNotPopped(q, p);
    }
  }

  /** Never more than `cap` tickets outstanding, despite stale loads of head. */
  lemma NeverOverfull<T(!new)>(q: Queue<T>)
    requires Reachable(q)
    ensures q.head <= q.tail <= q.head + q.cap
  {
    ReachableGood(q);
  }

  /** A claimed ticket owns an empty slot that no other producer is about to write and the consumer is not
      about to read or clear. */
  lemma ClaimIsExclusive<T(!new)>(q: Queue<T>, p: nat, other: nat)
    requires Reachable(q) && Shaped(q) && Pc(q, p).Claimed?
    ensures SlotAt(q, Pc(q, p).ticket) == None
    ensures other != p && Pc(q, other).Claimed? ==> Index(Pc(q, other).ticket, q.cap) != Index(Pc(q, p).ticket, q.cap)
    ensures q.consumer.SawFull? || q.consumer.Moved? ==> Index(q.consumer.head, q.cap) != Index(Pc(q, p).ticket, q.cap)
  {
    ReachableGood(q);
    var t := Pc(q, p).ticket;
    assert ProducerOk(q, p) && ProducerOk(q, other);
    assert TicketOk(q, t);
    if other != p && Pc(q, other).Claimed? {
      OtherSlot(q, t, Pc(q, other).ticket);
    }
    if q.consumer.SawFull? || q.consumer.Moved? {
      OtherSlot(q, t, q.head);
    }
  }

  /** A filled slot holds the value of the one ticket in [head, tail) that maps to it. */
  lemma FilledSlotHoldsItsTicket<T(!new)>(q: Queue<T>, i: nat) returns (t: nat)
    requires Reachable(q) && Shaped(q) && i < q.cap && q.buffer[i].Some?
    ensures q.head <= t < q.tail == |q.tickets| && Index(t, q.cap) == i
    ensures q.buffer[i] == Some(q.tickets[t].v)
    ensures forall u :: q.head <= u < q.tail && Index(u, q.cap) == i ==> u == t
  {
    ReachableGood(q);
    t :| q.head <= t < q.tail && Index(t, q.cap) == i;
    assert TicketOk(q, t);
    forall u | q.head <= u < q.tail && Index(u, q.cap) == i
      ensures u == t
    {
      IndexInjective(u, t, q.cap);
    }
  }

  /** A push that is refused on up-to-date loads found the queue full. */
  lemma FreshRefusalMeansFull<T(!new)>(q: Queue<T>, p: nat)
    requires Reachable(q) && Pc(q, p).GotHead? && Pc(q, p).tail == q.tail && Pc(q, p).head == q.head
    ensures Sub64(Pc(q, p).tail, Pc(q, p).head) >= q.cap <==> q.tail - q.head == q.cap
  {
    ReachableGood(q);
    Fits64(q.tail - q.head);
  }

  /** But a refusal does not mean full. On the words it loaded, a push is refused exactly when they show a
      full queue or the tail was loaded so early that the consumer has since passed it, in which case the
      unsigned difference wraps: then the push is refused whatever room there is. */
  lemma RefusedIffFullOrStale<T(!new)>(q: Queue<T>, p: nat)
    requires Reachable(q) && Pc(q, p).GotHead?
    ensures Pc(DoCas(q, p, Pc(q, p).v, Pc(q, p).tail, Pc(q, p).head, false), p) == Idle
            <==> || Pc(q, p).tail - Pc(q, p).head >= q.cap
                 || 0 < Pc(q, p).head - Pc(q, p).tail <= 0x1_0000_0000_0000_0000 - q.cap
  {
    ReachableGood(q);
    assert ProducerOk(q, p);
    SubWraps(Pc(q, p).tail, Pc(q, p).head);
  }

  /** When the words show a full queue, it was full, and the loaded tail up to date, at the load of head. */
  lemma ShownFullWasFull<T(!new)>(q: Queue<T>, p: nat)
    requires Reachable(q) && Shaped(q) && Pc(q, p).GotTail?
    ensures var r := Step(q, LoadHead(p));
            && Pc(r, p).GotHead?
            && (Pc(r, p).tail - Pc(r, p).head >= q.cap <==> q.tail - q.head == q.cap && Pc(q, p).tail == q.tail)
  {
    ReachableGood(q);
    assert ProducerOk(q, p);
  }

  lemma SubWraps(a: nat, b: nat)
    requires a < 0x1_0000_0000_0000_0000 && b < 0x1_0000_0000_0000_0000
    ensures Sub64(a, b) == if a >= b then a - b else 0x1_0000_0000_0000_0000 + a - b
  {
  }

  /** On words that neither show a full queue nor a stale tail, the compare-and-swap wins the next ticket exactly
      when tail has not moved and it does not fail spuriously; otherwise it leaves with the current tail. */
  lemma CasWinsIff<T(!new)>(q: Queue<T>, p: nat, spurious: bool)
    requires Reachable(q) && Shaped(q) && Pc(q, p).GotHead? && q.tail + 1 < 0x1_0000_0000_0000_0000
    requires Pc(q, p).head <= Pc(q, p).tail < Pc(q, p).head + q.cap
    ensures var r := Step(q, Cas(p, spurious)); var v := Pc(q, p).v;
            if Pc(q, p).tail == q.tail && !spurious then
              r.tickets == q.tickets + [Ticket(p, v)] && r.tail == |r.tickets| && Pc(r, p) == Claimed(v, |q.tickets|)
            else r.tickets == q.tickets && r.tail == q.tail && Pc(r, p) == GotTail(v, q.tail)
  {
    ReachableGood(q);
    assert ProducerOk(q, p);
    SubWraps(Pc(q, p).tail, Pc(q, p).head);
  }

  /** A push that nobody overtakes succeeds whenever there is room, in four steps. */
  lemma PushCompletes<T(!new)>(q: Queue<T>, p: nat, v: T)
    requires Reachable(q) && Shaped(q) && Pc(q, p).Idle? && q.tail < q.head + q.cap && q.tail + 1 < 0x1_0000_0000_0000_0000
    ensures var r := Step(Step(Step(Step(q, LoadTail(p, v)), LoadHead(p)), Cas(p, false)), Write(p));
            && r.tickets == q.tickets + [Ticket(p, v)]
            && PushedBy(r, p) == PushedBy(q, p) + [v]
            && SlotAt(r, q.tail) == Some(v)
  {
    ReachableGood(q);
    SubWraps(q.tail, q.head);
  }

  // ----- a pop succeeds when a value is there -----

  /** The look at the slot goes on to take the value exactly when the loaded tail shows a ticket and its winner
      has finished its write; otherwise the pop returns false. */
  lemma CheckTakesIff<T(!new)>(q: Queue<T>)
    requires Reachable(q) && Shaped(q) && q.consumer.SawTail?
    ensures var h, t := q.consumer.head, q.consumer.tail; var r := Step(q, PopCheck);
            && (h < t ==> h < |q.tickets|)
            && r.consumer == (if h < t && !Owns(q, q.tickets[h].owner, h) then SawFull(h) else Resting)
            && (r.consumer.SawFull? ==> Step(r, PopMove).consumer == Moved(h, q.tickets[h].v))
  {
    ReachableGood(q);
    var h, t := q.consumer.head, q.consumer.tail;
    if h < t {
      assert TicketOk(q, h);
    }
  }

  /** After `k` of the six steps of a pop at ticket `h`, whose winner has written `v`. */
  ghost predicate Popping<T>(q: Queue<T>, h: nat, v: T, base: seq<T>, k: nat) {
    if k >= 6 then q.consumer == Resting && q.popped == base + [v]
    else
      && q.head == h < q.tail && h < |q.tickets| && q.tickets[h].v == v && q.popped == base
      && !Owns(q, q.tickets[h].owner, h)
      && (k == 0 ==> q.consumer == Resting)
      && (k == 1 ==> q.consumer == SawHead(h))
      && (k == 2 ==> q.consumer.SawTail? && q.consumer.head == h < q.consumer.tail)
      && (k == 3 ==> q.consumer == SawFull(h))
      && (k == 4 ==> q.consumer == Moved(h, v))
      && (k == 5 ==> q.consumer == Cleared(h, v))
  }

  function PopEvent<T>(k: nat): Event<T> {
    if k == 0 then PopLoadHead else if k == 1 then PopLoadTail else if k == 2 then PopCheck
    else if k == 3 then PopMove else if k == 4 then PopClear else PopStore
  }

  lemma PopAdvances<T(!new)>(q: Queue<T>, h: nat, v: T, base: seq<T>, k: nat)
    requires Inv(q) && Popping(q, h, v, base, k) && k < 6
    ensures Popping(Step(q, PopEvent(k)), h, v, base, k + 1)
  {
    assert TicketOk(q, h);
  }

  predicate ByProducer<T>(e: Event<T>) {
    e.LoadTail? || e.LoadHead? || e.Cas? || e.Write?
  }

  /** Whatever a producer does meanwhile, the pop stays where it is. */
  lemma ProducersDoNotDisturb<T(!new)>(q: Queue<T>, e: Event<T>, h: nat, v: T, base: seq<T>, k: nat)
    requires Inv(q) && Popping(q, h, v, base, k) && ByProducer(e)
    ensures Popping(Step(q, e), h, v, base, k)
  {
  }

  /** The consumer's own events, in order. */
  function ConsumerPart<T>(es: seq<Event<T>>): seq<Event<T>> {
    if es == [] then []
    else
      var last := es[|es| - 1];
      ConsumerPart(es[..|es| - 1]) + (if ByProducer(last) then [] else [last])
  }

  function PopEvents<T>(k: nat): seq<Event<T>> {
    seq(k, i requires 0 <= i < k => PopEvent(i))
  }

  lemma {:induction false} PopProgress<T(!new)>(q: Queue<T>, es: seq<Event<T>>, k: nat)
    requires Good(q) && q.consumer == Resting && q.head < q.tail && !Owns(q, q.tickets[q.head].owner, q.head)
    requires k <= 6 && ConsumerPart(es) == PopEvents<T>(k)
    ensures Popping(Run(q, es), q.head, q.tickets[q.head].v, q.popped, k)
    decreases |es|
  {
    if es != [] {
      var init, last := es[..|es| - 1], es[|es| - 1];
      var h, v := q.head, q.tickets[q.head].v;
      RunGood(q, init);
      if ByProducer(last) {
        assert ConsumerPart(es) == ConsumerPart(init);
        PopProgress(q, init, k);
        ProducersDoNotDisturb(Run(q, init), last, h, v, q.popped, k);
      } else {
        LastPopEvent(init, last, k);
        PopProgress(q, init, k - 1);
        PopAdvances(Run(q, init), h, v, q.popped, k - 1);
      }
    }
  }

  lemma LastPopEvent<T>(init: seq<Event<T>>, last: Event<T>, k: nat)
    requires ConsumerPart(init) + [last] == PopEvents<T>(k)
    ensures k > 0 && ConsumerPart(init) == PopEvents<T>(k - 1) && last == PopEvent(k - 1)
  {
    assert |ConsumerPart(init) + [last]| == k;
    assert (ConsumerPart(init) + [last])[k - 1] == last;
    assert ConsumerPart(init) == (ConsumerPart(init) + [last])[..k - 1];
  }

  /** A pop succeeds when a value is there: if the consumer rests, a ticket is outstanding and the winner of the
      oldest one has written, then the six steps of one pop return its value, whatever the producers do between
      them. */
  lemma PopCompletes<T(!new)>(q: Queue<T>, es: seq<Event<T>>)
    requires Reachable(q) && Shaped(q) && q.consumer == Resting
    requires q.head < q.tail <= |q.tickets| && !Owns(q, q.tickets[q.head].owner, q.head)
    requires ConsumerPart(es) == [PopLoadHead, PopLoadTail, PopCheck, PopMove, PopClear, PopStore]
    ensures Run(q, es).popped == q.popped + [q.tickets[q.head].v]
  {
    ReachableGood(q);
    assert PopEvents<T>(6) == [PopLoadHead, PopLoadTail, PopCheck, PopMove, PopClear, PopStore];
    PopProgress(q, es, 6);
  }

  // ----- a push refused on an empty queue -----

  /** A queue of one slot in which producer 0 has loaded tail; `pc` is where producer 1 stands. */
  function Overtaking(v: int, pc: Producer<int>, c: Consumer<int>, head: nat, slot: Option<int>, won: nat): Queue<int> {
    Queue(1, head, won, [slot], map[0 := GotTail(v, 0), 1 := pc], c,
          if won == 0 then [] else [Ticket(1, v)],
          if head == 0 then [] else [v],
          if won == 0 || pc.Claimed? then map[] else map[1 := [v]])
  }

  lemma OneSlot()
    ensures IsPow2(1) && Index(0, 1) == 0
  {
    assert Pow2(0) == 1;
  }

  lemma RunMore<T>(q: Queue<T>, es: seq<Event<T>>, e: Event<T>)
    requires Shaped(q)
    ensures Run(q, es + [e]) == Step(Run(q, es), e)
  {
    assert (es + [e])[..|es|] == es;
  }

  lemma BothLoadTail(v: int)
    ensures IsPow2(1)
    ensures Step(Step(Init<int>(1), LoadTail(0, v)), LoadTail(1, v)) == Overtaking(v, GotTail(v, 0), Resting, 0, None, 0)
  {
    OneSlot();
    assert Init<int>(1).buffer == [None];
  }

  /** Producer 1 pushes (three steps), the consumer looks (three) and takes (three). */
  function Milestone(v: int, i: nat): Queue<int> {
    if i == 0 then Overtaking(v, GotTail(v, 0), Resting, 0, None, 0)
    else if i == 1 then Overtaking(v, GotHead(v, 0, 0), Resting, 0, None, 0)
    else if i == 2 then Overtaking(v, Claimed(v, 0), Resting, 0, None, 1)
    else if i == 3 then Overtaking(v, Idle, Resting, 0, Some(v), 1)
    else if i == 4 then Overtaking(v, Idle, SawHead(0), 0, Some(v), 1)
    else if i == 5 then Overtaking(v, Idle, SawTail(0, 1), 0, Some(v), 1)
    else if i == 6 then Overtaking(v, Idle, SawFull(0), 0, Some(v), 1)
    else if i == 7 then Overtaking(v, Idle, Moved(0, v), 0, Some(v), 1)
    else if i == 8 then Overtaking(v, Idle, Cleared(0, v), 0, None, 1)
    else Overtaking(v, Idle, Resting, 1, None, 1)
  }

  function EventAt(i: nat): Event<int> {
    if i == 0 then LoadHead(1) else if i == 1 then Cas(1, false) else if i == 2 then Write(1)
    else if i == 3 then PopLoadHead else if i == 4 then PopLoadTail else if i == 5 then PopCheck
    else if i == 6 then PopMove else if i == 7 then PopClear else PopStore
  }

  lemma PushMilestones(v: int, i: nat)
    requires i < 3
    ensures IsPow2(1) && Step(Milestone(v, i), EventAt(i)) == Milestone(v, i + 1)
  {
    OneSlot();
    assert PushedBy(Milestone(v, 2), 1) + [v] == [v];
    assert [None][Index(0, 1) := Some(v)] == [Some(v)];
  }

  lemma PopMilestones(v: int, i: nat)
    requires 3 <= i < 9
    ensures IsPow2(1) && Step(Milestone(v, i), EventAt(i)) == Milestone(v, i + 1)
  {
    OneSlot();
    assert [Some(v)][Index(0, 1) := None] == [None];
  }

  /** After both producers have loaded tail, the run that passes the milestones. */
  lemma {:induction false} OvertakenRun(v: int, i: nat) returns (es: seq<Event<int>>)
    requires i <= 9
    ensures IsPow2(1) && Run(Init<int>(1), es) == Milestone(v, i)
    decreases i
  {
    OneSlot();
    if i == 0 {
      BothLoadTail(v);
      es := [LoadTail(0, v)];
      RunMore(Init<int>(1), [], LoadTail(0, v));
      assert [] + [LoadTail(0, v)] == es;
      RunMore(Init<int>(1), es, LoadTail(1, v));
      es := es + [LoadTail(1, v)];
    } else {
      es := OvertakenRun(v, i - 1);
      if i <= 3 {
        PushMilestones(v, i - 1);
      } else {
        PopMilestones(v, i - 1);
      }
      RunMore(Init<int>(1), es, EventAt(i - 1));
      es := es + [EventAt(i - 1)];
    }
  }

  /** A refused push does not mean a full queue: after that run producer 0 loads head, its unsigned
      difference wraps, and its push is refused although the queue is empty. */
  lemma StaleTailRefused(v: int) returns (q: Queue<int>)
    ensures Reachable(q) && Shaped(q) && q.cap == 1 && q.head == q.tail
    ensures Pc(q, 0).GotHead? && Pc(Step(q, Cas(0, false)), 0) == Idle && Step(q, Cas(0, false)).tickets == q.tickets
  {
    OneSlot();
    var es := OvertakenRun(v, 9);
    RunMore(Init<int>(1), es, LoadHead(0));
    q := Run(Init<int>(1), es + [LoadHead(0)]);
    assert q == Step(Milestone(v, 9), LoadHead(0));
    assert Pc(q, 0) == GotHead(v, 0, 1);
    SubWraps(0, 1);
  }
}
