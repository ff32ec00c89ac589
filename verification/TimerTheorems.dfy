/** What the client's retransmission timer does in every reachable state: what is written again, and when. */
module TimerTheorems {
  import opened Words
  import opened OrderMessages
  import opened StateMachine
  import opened Retransmission
  import opened OrderProtocol
  import opened QueueHistory
  import opened ProtocolInvariant
  import Congestion
  import C = OrderClient
  import GI = GatewayInvariant

  // ----- what is written again -----

  /** Every entry of `due` has its own frame in `out`. */
  ghost predicate AllOutstanding(due: seq<Entry>, out: map<nat, Frame>) {
    forall e :: e in due ==> e.seqStart in out && out[e.seqStart].seqNum == e.seqStart
  }

  lemma {:induction false} FramesInOrder(due: seq<Entry>, out: map<nat, Frame>, j: nat)
    requires AllOutstanding(due, out)
    ensures |C.FramesOf(due, out)| == |due|
    ensures j < |due| ==> due[j].seqStart in out && C.FramesOf(due, out)[j] == out[due[j].seqStart]
  {
    if due != [] {
      assert due[0] in due;
      assert forall e :: e in due[1..] ==> e in due;
      FramesInOrder(due[1..], out, if j == 0 then 0 else j - 1);
    }
  }

  lemma DueIsOutstanding(s: System, now: nat)
    requires Inv(s) && s.client.phase.Waiting?
    ensures AllOutstanding(Due(s.client.queue, now, 5), C.Tick(s.client, now).outstanding)
  {
    var q, out := s.client.queue, C.Tick(s.client, now).outstanding;
    forall e | e in Due(q, now, 5)
      ensures e.seqStart in out && out[e.seqStart].seqNum == e.seqStart
    {
      DueMembers(q, now, 5, e);
      SurvivorKeepsStart(q, now, s.client.rto.rto, e);
      assert e.seqStart in Starts(q);
    }
  }

  /** `n` is the sequence number of a tracked entry whose deadline has passed and that has retries left. */
  ghost predicate Overdue(q: seq<Entry>, now: nat, n: nat) {
    exists e :: e in q && e.seqStart == n && e.deadline <= now && e.retries < 5
  }

  lemma DueStartsOverdue(q: seq<Entry>, now: nat, n: nat)
    ensures n in Starts(Due(q, now, 5)) <==> Overdue(q, now, n)
  {
    if n in Starts(Due(q, now, 5)) {
      var e :| e in Due(q, now, 5) && e.seqStart == n;
      DueMembers(q, now, 5, e);
    }
    if e :| e in q && e.seqStart == n && e.deadline <= now && e.retries < 5 {
      DueMembers(q, now, 5, e);
    }
  }

  /** The j-th frame written again is that of the j-th due entry. */
  lemma ResentFrame(s: System, now: nat, j: nat)
    requires Inv(s) && s.client.phase.Waiting?
    ensures var due, w := Due(s.client.queue, now, 5), C.Resent(s.client, now);
            && |w| == |due|
            && (j < |w| ==> && w[j].seqNum == due[j].seqStart
                            && GI.IsRequestFrame(w[j], s.sent)
                            && Overdue(s.client.queue, now, w[j].seqNum))
  {
    var due := Due(s.client.queue, now, 5);
    DueIsOutstanding(s, now);
    FramesInOrder(due, C.Tick(s.client, now).outstanding, j);
    if j < |due| {
      assert due[j] in due;
      DueStartsOverdue(s.client.queue, now, due[j].seqStart);
    }
  }

  lemma OverdueIsResent(s: System, now: nat, n: nat) returns (j: nat)
    requires Inv(s) && s.client.phase.Waiting? && Overdue(s.client.queue, now, n)
    ensures j < |C.Resent(s.client, now)| && C.Resent(s.client, now)[j].seqNum == n
  {
    var due := Due(s.client.queue, now, 5);
    DueStartsOverdue(s.client.queue, now, n);
    var e :| e in due && e.seqStart == n;
    j :| 0 <= j < |due| && due[j] == e;
    ResentFrame(s, now, j);
  }

  lemma ResentInOrder(s: System, now: nat, i: nat, j: nat)
    requires Inv(s) && s.client.phase.Waiting? && i < j < |C.Resent(s.client, now)|
    ensures C.Resent(s.client, now)[i].seqNum < C.Resent(s.client, now)[j].seqNum
  {
    DueSorted(s.client.queue, now, 5);
    ResentFrame(s, now, i);
    ResentFrame(s, now, j);
  }

  /** What a tick writes again, in queue order: for every overdue request exactly one frame, with the bytes it
      was first sent with, and nothing else. */
  lemma ResentExactly(s: System, now: nat)
    requires Reachable(s) && s.client.phase.Waiting?
    ensures var w := C.Resent(s.client, now);
            && (forall j :: 0 <= j < |w| ==> GI.IsRequestFrame(w[j], s.sent) && Overdue(s.client.queue, now, w[j].seqNum))
            && (forall i, j :: 0 <= i < j < |w| ==> w[i].seqNum < w[j].seqNum)
            && (forall n: nat :: Overdue(s.client.queue, now, n) ==> exists j :: 0 <= j < |w| && w[j].seqNum == n)
  {
    ReachableInv(s);
    var w := C.Resent(s.client, now);
    forall j | 0 <= j < |w|
      ensures GI.IsRequestFrame(w[j], s.sent) && Overdue(s.client.queue, now, w[j].seqNum)
    {
      ResentFrame(s, now, j);
    }
    forall i, j | 0 <= i < j < |w|
      ensures w[i].seqNum < w[j].seqNum
    {
      ResentInOrder(s, now, i, j);
    }
    forall n: nat | Overdue(s.client.queue, now, n)
      ensures exists j :: 0 <= j < |w| && w[j].seqNum == n
    {
      var j := OverdueIsResent(s, now, n);
    }
  }

  /** A tick that writes something again restarts slow start, once; any other tick leaves the window alone. */
  lemma LossIffResent(s: System, now: nat)
    requires Reachable(s) && s.client.phase.Waiting?
    ensures var cc, cc' := s.client.cc, C.Tick(s.client, now).cc;
            if C.Resent(s.client, now) == [] then cc' == cc
            else cc' == Congestion.Cc(cc.mss, cc.mss, Max(2 * cc.mss, cc.cwnd / 2), 0)
  {
    ReachableInv(s);
    DueIsOutstanding(s, now);
    FramesInOrder(Due(s.client.queue, now, 5), C.Tick(s.client, now).outstanding, 0);
    Fits32(2 * s.client.cc.mss);
  }

  // ----- how often a request is written -----

  /** How many frames with a payload at sequence number `n` there are in `fs`. */
  function Copies(fs: seq<Frame>, n: nat): nat {
    if fs == [] then 0
    else Copies(fs[..|fs| - 1], n) + (if fs[|fs| - 1].payload != [] && fs[|fs| - 1].seqNum == n then 1 else 0)
  }

  lemma {:induction false} CopiesAppend(a: seq<Frame>, b: seq<Frame>, n: nat)
    ensures Copies(a + b, n) == Copies(a, n) + Copies(b, n)
    decreases |b|
  {
    if b == [] {
      assert a + b == a;
    } else {
      assert (a + b)[..|a + b| - 1] == a + b[..|b| - 1];
      CopiesAppend(a, b[..|b| - 1], n);
    }
  }

  lemma {:induction false} CopiesOfDistinct(fs: seq<Frame>, n: nat)
    requires forall i, j :: 0 <= i < j < |fs| ==> fs[i].seqNum < fs[j].seqNum
    requires forall i :: 0 <= i < |fs| ==> fs[i].payload != []
    ensures Copies(fs, n) == if exists j :: 0 <= j < |fs| && fs[j].seqNum == n then 1 else 0
  {
    if fs != [] {
      var init := fs[..|fs| - 1];
      CopiesOfDistinct(init, n);
      if j :| 0 <= j < |init| && init[j].seqNum == n {
        assert fs[j].seqNum == n;
      }
    }
  }

  /** Each request has been written once when sent and once at each time recorded for it. */
  ghost predicate WrittenFor(wrote: seq<Frame>, collected: seq<seq<nat>>) {
    forall i: nat :: Copies(wrote, SeqOf(i)) == if i < |collected| then 1 + |collected[i]| else 0
  }

  ghost predicate WrittenOk(s: System) {
    |s.collected| == |s.sent| && WrittenFor(s.wrote, s.collected)
  }

  lemma SendCopies(wrote: seq<Frame>, collected: seq<seq<nat>>, f: Frame)
    requires WrittenFor(wrote, collected) && f.payload != [] && f.seqNum == SeqOf(|collected|)
    ensures WrittenFor(wrote + [f], collected + [[]])
  {
    forall i: nat
      ensures Copies(wrote + [f], SeqOf(i)) == Copies(wrote, SeqOf(i)) + (if i == |collected| then 1 else 0)
    {
      CopiesAppend(wrote, [f], SeqOf(i));
      assert Copies([f], SeqOf(i)) == if f.seqNum == SeqOf(i) then 1 else 0;
    }
  }

  lemma SendEffect(s: System, d: C.Draw, now: nat, written: bool) returns (sent: bool, f: Frame)
    requires s.client.phase.Ready?
    ensures var t := DoSend(s, d, now, written);
            if sent then
              && t.wrote == s.wrote + [f] && t.collected == s.collected + [[]] && |t.sent| == |s.sent| + 1
              && f.payload != [] && f.seqNum == s.client.conn.sendSeq
            else t.wrote == s.wrote && t.collected == s.collected && t.sent == s.sent
  {
    var c := C.Send(s.client, d, now, written);
    sent := c.phase.Waiting?;
    f := if sent then DataFrame(s.client.conn, Encode(c.phase.req)) else AckFrame(s.client.conn, 0);
  }

  lemma SendWrites(s: System, d: C.Draw, now: nat, written: bool)
    requires s.client.conn.sendSeq == SeqOf(|s.sent|) && WrittenOk(s) && s.client.phase.Ready?
    ensures WrittenOk(DoSend(s, d, now, written))
  {
    var sent, f := SendEffect(s, d, now, written);
    if sent {
      SendCopies(s.wrote, s.collected, f);
    }
  }

  lemma TickCopies(s: System, now: nat, n: nat)
    requires Reachable(s) && s.client.phase.Waiting?
    ensures Copies(C.Resent(s.client, now), n) == if n in Starts(Due(s.client.queue, now, 5)) then 1 else 0
  {
    var w := C.Resent(s.client, now);
    ResentExactly(s, now);
    forall i | 0 <= i < |w|
      ensures w[i].payload != []
    {
      assert GI.IsRequestFrame(w[i], s.sent);
    }
    CopiesOfDistinct(w, n);
    DueStartsOverdue(s.client.queue, now, n);
  }

  lemma TickCollects(s: System, now: nat, i: nat)
    requires Inv(s) && s.client.phase.Waiting?
    ensures var collected := Collect(s.collected, s.client.queue, now);
            var due := SeqOf(i) in Starts(Due(s.client.queue, now, 5));
            if i < |s.collected| then |collected[i]| == |s.collected[i]| + (if due then 1 else 0) else !due
  {
    if SeqOf(i) in Starts(Due(s.client.queue, now, 5)) {
      var e :| e in Due(s.client.queue, now, 5) && e.seqStart == SeqOf(i);
      DueMembers(s.client.queue, now, 5, e);
      var j: nat :| Tracks(e, j, s.sentAt, s.collected);
    }
  }

  lemma TickWritesOne(s: System, now: nat, i: nat)
    requires Reachable(s) && WrittenOk(s) && s.client.phase.Waiting?
    ensures var wrote, collected := s.wrote + C.Resent(s.client, now), Collect(s.collected, s.client.queue, now);
            Copies(wrote, SeqOf(i)) == if i < |s.sent| then 1 + |collected[i]| else 0
  {
    ReachableInv(s);
    CopiesAppend(s.wrote, C.Resent(s.client, now), SeqOf(i));
    TickCopies(s, now, SeqOf(i));
    TickCollects(s, now, i);
  }

  lemma TickWrites(s: System, now: nat)
    requires Reachable(s) && WrittenOk(s) && s.client.phase.Waiting?
    ensures WrittenOk(DoTick(s, now))
  {
    var t := DoTick(s, now);
    forall i: nat
      ensures Copies(t.wrote, SeqOf(i)) == if i < |t.sent| then 1 + |t.collected[i]| else 0
    {
      TickWritesOne(s, now, i);
    }
  }

  lemma KeepaliveWrites(s: System, f: Frame)
    requires WrittenOk(s) && f.payload == []
    ensures WrittenOk(s.(toGateway := s.toGateway + {f}, wrote := s.wrote + [f]))
  {
    forall i: nat
      ensures Copies(s.wrote + [f], SeqOf(i)) == Copies(s.wrote, SeqOf(i))
    {
      CopiesAppend(s.wrote, [f], SeqOf(i));
      assert Copies([f], SeqOf(i)) == 0;
    }
  }

  lemma SendStepWrites(s: System, e: Event)
    requires s.client.conn.sendSeq == SeqOf(|s.sent|) && WrittenOk(s) && e.ClientSend?
    ensures WrittenOk(Step(s, e))
  {
    if s.client.phase.Ready? {
      SendWrites(s, e.d, e.now, e.written);
    }
  }

  lemma TickStepWrites(s: System, e: Event)
    requires Reachable(s) && WrittenOk(s) && e.ClientTick?
    ensures WrittenOk(Step(s, e))
  {
    if s.client.phase.Waiting? {
      TickWrites(s, e.now);
    }
  }

  lemma StepWrites(s: System, e: Event)
    requires Reachable(s) && WrittenOk(s)
    ensures WrittenOk(Step(s, e))
  {
    match e
    case ClientSend(_, _, _) => ReachableCounts(s); SendStepWrites(s, e);
    case ClientKeepalive => KeepaliveWrites(s, AckFrame(s.client.conn, s.client.conn.sendAck));
    case ClientTick(_) => TickStepWrites(s, e);
    case _ =>
  }

  lemma {:induction false} RunWrites(ip: nat, port: nat, es: seq<Event>)
    ensures WrittenOk(Run(Init(ip, port), es))
  {
    if es != [] {
      RunWrites(ip, port, es[..|es| - 1]);
      StepWrites(Run(Init(ip, port), es[..|es| - 1]), es[|es| - 1]);
    }
  }

  /** Every request has been put on the network exactly once when it was sent and once more at every time
      recorded as a collection of it, with the same bytes. */
  lemma WrittenOncePerCollection(s: System, i: nat)
    requires Reachable(s) && i < |s.sent|
    ensures i < |s.collected| && Copies(s.wrote, SeqOf(i)) == 1 + |s.collected[i]|
  {
    var ip: nat, port: nat, es: seq<Event> :| s == Run(Init(ip, port), es);
    RunWrites(ip, port, es);
  }

  // ----- when a request is written again or given up -----

  /** `e` is the queue's entry of request `i`. */
  ghost predicate EntryOf(s: System, i: nat, e: Entry) {
    e in s.client.queue && e.seqStart == SeqOf(i)
  }

  /** An entry carries the request's number of collections as its retry count. */
  lemma EntryCounts(q: seq<Entry>, sentAt: seq<nat>, collected: seq<seq<nat>>, i: nat, e: Entry)
    requires QueueOk(q, sentAt, collected) && e in q && e.seqStart == SeqOf(i)
    ensures i < |collected| && e.retries == |collected[i]| <= 5 && e.seqEnd == SeqOf(i) + 40
  {
    var j: nat :| Tracks(e, j, sentAt, collected);
    assert i == j;
  }

  /** Request `i` has not been collected or given up since its collections were `was`: its entry is still `e`,
      or it has been acknowledged. */
  ghost predicate Idle(was: seq<nat>, i: nat, e: Entry, q: seq<Entry>, collected: seq<seq<nat>>, givenUp: map<nat, nat>) {
    && i < |collected| && collected[i] == was
    && SeqOf(i) !in givenUp
    && (e in q || SeqOf(i) !in Starts(q))
  }

  lemma TickIdle(was: seq<nat>, i: nat, e: Entry, q: seq<Entry>, collected: seq<seq<nat>>, givenUp: map<nat, nat>,
                 now: nat, base: nat)
    requires Sorted(q) && Idle(was, i, e, q, collected, givenUp) && e.seqStart == SeqOf(i) && now < e.deadline
    ensures var kept := Kept(q, now, base, 5);
            Idle(was, i, e, kept, Collect(collected, q, now), GiveUp(givenUp, q, kept, now))
  {
    if e in q {
      KeptContains(q, now, base, 5, e);
      DueStarts(q, now, e);
      assert SeqOf(i) in Starts(Kept(q, now, base, 5));
    } else {
      NotTrackedNotDue(q, now, SeqOf(i));
      KeptStartsShrink(q, now, base);
    }
  }

  lemma AckIdle(was: seq<nat>, i: nat, e: Entry, q: seq<Entry>, sentAt: seq<nat>, collected: seq<seq<nat>>,
                givenUp: map<nat, nat>, ack: nat)
    requires QueueOk(q, sentAt, collected) && GivenUpOk(givenUp, q, sentAt, collected)
    requires Idle(was, i, e, q, collected, givenUp) && e.seqStart == SeqOf(i)
    ensures Idle(was, i, e, DropAcked(q, ack), collected, givenUp)
  {
    AckKeeps(givenUp, q, sentAt, collected, ack);
    DropAckedMembers(q, ack, e);
    if e in q {
      EntryCounts(q, sentAt, collected, i, e);
    }
  }

  lemma SendIdle(was: seq<nat>, i: nat, e: Entry, q: seq<Entry>, collected: seq<seq<nat>>, givenUp: map<nat, nat>,
                 added: Entry)
    requires Idle(was, i, e, q, collected, givenUp) && added.seqStart == SeqOf(|collected|)
    ensures Idle(was, i, e, q + [added], collected + [[]], givenUp)
  {
    StartsAppend(q, added);
  }

  ghost predicate TimerIdle(was: seq<nat>, i: nat, e: Entry, t: System) {
    Idle(was, i, e, t.client.queue, t.collected, t.givenUp)
  }

  lemma SendLeavesTimer(was: seq<nat>, i: nat, e: Entry, t: System, ev: Event)
    requires CountsOk(t.client, |t.sent|) && |t.collected| == |t.sent| && TimerIdle(was, i, e, t) && ev.ClientSend?
    ensures TimerIdle(was, i, e, Step(t, ev))
  {
    SendIdle(was, i, e, t.client.queue, t.collected, t.givenUp,
             NewEntry(t.client.conn.sendSeq, 40, ev.now, t.client.rto.rto));
  }

  lemma TickLeavesTimer(was: seq<nat>, i: nat, e: Entry, t: System, ev: Event)
    requires Sorted(t.client.queue) && TimerIdle(was, i, e, t) && e.seqStart == SeqOf(i)
    requires ev.ClientTick? && (t.client.phase.Waiting? ==> ev.now < e.deadline)
    ensures TimerIdle(was, i, e, Step(t, ev))
  {
    if t.client.phase.Waiting? {
      TickIdle(was, i, e, t.client.queue, t.collected, t.givenUp, ev.now, t.client.rto.rto);
    }
  }

  lemma ReadLeavesTimer(was: seq<nat>, i: nat, e: Entry, t: System, ev: Event)
    requires QueueOk(t.client.queue, t.sentAt, t.collected) && GivenUpOk(t.givenUp, t.client.queue, t.sentAt, t.collected)
    requires TimerIdle(was, i, e, t) && e.seqStart == SeqOf(i) && ev.ClientRead?
    ensures TimerIdle(was, i, e, Step(t, ev))
  {
    AckIdle(was, i, e, t.client.queue, t.sentAt, t.collected, t.givenUp, ev.f.ackNum);
  }

  /** What a step needs to know of the state for the timers. */
  ghost predicate TimersOk(t: System) {
    && CountsOk(t.client, |t.sent|) && |t.collected| == |t.sent|
    && QueueOk(t.client.queue, t.sentAt, t.collected) && GivenUpOk(t.givenUp, t.client.queue, t.sentAt, t.collected)
  }

  lemma StepLeavesTimer(was: seq<nat>, i: nat, e: Entry, t: System, ev: Event)
    requires TimersOk(t) && TimerIdle(was, i, e, t) && e.seqStart == SeqOf(i)
    requires !TickFrom(t, ev, e.deadline)
    ensures TimerIdle(was, i, e, Step(t, ev))
  {
    match ev
    case ClientSend(_, _, _) => SendLeavesTimer(was, i, e, t, ev);
    case ClientTick(_) => TickLeavesTimer(was, i, e, t, ev);
    case ClientRead(_, _, _) => ReadLeavesTimer(was, i, e, t, ev);
    case _ =>
  }

  /** The event is a tick at or after `deadline`, in a state in which the client waits. */
  ghost predicate TickFrom(s: System, e: Event, deadline: nat) {
    e.ClientTick? && s.client.phase.Waiting? && e.now >= deadline
  }

  ghost predicate TickFromAt(s: System, es: seq<Event>, j: nat, deadline: nat) {
    j < |es| && TickFrom(Run(s, es[..j]), es[j], deadline)
  }

  /** No tick of the run comes at or after `deadline` while the client waits. */
  ghost predicate NoTickFrom(s: System, es: seq<Event>, deadline: nat) {
    forall j :: !TickFromAt(s, es, j, deadline)
  }

  lemma RunPrefix(s: System, es: seq<Event>, k: nat)
    requires k < |es|
    ensures Run(s, es[..k + 1]) == Step(Run(s, es[..k]), es[k])
  {
    assert es[..k + 1][..k] == es[..k];
  }

  lemma NoTickAt(s: System, es: seq<Event>, k: nat, deadline: nat)
    requires k < |es| && NoTickFrom(s, es, deadline)
    ensures !TickFrom(Run(s, es[..k]), es[k], deadline)
  {
    assert !TickFromAt(s, es, k, deadline);
  }

  lemma RunTimersOk(s: System, es: seq<Event>)
    requires Inv(s)
    ensures TimersOk(Run(s, es))
  {
    RunKeeps(s, es);
  }

  lemma TimerOneOn(was: seq<nat>, i: nat, e: Entry, t: System, ev: Event, u: System)
    requires TimersOk(t) && TimerIdle(was, i, e, t) && e.seqStart == SeqOf(i) && !TickFrom(t, ev, e.deadline)
    requires u == Step(t, ev)
    ensures TimerIdle(was, i, e, u)
  {
    StepLeavesTimer(was, i, e, t, ev);
  }

  lemma TimerAfter(was: seq<nat>, i: nat, e: Entry, s: System, es: seq<Event>, k: nat)
    requires k < |es| && TimersOk(Run(s, es[..k])) && TimerIdle(was, i, e, Run(s, es[..k])) && e.seqStart == SeqOf(i)
    requires NoTickFrom(s, es, e.deadline)
    ensures TimerIdle(was, i, e, Run(s, es[..k + 1]))
  {
    NoTickAt(s, es, k, e.deadline);
    RunPrefix(s, es, k);
    TimerOneOn(was, i, e, Run(s, es[..k]), es[k], Run(s, es[..k + 1]));
  }

  lemma {:induction false} RunLeavesTimer(was: seq<nat>, i: nat, e: Entry, s: System, es: seq<Event>, k: nat)
    requires Inv(s) && TimerIdle(was, i, e, s) && e.seqStart == SeqOf(i) && NoTickFrom(s, es, e.deadline) && k <= |es|
    ensures TimerIdle(was, i, e, Run(s, es[..k]))
    decreases k
  {
    if k > 0 {
      RunLeavesTimer(was, i, e, s, es, k - 1);
      RunTimersOk(s, es[..k - 1]);
      TimerAfter(was, i, e, s, es, k - 1);
    }
  }

  /** What a tick at `now` makes of the due entry `e` of request `i`, whose collections were `was`. Collected for
      the k-th time, k <= 5, the request is due again after exactly 2^k timeouts; due once more, it is given up. */
  ghost predicate TimedOut(was: seq<nat>, i: nat, e: Entry, now: nat, base: nat,
                           q: seq<Entry>, collected: seq<seq<nat>>, givenUp: map<nat, nat>)
  {
    if e.retries < 5 then
      && i < |collected| && collected[i] == was + [now]
      && exists f :: f in q && Rescheduled(e, f, now, base, 5)
    else
      SeqOf(i) in givenUp && givenUp[SeqOf(i)] == now && SeqOf(i) !in Starts(q)
  }

  lemma Reschedules(q: seq<Entry>, now: nat, base: nat, e: Entry) returns (f: Entry)
    requires e in q && e.deadline <= now && e.retries < 5
    ensures f in Kept(q, now, base, 5) && Rescheduled(e, f, now, base, 5)
  {
    f := After(e, now, base);
    KeptContains(q, now, base, 5, e);
    BackoffDoubles(base, e.retries + 1);
  }

  lemma GivesUp(q: seq<Entry>, now: nat, base: nat, e: Entry)
    requires Sorted(q) && e in q && e.deadline <= now && e.retries == 5
    ensures e.seqStart in Starts(q) && e.seqStart !in Starts(Kept(q, now, base, 5))
  {
    forall f | f in Kept(q, now, base, 5)
      ensures f.seqStart != e.seqStart
    {
      var e' := KeptFrom(q, now, base, 5, f);
      if f.seqStart == e.seqStart {
        UniqueStart(q, e, e');
        assert false;
      }
    }
  }

  lemma TickTimesOut(i: nat, e: Entry, q: seq<Entry>, sentAt: seq<nat>, collected: seq<seq<nat>>,
                     givenUp: map<nat, nat>, now: nat, base: nat)
    requires QueueOk(q, sentAt, collected) && e in q && e.seqStart == SeqOf(i) && e.deadline <= now
    ensures i < |collected|
    ensures var kept := Kept(q, now, base, 5);
            TimedOut(collected[i], i, e, now, base, kept, Collect(collected, q, now), GiveUp(givenUp, q, kept, now))
  {
    EntryCounts(q, sentAt, collected, i, e);
    if e.retries < 5 {
      var f := Reschedules(q, now, base, e);
      DueStarts(q, now, e);
    } else {
      GivesUp(q, now, base, e);
    }
  }

  lemma SendTracks(c: C.Client, d: C.Draw, now: nat)
    requires c.phase.Ready? && C.MaySend(c) && c.conn.sendSeq + 40 < 0x1_0000_0000
    ensures var t := C.Send(c, d, now, true);
            t.phase.Waiting? && t.queue == c.queue + [Entry(c.conn.sendSeq, c.conn.sendSeq + 40, now + c.rto.rto, 0)]
  {
    Fits32(c.conn.sendSeq + 40);
  }

  lemma ReachableCounts(s: System)
    requires Reachable(s)
    ensures CountsOk(s.client, |s.sent|) && |s.collected| == |s.sent|
  {
    ReachableInv(s);
  }

  /** Sending arms the timer: the new request is due one timeout after it was written. */
  lemma SendArms(s: System, d: C.Draw, now: nat)
    requires Reachable(s) && s.client.phase.Ready? && RoomForOne(s) && C.MaySend(s.client)
    ensures var t := DoSend(s, d, now, true);
            && EntryOf(t, |s.sent|, Entry(SeqOf(|s.sent|), SeqOf(|s.sent| + 1), now + s.client.rto.rto, 0))
            && |t.collected| == |s.sent| + 1 && t.collected[|s.sent|] == []
  {
    ReachableCounts(s);
    SendTracks(s.client, d, now);
    var e := Entry(SeqOf(|s.sent|), SeqOf(|s.sent| + 1), now + s.client.rto.rto, 0);
    assert e in s.client.queue + [e];
  }

  lemma TickOnDue(t: System, now: nat, i: nat, e: Entry)
    requires QueueOk(t.client.queue, t.sentAt, t.collected) && t.client.phase.Waiting?
    requires EntryOf(t, i, e) && e.deadline <= now
    ensures i < |t.collected|
    ensures var u := Step(t, ClientTick(now));
            TimedOut(t.collected[i], i, e, now, t.client.rto.rto, u.client.queue, u.collected, u.givenUp)
  {
    TickTimesOut(i, e, t.client.queue, t.sentAt, t.collected, t.givenUp, now, t.client.rto.rto);
  }

  lemma TimerOverRun(s: System, es: seq<Event>, i: nat, e: Entry)
    requires Reachable(s) && EntryOf(s, i, e) && NoTickFrom(s, es, e.deadline)
    ensures i < |s.collected| && e.retries == |s.collected[i]| <= 5
    ensures TimerIdle(s.collected[i], i, e, Run(s, es)) && Inv(Run(s, es))
  {
    ReachableInv(s);
    EntryCounts(s.client.queue, s.sentAt, s.collected, i, e);
    assert e.seqStart in Starts(s.client.queue);
    RunLeavesTimer(s.collected[i], i, e, s, es, |es|);
    assert es[..|es|] == es;
    RunKeeps(s, es);
  }

  /** A tracked request is collected, or given up, at the first tick at or after its deadline and not before,
      whatever else happens up to that tick, as long as it is not acknowledged. */
  lemma FirstTickAfterDeadline(s: System, es: seq<Event>, now: nat, i: nat, e: Entry)
    requires Reachable(s) && EntryOf(s, i, e) && NoTickFrom(s, es, e.deadline) && e.deadline <= now
    requires Run(s, es).client.phase.Waiting? && SeqOf(i) in Starts(Run(s, es).client.queue)
    ensures i < |s.collected| && e.retries == |s.collected[i]| <= 5
    ensures var t := Run(s, es); var u := Step(t, ClientTick(now));
            && TimerIdle(s.collected[i], i, e, t)
            && TimedOut(s.collected[i], i, e, now, t.client.rto.rto, u.client.queue, u.collected, u.givenUp)
  {
    TimerOverRun(s, es, i, e);
    TickOnDue(Run(s, es), now, i, e);
  }
}
