/** What the client's main loop does in every reachable state: when it sends, what it sends, and what an answer
    tells its controller and its estimator. */
module ClientTheorems {
  import opened Words
  import opened OrderMessages
  import opened StateMachine
  import opened Retransmission
  import opened OrderProtocol
  import opened QueueHistory
  import opened ProtocolInvariant
  import opened ProtocolTheorems
  import RtoEstimation
  import Congestion
  import C = OrderClient

  // ----- when a request is sent -----

  lemma QueueBytes(q: seq<Entry>, sentAt: seq<nat>, collected: seq<seq<nat>>)
    requires QueueOk(q, sentAt, collected)
    ensures TrackedBytes(q) == 40 * |q|
  {
    forall e | e in q
      ensures e.seqEnd == e.seqStart + 40
    {
      var i: nat :| Tracks(e, i, sentAt, collected);
    }
    TrackedBytesOf(q);
  }

  lemma InFlightIsTracked(s: System)
    requires Inv(s)
    ensures |s.client.outstanding| * REQUEST_LEN == TrackedBytes(s.client.queue)
  {
    StartsCount(s.client.queue);
    assert |s.client.outstanding.Keys| == |s.client.queue|;
    QueueBytes(s.client.queue, s.sentAt, s.collected);
  }

  lemma MaySendIff(c: C.Client, inflight: nat)
    requires |c.outstanding| * REQUEST_LEN == inflight
    ensures C.MaySend(c) <==> inflight + 40 <= c.cc.cwnd && inflight + 40 <= c.conn.peerWindow
  {
  }

  /** Between two requests, a request is put on the network exactly when the bytes under tracking and 40 more fit
      both the congestion window and the window the peer announced; otherwise nothing but an order number is used. */
  lemma SendsIffWindowsAllow(s: System, d: C.Draw, now: nat)
    requires Reachable(s) && s.client.phase.Ready?
    ensures var t := DoSend(s, d, now, true);
            var fits := TrackedBytes(s.client.queue) + 40 <= s.client.cc.cwnd
                        && TrackedBytes(s.client.queue) + 40 <= s.client.conn.peerWindow;
            if fits then |t.sent| == |s.sent| + 1 && |t.wrote| == |s.wrote| + 1 && t.client.phase.Waiting?
            else t == s.(client := s.client.(nextOrderId := t.client.nextOrderId))
  {
    ReachableInv(s);
    InFlightIsTracked(s);
    MaySendIff(s.client, TrackedBytes(s.client.queue));
  }

  // ----- what is sent -----

  /** The request follows the draw: a Cancel or Replace of the drawn order if the shadow book has it, else a New. */
  lemma RequestFollowsDraw(orderId: nat, shadow: map<nat, Request>, d: C.Draw)
    ensures var r := C.MakeRequest(orderId, shadow, d);
            if d.target in shadow && (d.action == CANCEL || d.action == REPLACE) then r.action == d.action && r.target == d.target
            else r.action == NEW && r.target == 0
  {
  }

  /** Sides alternate with the order number, prices cycle through a hundred ticks (a Replace asks one tick more),
      and instrument and quantity never change. */
  ghost predicate WellFormed(r: Request) {
    && (r.side == 1 <==> r.orderId % 2 == 1) && (r.side == 2 <==> r.orderId % 2 == 0)
    && r.price - 100000 - (if r.action == REPLACE then 1 else 0) == (r.orderId + 1) % 0x1_0000_0000_0000_0000 % 100
    && r.instrument == 10001 && r.quantity == 1
  }

  lemma MadeWellFormed(orderId: nat, shadow: map<nat, Request>, d: C.Draw)
    requires orderId < 0x1_0000_0000_0000_0000
    ensures WellFormed(C.MakeRequest(orderId, shadow, d)) && C.MakeRequest(orderId, shadow, d).orderId == orderId
  {
    NextParity(orderId);
  }

  lemma NextParity(n: nat)
    requires n < 0x1_0000_0000_0000_0000
    ensures Add64(n, 1) % 2 != n % 2
  {
    if n + 1 < 0x1_0000_0000_0000_0000 {
      Fits64(n + 1);
    }
  }

  /** Order numbers below `next`, increasing, and every request well formed. */
  ghost predicate Numbered(sent: seq<Request>, next: nat) {
    && (forall i :: 0 <= i < |sent| ==> WellFormed(sent[i]) && sent[i].orderId < next)
    && (forall i, j :: 0 <= i < j < |sent| ==> sent[i].orderId < sent[j].orderId)
  }

  lemma SendNumbers(s: System, d: C.Draw, now: nat, written: bool)
    requires Numbered(s.sent, s.client.nextOrderId) && s.client.nextOrderId + 1 < 0x1_0000_0000_0000_0000
    requires s.client.phase.Ready?
    ensures var t := DoSend(s, d, now, written);
            Numbered(t.sent, t.client.nextOrderId) && t.client.nextOrderId == s.client.nextOrderId + 1
  {
    MadeWellFormed(s.client.nextOrderId, s.client.shadow, d);
    Fits64(s.client.nextOrderId + 1);
  }

  lemma OthersKeepNumbers(s: System, e: Event)
    requires !e.ClientSend?
    ensures Step(s, e).sent == s.sent && Step(s, e).client.nextOrderId == s.client.nextOrderId
  {
  }

  lemma StepNumbers(s: System, e: Event)
    requires Numbered(s.sent, s.client.nextOrderId) && s.client.nextOrderId + 1 < 0x1_0000_0000_0000_0000
    ensures var t := Step(s, e);
            Numbered(t.sent, t.client.nextOrderId) && t.client.nextOrderId <= s.client.nextOrderId + 1
  {
    if !e.ClientSend? {
      OthersKeepNumbers(s, e);
    } else if s.client.phase.Ready? {
      SendNumbers(s, e.d, e.now, e.written);
    }
  }

  lemma {:induction false} RunNumbers(ip: nat, port: nat, es: seq<Event>)
    requires |es| < 0xFFFF_FFFF_FFFF_FFFE
    ensures var s := Run(Init(ip, port), es); Numbered(s.sent, s.client.nextOrderId) && s.client.nextOrderId <= 1 + |es|
    decreases |es|
  {
    if es != [] {
      RunNumbers(ip, port, es[..|es| - 1]);
      StepNumbers(Run(Init(ip, port), es[..|es| - 1]), es[|es| - 1]);
    }
  }

  /** Two requests never carry the same order number, in any run too short to use up the 64-bit numbers: they
      increase in the order of sending. Every request is well formed. */
  lemma OrderNumbersIncrease(ip: nat, port: nat, es: seq<Event>, i: nat, j: nat)
    requires |es| < 0xFFFF_FFFF_FFFF_FFFE
    requires i < j < |Run(Init(ip, port), es).sent|
    ensures var sent := Run(Init(ip, port), es).sent;
            sent[i].orderId < sent[j].orderId && WellFormed(sent[i]) && WellFormed(sent[j])
  {
    RunNumbers(ip, port, es);
  }

  // ----- what an answer does -----

  /** `d` is `c` after an answer that acknowledged up to `ack` and announced `window`. */
  ghost predicate Answered(c: C.Client, d: C.Client, ack: nat, window: nat) {
    && d.phase == C.Ready && d.conn.peerWindow == window && d.conn.recvAck == ack
    && d.queue == DropAcked(c.queue, ack) && |d.queue| <= |c.queue|
    && d.ackedTotal - c.ackedTotal == |c.queue| - |d.queue|
  }

  /** The controller was told of exactly the bytes that left the queue. */
  ghost predicate Reported(c: C.Client, d: C.Client)
    requires Congestion.Words32(c.cc)
  {
    TrackedBytes(d.queue) <= TrackedBytes(c.queue) && d.cc == Congestion.OnAck(c.cc, TrackedBytes(c.queue) - TrackedBytes(d.queue))
  }

  lemma AnswerCompletes(c: C.Client, f: Frame, window: nat, rttMs: nat)
    requires c.phase.Waiting? && f.flags == PSH_ACK && Congestion.Words32(c.cc)
    ensures var d := C.OnFrame(c, f, window, rttMs);
            Answered(c, d, f.ackNum, window) && d.cc == Congestion.OnAck(c.cc, 40 * (|c.queue| - |d.queue|))
  {
    DropAckedIsSuffix(c.queue, f.ackNum);
  }

  lemma CountsAreBytes(c: C.Client, d: C.Client, sentAt: seq<nat>, collected: seq<seq<nat>>)
    requires Congestion.Words32(c.cc) && |d.queue| <= |c.queue|
    requires d.cc == Congestion.OnAck(c.cc, 40 * (|c.queue| - |d.queue|))
    requires QueueOk(c.queue, sentAt, collected) && QueueOk(d.queue, sentAt, collected)
    ensures Reported(c, d)
  {
    QueueBytes(c.queue, sentAt, collected);
    QueueBytes(d.queue, sentAt, collected);
    assert TrackedBytes(c.queue) - TrackedBytes(d.queue) == 40 * (|c.queue| - |d.queue|);
  }

  lemma RemovedIsReported(c: C.Client, d: C.Client, givenUp: map<nat, nat>, sentAt: seq<nat>, collected: seq<seq<nat>>,
                          ack: nat)
    requires Congestion.Words32(c.cc) && d.queue == DropAcked(c.queue, ack)
    requires |d.queue| <= |c.queue| && d.cc == Congestion.OnAck(c.cc, 40 * (|c.queue| - |d.queue|))
    requires QueueOk(c.queue, sentAt, collected) && GivenUpOk(givenUp, c.queue, sentAt, collected)
    ensures Reported(c, d)
  {
    AckKeeps(givenUp, c.queue, sentAt, collected, ack);
    CountsAreBytes(c, d, sentAt, collected);
  }

  lemma AnswersAreAcks(s: System, f: Frame)
    requires Inv(s) && f in s.toClient
    ensures f.flags == PSH_ACK && Congestion.Words32(s.client.cc)
    ensures QueueOk(s.client.queue, s.sentAt, s.collected)
    ensures GivenUpOk(s.givenUp, s.client.queue, s.sentAt, s.collected)
  {
  }

  lemma AnswerByParts(c: C.Client, f: Frame, window: nat, rttMs: nat, givenUp: map<nat, nat>, sentAt: seq<nat>,
                      collected: seq<seq<nat>>)
    requires c.phase.Waiting? && f.flags == PSH_ACK && Congestion.Words32(c.cc)
    requires QueueOk(c.queue, sentAt, collected) && GivenUpOk(givenUp, c.queue, sentAt, collected)
    ensures var d := C.OnFrame(c, f, window, rttMs); Answered(c, d, f.ackNum, window) && Reported(c, d)
  {
    AnswerCompletes(c, f, window, rttMs);
    RemovedIsReported(c, C.OnFrame(c, f, window, rttMs), givenUp, sentAt, collected, f.ackNum);
  }

  /** Reading an answer completes the waiting request, adopts the announced window, and reports to the controller
      exactly the bytes that left the queue. */
  lemma AnswerReports(s: System, f: Frame, window: nat, rttMs: nat)
    requires Reachable(s) && s.client.phase.Waiting? && f in s.toClient
    ensures Congestion.Words32(s.client.cc)
    ensures var d := C.OnFrame(s.client, f, window, rttMs);
            Answered(s.client, d, f.ackNum, window) && Reported(s.client, d)
  {
    ReachableInv(s);
    AnswersAreAcks(s, f);
    AnswerByParts(s.client, f, window, rttMs, s.givenUp, s.sentAt, s.collected);
  }

  function RttOf(e: Event): nat {
    if e.ClientRead? then e.rttMs else 0
  }

  /** The round-trip times of the answers read in a run. */
  function RttsRead(s: System, es: seq<Event>): seq<nat> {
    if es == [] then []
    else
      var before, e := Run(s, es[..|es| - 1]), es[|es| - 1];
      RttsRead(s, es[..|es| - 1])
      + (if ReadsAnswer(before, e) then [RttOf(e)] else [])
  }

  predicate ReadsAnswer(s: System, e: Event) {
    e.ClientRead? && s.client.phase.Waiting? && e.f in s.toClient
  }

  lemma ReadSamples(c: C.Client, f: Frame, window: nat, rttMs: nat)
    requires c.phase.Waiting? && f.flags == PSH_ACK && Congestion.Words32(c.cc)
    ensures C.OnFrame(c, f, window, rttMs).rto == RtoEstimation.Sample(c.rto, rttMs)
  {
  }

  lemma OthersKeepEstimate(s: System, e: Event)
    requires !ReadsAnswer(s, e)
    ensures Step(s, e).client.rto == s.client.rto
  {
  }

  lemma AnswerStep(s: System, e: Event)
    requires ReadsAnswer(s, e) && Congestion.Words32(s.client.cc)
    ensures Step(s, e).client == C.OnFrame(s.client, e.f, e.window, e.rttMs)
  {
  }

  lemma StepSamples(s: System, e: Event)
    requires Inv(s)
    ensures Step(s, e).client.rto == if ReadsAnswer(s, e) then RtoEstimation.Sample(s.client.rto, RttOf(e)) else s.client.rto
  {
    if ReadsAnswer(s, e) {
      AnswersAreAcks(s, e.f);
      AnswerStep(s, e);
      ReadSamples(s.client, e.f, e.window, e.rttMs);
    } else {
      OthersKeepEstimate(s, e);
    }
  }

  lemma SamplesAppend(e: RtoEstimation.Rto, rtts: seq<nat>, r: nat)
    ensures RtoEstimation.Samples(e, rtts + [r]) == RtoEstimation.Sample(RtoEstimation.Samples(e, rtts), r)
  {
    assert (rtts + [r])[..|rtts|] == rtts;
  }

  lemma RttsLonger(s: System, es: seq<Event>, e: Event)
    ensures RttsRead(s, es + [e]) == RttsRead(s, es) + (if ReadsAnswer(Run(s, es), e) then [RttOf(e)] else [])
    ensures Run(s, es + [e]) == Step(Run(s, es), e)
  {
    assert (es + [e])[..|es|] == es;
  }

  lemma SamplesLonger(x: RtoEstimation.Rto, y: RtoEstimation.Rto, rtts: seq<nat>, fed: bool, r: nat)
    requires x == RtoEstimation.Samples(RtoEstimation.INITIAL, rtts)
    requires y == if fed then RtoEstimation.Sample(x, r) else x
    ensures y == RtoEstimation.Samples(RtoEstimation.INITIAL, rtts + (if fed then [r] else []))
  {
    if fed {
      SamplesAppend(RtoEstimation.INITIAL, rtts, r);
    } else {
      assert rtts + [] == rtts;
    }
  }

  /** The timeout in use is that of an estimator fed with the round-trip time of every answer read, in order, and
      with nothing else. */
  lemma {:induction false} EstimatorSeesEveryAnswer(ip: nat, port: nat, es: seq<Event>)
    ensures Run(Init(ip, port), es).client.rto == RtoEstimation.Samples(RtoEstimation.INITIAL, RttsRead(Init(ip, port), es))
    decreases |es|
  {
    if es != [] {
      var init, e := es[..|es| - 1], es[|es| - 1];
      assert es == init + [e];
      EstimatorSeesEveryAnswer(ip, port, init);
      InitInv(ip, port);
      RunKeeps(Init(ip, port), init);
      var s := Run(Init(ip, port), init);
      StepSamples(s, e);
      RttsLonger(Init(ip, port), init, e);
      SamplesLonger(s.client.rto, Step(s, e).client.rto, RttsRead(Init(ip, port), init), ReadsAnswer(s, e), RttOf(e));
    }
  }

  /** Only an acknowledgement completes a request; anything else stops the client and changes nothing more. */
  lemma StopsOnNonAck(c: C.Client, f: Frame, window: nat, rttMs: nat)
    requires c.phase.Waiting? && Congestion.Words32(c.cc)
    ensures var d := C.OnFrame(c, f, window, rttMs);
            (d.phase.Stopped? <==> !HasAck(f.flags) || (HasSyn(f.flags) && HasFin(f.flags)))
            && (d.phase.Stopped? ==> d == c.(phase := C.Stopped))
  {
  }

  // ----- the shadow book -----

  /** The shadow book after the completed requests `rs`. */
  function Book(rs: seq<Request>): map<nat, Request> {
    if rs == [] then map[] else C.UpdateShadow(Book(rs[..|rs| - 1]), rs[|rs| - 1])
  }

  /** Request `i` is the last word on the price of order `o`: the New that opened it or a Replace of it, with no
      later Replace, New or Cancel of that order. */
  ghost predicate LastPrice(rs: seq<Request>, i: nat, o: nat) {
    && i < |rs| && Touches(rs[i], o) && rs[i].action != CANCEL
    && forall j :: i < j < |rs| ==> !Touches(rs[j], o)
  }

  predicate Touches(r: Request, o: nat) {
    if r.action == NEW then r.orderId == o else (r.action == CANCEL || r.action == REPLACE) && r.target == o
  }

  /** Every order of the book carries the price of the last request about it. */
  lemma {:induction false} BookPrice(rs: seq<Request>, o: nat)
    requires forall i :: 0 <= i < |rs| ==> rs[i].action == NEW || rs[i].action == CANCEL || rs[i].action == REPLACE
    requires o in Book(rs)
    ensures exists i: nat :: LastPrice(rs, i, o) && Book(rs)[o].price == rs[i].price
  {
    var n := |rs| - 1;
    var init, last := rs[..n], rs[n];
    if Touches(last, o) {
      assert LastPrice(rs, n, o);
    } else {
      BookPrice(init, o);
      var i: nat :| LastPrice(init, i, o) && Book(init)[o].price == init[i].price;
      assert LastPrice(rs, i, o);
    }
  }

  lemma BookAppend(rs: seq<Request>, r: Request)
    ensures Book(rs + [r]) == C.UpdateShadow(Book(rs), r)
  {
    assert (rs + [r])[..|rs|] == rs;
  }

  ghost predicate ShadowIsBook(c: C.Client, sent: seq<Request>) {
    match c.phase
    case Ready => c.shadow == Book(sent)
    case Waiting(req) => sent != [] && req == sent[|sent| - 1] && c.shadow == Book(sent[..|sent| - 1])
    case Stopped => c.shadow == Book(sent) || (sent != [] && c.shadow == Book(sent[..|sent| - 1]))
  }

  lemma ReadKeepsBook(c: C.Client, sent: seq<Request>, f: Frame, window: nat, rttMs: nat)
    requires c.phase.Waiting? && Congestion.Words32(c.cc) && ShadowIsBook(c, sent)
    ensures ShadowIsBook(C.OnFrame(c, f, window, rttMs), sent)
  {
  }

  lemma SendKeepsBook(s: System, d: C.Draw, now: nat, written: bool)
    requires s.client.phase.Ready? && ShadowIsBook(s.client, s.sent)
    ensures var t := DoSend(s, d, now, written); ShadowIsBook(t.client, t.sent)
  {
    var r := C.MakeRequest(s.client.nextOrderId, s.client.shadow, d);
    assert (s.sent + [r])[..|s.sent|] == s.sent;
  }

  lemma StepKeepsBook(s: System, e: Event)
    requires ShadowIsBook(s.client, s.sent)
    ensures ShadowIsBook(Step(s, e).client, Step(s, e).sent)
  {
    match e
    case ClientSend(d, now, written) =>
      if s.client.phase.Ready? {
        SendKeepsBook(s, d, now, written);
      }
    case ClientRead(f, window, rttMs) =>
      if s.client.phase.Waiting? && Congestion.Words32(s.client.cc) {
        ReadKeepsBook(s.client, s.sent, f, window, rttMs);
      }
    case _ =>
  }

  /** In every run the shadow book holds the orders of the completed requests, each with the price of the last
      request about it. */
  lemma {:induction false} ShadowFollowsRequests(ip: nat, port: nat, es: seq<Event>)
    ensures var s := Run(Init(ip, port), es); ShadowIsBook(s.client, s.sent)
    decreases |es|
  {
    if es != [] {
      ShadowFollowsRequests(ip, port, es[..|es| - 1]);
      StepKeepsBook(Run(Init(ip, port), es[..|es| - 1]), es[|es| - 1]);
    }
  }
}
