/** The invariant of the whole order protocol, kept by every step. */
module ProtocolInvariant {
  import opened Words
  import opened OrderMessages
  import opened StateMachine
  import opened Retransmission
  import opened OrderProtocol
  import opened QueueHistory
  import Congestion
  import C = OrderClient
  import G = OrderGateway
  import GI = GatewayInvariant

  /** The client's two indexes agree: the frames kept for retransmission are exactly those of the
      requests under tracking, and each frame carries its request. */
  ghost predicate IndexesAgree(out: map<nat, Frame>, q: seq<Entry>, sent: seq<Request>) {
    && out.Keys == Starts(q)
    && (forall k :: k in out ==> out[k].seqNum == k && GI.IsRequestFrame(out[k], sent))
  }

  /** The shadow book holds the effects of the completed requests: all that were sent but the one waited for. */
  ghost predicate ShadowOk(c: C.Client, sent: seq<Request>) {
    && (forall k :: k in c.shadow ==> k < 0x1_0000_0000_0000_0000)
    && match c.phase
       case Ready => c.shadow.Keys == Effects(sent)
       case Waiting(req) =>
         && sent != [] && req == sent[|sent| - 1]
         && c.shadow.Keys == Effects(sent[..|sent| - 1])
       case Stopped =>
         c.shadow.Keys == Effects(sent) || (sent != [] && c.shadow.Keys == Effects(sent[..|sent| - 1]))
  }

  ghost predicate CountsOk(c: C.Client, n: nat) {
    && c.conn.sendSeq == SeqOf(n)
    && c.sentTotal == n == c.ackedTotal + c.dropTotal + |c.queue|
    && |c.queue| * 40 <= Congestion.MAX_CWND
    && Congestion.Healthy(c.cc)
    && 50 <= c.rto.rto <= 5000
    && c.nextOrderId < 0x1_0000_0000_0000_0000
  }

  /** Every request has been processed by the gateway, is still tracked, or was given up. */
  ghost predicate NothingForgotten(n: nat, processed: nat, q: seq<Entry>, givenUp: map<nat, nat>) {
    forall i :: 0 <= i < n ==> i < processed || SeqOf(i) in Starts(q) || SeqOf(i) in givenUp
  }

  ghost predicate ClientInv(s: System) {
    && CountsOk(s.client, |s.sent|)
    && ShadowOk(s.client, s.sent)
    && IndexesAgree(s.client.outstanding, s.client.queue, s.sent)
    && QueueOk(s.client.queue, s.sentAt, s.collected)
    && TimesOk(s.sentAt, s.collected)
    && |s.sentAt| == |s.sent|
    && GivenUpOk(s.givenUp, s.client.queue, s.sentAt, s.collected)
    && NothingForgotten(|s.sent|, |s.gateway.processed|, s.client.queue, s.givenUp)
  }

  ghost predicate ChannelsOk(s: System) {
    && (forall f :: f in s.toGateway ==> GI.IsRequestFrame(f, s.sent) || GI.IsKeepalive(f))
    && (forall f :: f in s.toClient ==> f.flags == PSH_ACK && f.ackNum <= SeqOf(|s.gateway.processed|))
  }

  ghost predicate Inv(s: System) {
    GI.SentOk(s.sent) && GI.Inv(s.gateway, s.sent, s.arrived) && ClientInv(s) && ChannelsOk(s)
  }

  lemma InitInv(ip: nat, port: nat)
    ensures Inv(Init(ip, port))
  {
    Congestion.FreshHealthy(1200);
  }

  // ----- the gateway reads a frame -----

  lemma DeliverKeeps(s: System, f: Frame, window: nat)
    requires Inv(s) && f in s.toGateway
    ensures Inv(DoDeliver(s, f, window))
    ensures |s.gateway.processed| <= |DoDeliver(s, f, window).gateway.processed|
  {
    var h := G.Receive(s.gateway, f, window);
    if GI.IsRequestFrame(f, s.sent) {
      GI.RequestArrives(s.gateway, f, window, s.sent, s.arrived);
    } else {
      GI.KeepaliveStep(s.gateway, f, window, s.sent, s.arrived);
    }
    assert GI.Inv(h, s.sent, DoDeliver(s, f, window).arrived);
    forall a | a in h.written
      ensures a.flags == PSH_ACK && a.ackNum <= SeqOf(|h.processed|)
    {
      var i :| 0 <= i < |h.written| && h.written[i] == a;
      assert GI.IsAnswer(h.written[i], h.processed[i], i);
    }
  }

  // ----- the client sends -----

  lemma FramesStay(s: set<Frame>, sent: seq<Request>, r: Request)
    requires forall f :: f in s ==> GI.IsRequestFrame(f, sent) || GI.IsKeepalive(f)
    ensures forall f :: f in s ==> GI.IsRequestFrame(f, sent + [r]) || GI.IsKeepalive(f)
  {
    forall f | f in s && GI.IsRequestFrame(f, sent)
      ensures GI.IsRequestFrame(f, sent + [r])
    {
      FrameStays(f, sent, r);
    }
  }

  lemma FrameStays(f: Frame, sent: seq<Request>, r: Request)
    requires GI.IsRequestFrame(f, sent)
    ensures GI.IsRequestFrame(f, sent + [r])
  {
    var i :| 0 <= i < |sent| && f.seqNum == SeqOf(i) && f.payload == Encode(sent[i]);
    assert (sent + [r])[i] == sent[i];
  }

  lemma NewFrame(sent: seq<Request>, r: Request, ack: nat)
    ensures GI.IsRequestFrame(Frame(SeqOf(|sent|), ack, PSH_ACK, Encode(r)), sent + [r])
  {
    assert (sent + [r])[|sent|] == r;
  }

  lemma RequestAcceptable(s: System, d: C.Draw)
    requires Inv(s) && s.client.phase.Ready? && RoomForOne(s) && d.sendTs < 0x1_0000_0000_0000_0000
    ensures GI.SentOk(s.sent + [C.MakeRequest(s.client.nextOrderId, s.client.shadow, d)])
  {
    var r := C.MakeRequest(s.client.nextOrderId, s.client.shadow, d);
    var all := s.sent + [r];
    assert r.Fits();
    forall i | 0 <= i < |all|
      ensures Accepts(Effects(all[..i]), all[i])
    {
      assert all[..i] == if i < |s.sent| then s.sent[..i] else s.sent;
    }
  }

  /** Blocked by a window, or the write failed: only the order number is used up. */
  lemma NotSentKeeps(s: System, d: C.Draw, now: nat, written: bool)
    requires Inv(s) && s.client.phase.Ready? && !(C.MaySend(s.client) && written)
    ensures Inv(DoSend(s, d, now, written))
  {
  }

  /** The gateway and the network after request `r` has been sent. */
  lemma SendKeepsRest(s: System, r: Request)
    requires Inv(s) && s.client.phase.Ready?
    ensures GI.Inv(s.gateway, s.sent + [r], s.arrived)
    ensures forall f :: f in s.toGateway + {DataFrame(s.client.conn, Encode(r))} ==>
              GI.IsRequestFrame(f, s.sent + [r]) || GI.IsKeepalive(f)
  {
    GI.MoreSent(s.gateway, s.sent, r, s.arrived);
    FramesStay(s.toGateway, s.sent, r);
    NewFrame(s.sent, r, s.client.conn.recvSeq);
  }

  lemma SendKeeps(s: System, d: C.Draw, now: nat, written: bool)
    requires Inv(s) && s.client.phase.Ready? && RoomForOne(s) && d.sendTs < 0x1_0000_0000_0000_0000
    ensures Inv(DoSend(s, d, now, written))
  {
    if C.MaySend(s.client) && written {
      RequestAcceptable(s, d);
      SendKeepsRest(s, C.MakeRequest(s.client.nextOrderId, s.client.shadow, d));
      SendKeepsClient(s, d, now);
    } else {
      NotSentKeeps(s, d, now, written);
    }
  }

  lemma SendIndexes(out: map<nat, Frame>, q: seq<Entry>, sent: seq<Request>, r: Request, f: Frame, q': seq<Entry>)
    requires IndexesAgree(out, q, sent)
    requires f.seqNum == SeqOf(|sent|) && f.flags == PSH_ACK && f.payload == Encode(r)
    requires Starts(q') == Starts(q) + {f.seqNum}
    ensures IndexesAgree(out[f.seqNum := f], q', sent + [r])
  {
    NewFrame(sent, r, f.ackNum);
    forall k | k in out
      ensures GI.IsRequestFrame(out[k], sent + [r])
    {
      FrameStays(out[k], sent, r);
    }
  }

  lemma SendCounts(s: System, d: C.Draw, now: nat)
    requires Inv(s) && s.client.phase.Ready? && RoomForOne(s) && C.MaySend(s.client)
    ensures CountsOk(C.Send(s.client, d, now, true), |s.sent| + 1)
  {
    StartsCount(s.client.queue);
    assert |s.client.outstanding.Keys| == |s.client.queue|;
    GI.NextSeq(|s.sent|);
  }

  /** `t` is `s` after request `r` has been sent. */
  ghost predicate SentOne(s: System, t: System, r: Request, now: nat) {
    && t.gateway == s.gateway && t.givenUp == s.givenUp
    && t.sent == s.sent + [r] && t.sentAt == s.sentAt + [now] && t.collected == s.collected + [[]]
    && t.client.queue == s.client.queue + [NewEntry(SeqOf(|s.sent|), 40, now, s.client.rto.rto)]
    && t.client.outstanding == s.client.outstanding[SeqOf(|s.sent|) := DataFrame(s.client.conn, Encode(r))]
    && t.client.shadow == s.client.shadow && t.client.phase == C.Waiting(r)
  }

  lemma SentOneKeeps(s: System, t: System, r: Request, now: nat)
    requires ClientInv(s) && s.client.phase.Ready? && SentOne(s, t, r, now)
    requires CountsOk(t.client, |t.sent|) && SeqOf(|s.sent| + 1) < 0x1_0000_0000
    ensures ClientInv(t)
  {
    TrackKeeps(s.client.queue, s.sentAt, s.collected, now, s.client.rto.rto);
    TrackKeepsTimes(s.sentAt, s.collected, now);
    TrackKeepsGivenUp(s.givenUp, s.client.queue, t.client.queue, s.sentAt, s.collected, now);
    SendIndexes(s.client.outstanding, s.client.queue, s.sent, r, DataFrame(s.client.conn, Encode(r)), t.client.queue);
    SendShadow(s.client, t.client, s.sent, r);
    SendForgetsNothing(|s.sent|, |s.gateway.processed|, s.client.queue, t.client.queue, s.givenUp);
  }

  lemma SendShadow(c: C.Client, c': C.Client, sent: seq<Request>, r: Request)
    requires ShadowOk(c, sent) && c.phase.Ready? && c'.shadow == c.shadow && c'.phase == C.Waiting(r)
    ensures ShadowOk(c', sent + [r])
  {
    assert (sent + [r])[..|sent|] == sent;
  }

  lemma SendForgetsNothing(n: nat, processed: nat, q: seq<Entry>, q': seq<Entry>, givenUp: map<nat, nat>)
    requires NothingForgotten(n, processed, q, givenUp) && Starts(q') == Starts(q) + {SeqOf(n)}
    ensures NothingForgotten(n + 1, processed, q', givenUp)
  {
  }

  lemma SendKeepsClient(s: System, d: C.Draw, now: nat)
    requires Inv(s) && s.client.phase.Ready? && RoomForOne(s) && d.sendTs < 0x1_0000_0000_0000_0000
    requires C.MaySend(s.client)
    ensures ClientInv(DoSend(s, d, now, true))
  {
    SendCounts(s, d, now);
    SentOneKeeps(s, DoSend(s, d, now, true), C.MakeRequest(s.client.nextOrderId, s.client.shadow, d), now);
  }

  // ----- the client collects what is due -----

  lemma {:induction false} ResentAreOutstanding(due: seq<Entry>, out: map<nat, Frame>, f: Frame)
    requires f in C.FramesOf(due, out)
    ensures exists k :: k in out && out[k] == f
  {
    if f in C.FrameOf(due[0], out) {
      assert out[due[0].seqStart] == f;
    } else {
      ResentAreOutstanding(due[1..], out, f);
    }
  }

  lemma TickKeeps(s: System, now: nat)
    requires Inv(s) && s.client.phase.Waiting?
    ensures Inv(DoTick(s, now))
  {
    var t := DoTick(s, now);
    TickKeepsClient(s, now);
    forall f | f in C.Resent(s.client, now)
      ensures GI.IsRequestFrame(f, s.sent)
    {
      ResentAreOutstanding(Due(s.client.queue, now, C.MAX_RETRIES), t.client.outstanding, f);
    }
  }

  lemma TickKeepsClient(s: System, now: nat)
    requires Inv(s) && s.client.phase.Waiting?
    ensures ClientInv(DoTick(s, now))
  {
    var q, base := s.client.queue, s.client.rto.rto;
    var t := DoTick(s, now);
    CollectKeepsQueue(q, s.sentAt, s.collected, now, base);
    CollectKeepsTimes(q, s.sentAt, s.collected, now);
    CollectKeepsGivenUp(s.givenUp, q, s.sentAt, s.collected, now, base);
    KeptStartsShrink(q, now, base);
    TickCounts(s, now);
    Congestion.LossHealthy(s.client.cc);
  }

  lemma KeptKeys(out: map<nat, Frame>, q: seq<Entry>, now: nat, base: nat)
    requires Sorted(q) && out.Keys == Starts(q)
    ensures var kept := Kept(q, now, base, 5); var left := C.KeptOutstanding(out, kept);
            && left.Keys == Starts(kept)
            && |out| == |q| && |left| == |kept| <= |q|
  {
    var kept := Kept(q, now, base, 5);
    var left := C.KeptOutstanding(out, kept);
    KeptStartsShrink(q, now, base);
    KeptSorted(q, now, base, 5);
    assert left.Keys == Starts(kept);
    StartsCount(q);
    StartsCount(kept);
    KeptNoLonger(q, now, base);
    assert |out.Keys| == |q| && |left.Keys| == |kept|;
  }

  lemma TickCounts(s: System, now: nat)
    requires Inv(s) && s.client.phase.Waiting?
    ensures var t := C.Tick(s.client, now);
            && t.outstanding.Keys == Starts(t.queue)
            && s.client.dropTotal + |s.client.queue| == t.dropTotal + |t.queue|
            && |t.queue| <= |s.client.queue|
  {
    KeptKeys(s.client.outstanding, s.client.queue, now, s.client.rto.rto);
  }

  lemma {:induction false} KeptNoLonger(q: seq<Entry>, now: nat, base: nat)
    ensures |Kept(q, now, base, 5)| <= |q|
  {
    if q != [] {
      KeptNoLonger(q[1..], now, base);
    }
  }

  // ----- the client reads a frame -----

  /** `d` is the client `c` after an acknowledgement of everything below `ack` has completed its request. */
  ghost predicate AckedBy(c: C.Client, d: C.Client, ack: nat)
    requires c.phase.Waiting?
  {
    && d.queue == DropAcked(c.queue, ack)
    && d.outstanding == C.UnackedOutstanding(c.outstanding, ack)
    && d.shadow == C.UpdateShadow(c.shadow, c.phase.req) && d.phase == C.Ready
    && d.conn.sendSeq == c.conn.sendSeq && d.nextOrderId == c.nextOrderId
    && d.sentTotal == c.sentTotal && d.dropTotal == c.dropTotal
    && d.ackedTotal == c.ackedTotal + |c.queue| - |d.queue|
    && |d.queue| <= |c.queue|
    && Congestion.Healthy(d.cc) && 50 <= d.rto.rto <= 5000
  }

  lemma ReadIsAck(c: C.Client, f: Frame, window: nat, rttMs: nat)
    requires c.phase.Waiting? && f.flags == PSH_ACK && Congestion.Healthy(c.cc) && |c.queue| * 40 <= Congestion.MAX_CWND
    ensures AckedBy(c, C.OnFrame(c, f, window, rttMs), f.ackNum)
  {
    var left := DropAcked(c.queue, f.ackNum);
    DropAckedIsSuffix(c.queue, f.ackNum);
    Congestion.AckHealthy(c.cc, (|c.queue| - |left|) * 40);
  }

  lemma AckedKeeps(s: System, t: System, ack: nat)
    requires Inv(s) && s.client.phase.Waiting? && t == s.(client := t.client)
    requires AckedBy(s.client, t.client, ack) && ack <= SeqOf(|s.gateway.processed|)
    ensures ClientInv(t)
  {
    AckKeeps(s.givenUp, s.client.queue, s.sentAt, s.collected, ack);
    ReadIndexes(s, ack);
    ReadShadow(s.client, s.sent);
    ReadForgetsNothing(s, ack);
  }

  lemma ReadKeeps(s: System, f: Frame, window: nat, rttMs: nat)
    requires Inv(s) && s.client.phase.Waiting? && f in s.toClient
    ensures Inv(s.(client := C.OnFrame(s.client, f, window, rttMs)))
  {
    ReadIsAck(s.client, f, window, rttMs);
    AckedKeeps(s, s.(client := C.OnFrame(s.client, f, window, rttMs)), f.ackNum);
  }

  /** What the acknowledgement removes has been processed. */
  lemma ReadForgetsNothing(s: System, ack: nat)
    requires Inv(s) && ack <= SeqOf(|s.gateway.processed|)
    ensures NothingForgotten(|s.sent|, |s.gateway.processed|, DropAcked(s.client.queue, ack), s.givenUp)
  {
    AckKeeps(s.givenUp, s.client.queue, s.sentAt, s.collected, ack);
  }

  lemma ReadIndexes(s: System, ack: nat)
    requires Inv(s)
    ensures C.UnackedOutstanding(s.client.outstanding, ack).Keys == Starts(DropAcked(s.client.queue, ack))
  {
    AckKeeps(s.givenUp, s.client.queue, s.sentAt, s.collected, ack);
    forall k | k in s.client.outstanding
      ensures Add32(k, REQUEST_LEN) == k + 40
    {
      var i :| 0 <= i < |s.sent| && k == SeqOf(i) && s.client.outstanding[k].payload == Encode(s.sent[i]);
      Fits32(k + 40);
    }
  }

  lemma ReadShadow(c: C.Client, sent: seq<Request>)
    requires c.phase.Waiting? && ShadowOk(c, sent) && GI.SentOk(sent)
    ensures C.UpdateShadow(c.shadow, c.phase.req).Keys == Effects(sent)
    ensures forall k :: k in C.UpdateShadow(c.shadow, c.phase.req) ==> k < 0x1_0000_0000_0000_0000
  {
    assert Effects(sent) == Effect(Effects(sent[..|sent| - 1]), sent[|sent| - 1]);
  }

  // ----- every step -----

  lemma KeepaliveKeeps(s: System)
    requires Inv(s)
    ensures var f := AckFrame(s.client.conn, s.client.conn.sendAck);
            Inv(s.(toGateway := s.toGateway + {f}, wrote := s.wrote + [f]))
  {
  }

  lemma StopKeeps(s: System)
    requires Inv(s)
    ensures Inv(s.(client := s.client.(phase := C.Stopped)))
  {
  }

  lemma SendStepKeeps(s: System, e: Event)
    requires Inv(s) && e.ClientSend?
    ensures Inv(Step(s, e)) && Step(s, e).gateway == s.gateway
  {
    if s.client.phase.Ready? && RoomForOne(s) && e.d.sendTs < 0x1_0000_0000_0000_0000 {
      SendKeeps(s, e.d, e.now, e.written);
    }
  }

  lemma TickStep(s: System, e: Event)
    requires e.ClientTick?
    ensures Step(s, e) == if s.client.phase.Waiting? then DoTick(s, e.now) else s
  {
  }

  lemma ReadStep(s: System, e: Event)
    requires e.ClientRead? && Congestion.Healthy(s.client.cc)
    ensures Step(s, e) == if s.client.phase.Waiting? && e.f in s.toClient then
                            s.(client := C.OnFrame(s.client, e.f, e.window, e.rttMs))
                          else s
  {
  }

  lemma TickStepKeeps(s: System, e: Event)
    requires Inv(s) && e.ClientTick?
    ensures Inv(Step(s, e)) && Step(s, e).gateway == s.gateway
  {
    TickStep(s, e);
    if s.client.phase.Waiting? {
      TickKeeps(s, e.now);
    }
  }

  lemma ReadStepKeeps(s: System, e: Event)
    requires Inv(s) && e.ClientRead?
    ensures Inv(Step(s, e)) && Step(s, e).gateway == s.gateway
  {
    ReadStep(s, e);
    if s.client.phase.Waiting? && e.f in s.toClient {
      ReadKeeps(s, e.f, e.window, e.rttMs);
    }
  }

  /** Every step of either end, with any frame that is or was in the network, keeps the invariant. */
  lemma StepKeeps(s: System, e: Event)
    requires Inv(s)
    ensures Inv(Step(s, e))
    ensures |s.gateway.processed| <= |Step(s, e).gateway.processed|
  {
    match e
    case ClientSend(_, _, _) => SendStepKeeps(s, e);
    case ClientKeepalive => KeepaliveKeeps(s);
    case ClientTick(_) => TickStepKeeps(s, e);
    case ClientRead(_, _, _) => ReadStepKeeps(s, e);
    case ClientStop => StopKeeps(s);
    case GatewayRead(f, window) =>
      if f in s.toGateway {
        DeliverKeeps(s, f, window);
      }
  }

  /** The invariant holds after every run, of any length, from a fresh client and a fresh gateway. */
  lemma {:induction false} RunKeeps(s: System, es: seq<Event>)
    requires Inv(s)
    ensures Inv(Run(s, es))
    ensures |s.gateway.processed| <= |Run(s, es).gateway.processed|
  {
    if es != [] {
      RunKeeps(s, es[..|es| - 1]);
      StepKeeps(Run(s, es[..|es| - 1]), es[|es| - 1]);
    }
  }

  /** `s` is the state after some run of events from a fresh client and a fresh gateway. */
  ghost predicate Reachable(s: System) {
    exists ip: nat, port: nat, es: seq<Event> :: s == Run(Init(ip, port), es)
  }

  lemma ReachableInv(s: System)
    requires Reachable(s)
    ensures Inv(s)
  {
    var ip: nat, port: nat, es: seq<Event> :| s == Run(Init(ip, port), es);
    InitInv(ip, port);
    RunKeeps(Init(ip, port), es);
  }
}
