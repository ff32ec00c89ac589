/** What the order protocol guarantees in every reachable state: after any sequence of sends,
    keepalives, timer ticks, stops and deliveries, with frames lost, duplicated, reordered and
    delayed at will. */
module ProtocolTheorems {
  import opened Words
  import opened OrderMessages
  import opened StateMachine
  import opened Retransmission
  import opened OrderProtocol
  import opened QueueHistory
  import opened ProtocolInvariant
  import Congestion
  import C = OrderClient
  import GI = GatewayInvariant

  /** Exactly once and in order: the requests the gateway has processed are a prefix of those sent. */
  lemma ExactlyOnceInOrder(s: System)
    requires Reachable(s)
    ensures s.gateway.processed <= s.sent
  {
    ReachableInv(s);
  }

  lemma SentGrowsByStep(s: System, e: Event)
    ensures s.sent <= Step(s, e).sent
  {
  }

  lemma {:induction false} SentOnlyGrows(s: System, es: seq<Event>)
    ensures s.sent <= Run(s, es).sent
  {
    if es != [] {
      SentOnlyGrows(s, es[..|es| - 1]);
      SentGrowsByStep(Run(s, es[..|es| - 1]), es[|es| - 1]);
    }
  }

  /** What has been processed stays processed: whatever happens next only appends to it. */
  lemma ProcessedOnlyGrows(s: System, es: seq<Event>)
    requires Reachable(s)
    ensures s.gateway.processed <= Run(s, es).gateway.processed
  {
    ReachableInv(s);
    RunKeeps(s, es);
    SentOnlyGrows(s, es);
    var t := Run(s, es);
    assert t.gateway.processed <= t.sent;
  }

  /** Delivery is maximal: no parked segment is the next one, and the first k requests have been processed
      exactly when all of them have arrived at least once, in any order. */
  lemma DeliveryIsMaximal(s: System, k: nat)
    requires Reachable(s)
    ensures s.gateway.conn.recvSeq !in s.gateway.segments
    ensures k <= |s.gateway.processed| <==> forall i: nat :: i < k ==> SeqOf(i) in s.arrived
  {
    ReachableInv(s);
    GI.MaximalDelivery(s.gateway, s.sent, s.arrived, k);
  }

  lemma AbandonedAfterFive(s: System, i: nat)
    requires GivenUpOk(s.givenUp, s.client.queue, s.sentAt, s.collected) && SeqOf(i) in s.givenUp
    ensures i < |s.collected| && |s.collected[i]| == 5
    ensures i < |s.sentAt| && s.givenUp[SeqOf(i)] >= s.sentAt[i] + 3150
  {
    var j: nat :| Abandoned(SeqOf(i), s.givenUp[SeqOf(i)], j, s.sentAt, s.collected);
    assert i == j;
  }

  /** Nothing is lost silently: every request sent has been processed, is still tracked by the client,
      or was given up after exactly five collections as due. */
  lemma NoSilentLoss(s: System, i: nat)
    requires Reachable(s) && i < |s.sent|
    ensures || i < |s.gateway.processed|
            || SeqOf(i) in Starts(s.client.queue)
            || (SeqOf(i) in s.givenUp && i < |s.collected| && |s.collected[i]| == 5)
  {
    ReachableInv(s);
    if SeqOf(i) in s.givenUp {
      AbandonedAfterFive(s, i);
    }
  }

  lemma RemovedIsCovered(s: System, ack: nat, i: nat)
    requires ClientInv(s) && SeqOf(i) in Starts(s.client.queue) && ack <= SeqOf(|s.gateway.processed|)
    requires SeqOf(i) !in Starts(DropAcked(s.client.queue, ack))
    ensures i < |s.gateway.processed|
  {
    AckKeeps(s.givenUp, s.client.queue, s.sentAt, s.collected, ack);
  }

  lemma ReadDropsAcked(s: System, f: Frame, window: nat, rttMs: nat)
    requires ChannelsOk(s)
    ensures var t := Step(s, ClientRead(f, window, rttMs));
            || t.client.queue == s.client.queue
            || (t.client.queue == DropAcked(s.client.queue, f.ackNum) && f.ackNum <= SeqOf(|s.gateway.processed|))
  {
  }

  /** Ack soundness: when a frame, however old or repeated, removes a request from the client's queue,
      the gateway has processed that request. */
  lemma AckedWasProcessed(s: System, f: Frame, window: nat, rttMs: nat, i: nat)
    requires Reachable(s) && SeqOf(i) in Starts(s.client.queue)
    requires SeqOf(i) !in Starts(Step(s, ClientRead(f, window, rttMs)).client.queue)
    ensures i < |s.gateway.processed|
  {
    ReachableInv(s);
    ReadDropsAcked(s, f, window, rttMs);
    RemovedIsCovered(s, f.ackNum, i);
  }

  /** Every processed request is answered exactly once, in order, as accepted, with an acknowledgement number
      that covers exactly the requests processed up to it. */
  lemma EveryRequestAnswered(s: System, i: nat)
    requires Reachable(s) && i < |s.gateway.processed|
    ensures |s.gateway.written| == |s.gateway.processed|
    ensures var f := s.gateway.written[i];
            f.ackNum == SeqOf(i + 1) && ReadsAsAck(f.payload, s.gateway.processed[i].orderId, true)
  {
    ReachableInv(s);
    assert GI.IsAnswer(s.gateway.written[i], s.gateway.processed[i], i);
    assert s.gateway.processed[i] == s.sent[i];
    AckReads(s.gateway.processed[i].orderId, true);
  }

  lemma SetsAgree(s: System)
    requires GI.Inv(s.gateway, s.sent, s.arrived) && ShadowOk(s.client, s.sent)
    ensures s.gateway.live == Effects(s.gateway.processed)
    ensures s.client.phase.Ready? ==> s.client.shadow.Keys == Effects(s.sent)
    ensures s.client.phase.Waiting? ==> s.sent != [] && s.client.shadow.Keys == Effects(s.sent[..|s.sent| - 1])
    ensures s.gateway.rejects == 0
    ensures s.client.phase.Ready? && |s.gateway.processed| == |s.sent| ==> s.gateway.live == s.client.shadow.Keys
  {
    assert s.sent[..|s.sent|] == s.sent;
  }

  /** Order sets agree: the gateway's live orders are the effects of the processed prefix, the client's
      shadow book holds the effects of the completed requests, and nothing was ever rejected. */
  lemma OrderSetsAgree(s: System)
    requires Reachable(s)
    ensures s.gateway.live == Effects(s.gateway.processed)
    ensures s.client.phase.Ready? ==> s.client.shadow.Keys == Effects(s.sent)
    ensures s.client.phase.Waiting? ==> s.sent != [] && s.client.shadow.Keys == Effects(s.sent[..|s.sent| - 1])
    ensures s.gateway.rejects == 0
    ensures s.client.phase.Ready? && |s.gateway.processed| == |s.sent| ==> s.gateway.live == s.client.shadow.Keys
  {
    ReachableInv(s);
    SetsAgree(s);
  }

  function TrackedBytes(q: seq<Entry>): int {
    if q == [] then 0 else q[0].seqEnd - q[0].seqStart + TrackedBytes(q[1..])
  }

  lemma {:induction false} TrackedBytesOf(q: seq<Entry>)
    requires forall e :: e in q ==> e.seqEnd == e.seqStart + 40
    ensures TrackedBytes(q) == 40 * |q|
  {
    if q != [] {
      TrackedBytesOf(q[1..]);
    }
  }

  /** The client's indexes agree: same keys, a sorted queue on which `ack_up_to` is filtering, an exact
      in-flight figure, and sent = acknowledged + dropped + tracked. */
  lemma ClientIndexesAgree(s: System, ack: nat)
    requires Reachable(s)
    ensures s.client.outstanding.Keys == Starts(s.client.queue)
    ensures Sorted(s.client.queue) && DropAcked(s.client.queue, ack) == Unacked(s.client.queue, ack)
    ensures |s.client.outstanding| * REQUEST_LEN == TrackedBytes(s.client.queue)
    ensures s.client.sentTotal == |s.sent| == s.client.ackedTotal + s.client.dropTotal + |s.client.queue|
  {
    ReachableInv(s);
    var q := s.client.queue;
    AckIsFilter(q, ack);
    StartsCount(q);
    assert |s.client.outstanding.Keys| == |q|;
    forall e | e in q
      ensures e.seqEnd == e.seqStart + 40
    {
      var i: nat :| Tracks(e, i, s.sentAt, s.collected);
    }
    TrackedBytesOf(q);
  }

  /** The timeout handed to the queue is always in [50, 5000]. */
  lemma TimeoutStaysClamped(s: System)
    requires Reachable(s)
    ensures 50 <= s.client.rto.rto <= 5000
  {
    ReachableInv(s);
  }

  /** Backoff: a request is retransmitted at most five times, the k-th time no sooner than 50*(2^k - 1) ms
      after it was sent. */
  lemma BackoffBound(s: System, i: nat, k: nat)
    requires Reachable(s) && i < |s.collected| && 1 <= k <= |s.collected[i]|
    ensures k <= 5
    ensures i < |s.sentAt| && s.collected[i][k - 1] >= s.sentAt[i] + 50 * (Pow2(k) - 1)
  {
    ReachableInv(s);
    assert s.collected[i][k - 1] >= s.sentAt[i] + Wait(k - 1 + 1);
  }

  /** No request is given up sooner than 3150 ms after it was sent. */
  lemma GivenUpLate(s: System, i: nat)
    requires Reachable(s) && i < |s.sentAt| && SeqOf(i) in s.givenUp
    ensures s.givenUp[SeqOf(i)] >= s.sentAt[i] + 3150
  {
    ReachableInv(s);
    AbandonedAfterFive(s, i);
  }

  /** The congestion window stays within its bounds in every run, with no assumption on the acks: what is
      in flight, and so what one ack can cover, never exceeds 2^20 bytes. */
  lemma WindowStaysHealthy(s: System)
    requires Reachable(s)
    ensures Congestion.Healthy(s.client.cc)
    ensures TrackedBytes(s.client.queue) <= Congestion.MAX_CWND
  {
    ReachableInv(s);
    ClientIndexesAgree(s, 0);
    StartsCount(s.client.queue);
    assert |s.client.outstanding.Keys| == |s.client.queue|;
  }

  // ----- keepalives -----

  lemma {:induction false} ClosedForGood(s: System, es: seq<Event>)
    requires !s.gateway.open
    ensures Run(s, es).gateway == s.gateway
  {
    if es != [] {
      ClosedForGood(s, es[..|es| - 1]);
    }
  }

  lemma KeepaliveCloses(s: System, f: Frame, window: nat)
    requires GI.Inv(s.gateway, s.sent, s.arrived) && f in s.toGateway && GI.IsKeepalive(f)
    ensures var t := Step(s, GatewayRead(f, window)); !t.gateway.open && t.gateway.processed == s.gateway.processed
  {
    GI.KeepaliveStep(s.gateway, f, window, s.sent, s.arrived);
  }

  /** A keepalive that the gateway reads ends the connection: its state was never moved out of CLOSED, so
      the context is erased, and no request is processed in any continuation. */
  lemma KeepaliveEndsDelivery(s: System, f: Frame, window: nat, es: seq<Event>)
    requires Reachable(s) && f in s.toGateway && f.payload == []
    ensures var end := Run(Step(s, GatewayRead(f, window)), es);
            !end.gateway.open && end.gateway.processed == s.gateway.processed
  {
    ReachableInv(s);
    KeepaliveCloses(s, f, window);
    ClosedForGood(Step(s, GatewayRead(f, window)), es);
  }

  /** The event makes the gateway take a frame without payload from the network. */
  ghost predicate TakesBareAck(s: System, e: Event) {
    e.GatewayRead? && e.f in s.toGateway && e.f.payload == []
  }

  /** The event makes the gateway take a frame with payload at sequence number `n`. */
  ghost predicate TakesData(s: System, e: Event, n: nat) {
    e.GatewayRead? && e.f in s.toGateway && e.f.payload != [] && e.f.seqNum == n
  }

  /** No event of the run makes the gateway read a frame without payload. */
  ghost predicate Undisturbed(s: System, es: seq<Event>) {
    forall j :: 0 <= j < |es| ==> !TakesBareAck(Run(s, es[..j]), es[j])
  }

  /** A payload at sequence number `n` was read before any frame without payload. */
  ghost predicate ReadInTime(s: System, es: seq<Event>, n: nat) {
    exists j :: 0 <= j < |es| && TakesData(Run(s, es[..j]), es[j], n) && Undisturbed(s, es[..j])
  }

  lemma OpenAfterStep(s: System, e: Event)
    requires Inv(s)
    ensures Step(s, e).gateway.open <==> s.gateway.open && !TakesBareAck(s, e)
  {
    if e.GatewayRead? && e.f in s.toGateway {
      if e.f.payload == [] {
        KeepaliveCloses(s, e.f, e.window);
      } else {
        GI.RequestArrives(s.gateway, e.f, e.window, s.sent, s.arrived);
      }
    }
  }

  lemma ArrivedAfterStep(s: System, e: Event, n: nat)
    ensures n in Step(s, e).arrived <==> n in s.arrived || (s.gateway.open && TakesData(s, e, n))
  {
  }

  lemma RunLonger(s: System, es: seq<Event>, e: Event)
    ensures Run(s, es + [e]) == Step(Run(s, es), e)
  {
    assert (es + [e])[..|es|] == es;
  }

  lemma UndisturbedLonger(s: System, es: seq<Event>, e: Event)
    ensures Undisturbed(s, es + [e]) <==> Undisturbed(s, es) && !TakesBareAck(Run(s, es), e)
  {
    var all := es + [e];
    assert all[..|es|] == es && all[|es|] == e;
    assert forall j :: 0 <= j < |es| ==> all[..j] == es[..j] && all[j] == es[j];
  }

  lemma ReadInTimeLonger(s: System, es: seq<Event>, e: Event, n: nat)
    ensures ReadInTime(s, es + [e], n)
            <==> ReadInTime(s, es, n) || (TakesData(Run(s, es), e, n) && Undisturbed(s, es))
  {
    var all := es + [e];
    assert all[..|es|] == es && all[|es|] == e;
    assert forall j :: 0 <= j < |es| ==> all[..j] == es[..j] && all[j] == es[j];
  }

  lemma OpenLonger(s: System, es: seq<Event>, e: Event)
    requires Inv(Run(s, es)) && (Run(s, es).gateway.open <==> Undisturbed(s, es))
    ensures Run(s, es + [e]).gateway.open <==> Undisturbed(s, es + [e])
  {
    OpenAfterStep(Run(s, es), e);
    RunLonger(s, es, e);
    UndisturbedLonger(s, es, e);
  }

  /** The connection is open after a run exactly when no frame without payload was read in it. */
  lemma {:induction false} OpenIffUndisturbed(s: System, es: seq<Event>)
    requires Inv(s) && s.gateway.open
    ensures Run(s, es).gateway.open <==> Undisturbed(s, es)
  {
    if es != [] {
      var init, e := es[..|es| - 1], es[|es| - 1];
      assert es == init + [e];
      OpenIffUndisturbed(s, init);
      RunKeeps(s, init);
      OpenLonger(s, init, e);
    }
  }

  /** Over whole runs: the gateway still serves the connection exactly when it has read no keepalive. */
  lemma OpenExactly(ip: nat, port: nat, es: seq<Event>)
    ensures Run(Init(ip, port), es).gateway.open <==> Undisturbed(Init(ip, port), es)
  {
    InitInv(ip, port);
    OpenIffUndisturbed(Init(ip, port), es);
  }

  lemma ArrivedLonger(s: System, es: seq<Event>, e: Event, n: nat)
    requires Run(s, es).gateway.open <==> Undisturbed(s, es)
    requires n in Run(s, es).arrived <==> ReadInTime(s, es, n)
    ensures n in Run(s, es + [e]).arrived <==> ReadInTime(s, es + [e], n)
  {
    ArrivedAfterStep(Run(s, es), e, n);
    RunLonger(s, es, e);
    ReadInTimeLonger(s, es, e, n);
  }

  lemma {:induction false} ArrivedIffReadInTime(s: System, es: seq<Event>, n: nat)
    requires Inv(s) && s.gateway.open && s.arrived == {}
    ensures n in Run(s, es).arrived <==> ReadInTime(s, es, n)
  {
    if es != [] {
      var init, e := es[..|es| - 1], es[|es| - 1];
      assert es == init + [e];
      ArrivedIffReadInTime(s, init, n);
      OpenIffUndisturbed(s, init);
      ArrivedLonger(s, init, e, n);
    }
  }

  /** Delivery over whole runs, keepalives included: the first k requests are processed exactly when the
      gateway has read each of them, in any order, before any keepalive. */
  lemma DeliveredExactly(ip: nat, port: nat, es: seq<Event>, k: nat)
    ensures k <= |Run(Init(ip, port), es).gateway.processed|
            <==> forall i: nat :: i < k ==> ReadInTime(Init(ip, port), es, SeqOf(i))
  {
    var s := Init(ip, port);
    InitInv(ip, port);
    DeliveryIsMaximal(Run(s, es), k);
    forall i: nat
      ensures SeqOf(i) in Run(s, es).arrived <==> ReadInTime(s, es, SeqOf(i))
    {
      ArrivedIffReadInTime(s, es, SeqOf(i));
    }
  }

  /** A keepalive and then a request, both written by a fresh client. */
  lemma KeepaliveThenRequest(ip: nat, port: nat, d: C.Draw, now: nat)
    returns (s: System, keepalive: Frame, request: Frame)
    requires d.sendTs < 0x1_0000_0000_0000_0000
    ensures s == Run(Init(ip, port), [ClientKeepalive] + [ClientSend(d, now, true)])
    ensures |s.sent| == 1 && s.gateway.processed == []
    ensures keepalive in s.toGateway && keepalive.payload == []
    ensures request in s.toGateway && request.payload == Encode(s.sent[0]) && request.seqNum == SeqOf(0)
  {
    var s0 := Init(ip, port);
    RunLonger(s0, [], ClientKeepalive);
    assert [] + [ClientKeepalive] == [ClientKeepalive];
    RunLonger(s0, [ClientKeepalive], ClientSend(d, now, true));
    var s1 := Step(s0, ClientKeepalive);
    s := Step(s1, ClientSend(d, now, true));
    keepalive := AckFrame(s0.client.conn, s0.client.conn.sendAck);
    request := DataFrame(s1.client.conn, Encode(s.client.phase.req));
  }

  /** A request lost to a keepalive: it has been sent and its frame lies in the network, but after the
      keepalive has been read, reading that frame, or anything else that happens, does not get it processed. */
  lemma KeepaliveLosesRequest(ip: nat, port: nat, d: C.Draw, now: nat, window: nat, es: seq<Event>)
    returns (s: System, request: Frame)
    requires d.sendTs < 0x1_0000_0000_0000_0000
    ensures Reachable(s) && |s.sent| == 1
    ensures request in s.toGateway && request.seqNum == SeqOf(0) && request.payload == Encode(s.sent[0])
    ensures Step(s, GatewayRead(request, window)).gateway == s.gateway
    ensures Run(s, es).gateway.processed == []
  {
    var before, keepalive, r := KeepaliveThenRequest(ip, port, d, now);
    s, request := Step(before, GatewayRead(keepalive, window)), r;
    var run := [ClientKeepalive] + [ClientSend(d, now, true)];
    assert Reachable(before);
    KeepaliveEndsDelivery(before, keepalive, window, es);
    KeepaliveEndsDelivery(before, keepalive, window, []);
    RunLonger(Init(ip, port), run, GatewayRead(keepalive, window));
  }
}
