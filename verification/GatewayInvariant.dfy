/** What the gateway keeps while frames of the requests `sent` arrive in any order, any number of times. */
module GatewayInvariant {
  import opened Words
  import opened OrderMessages
  import opened StateMachine
  import opened Reassembly
  import opened OrderGateway
  import opened OrderProtocol

  /** Every request fits its struct, is acceptable after the ones before it, and all of them fit below
      2^32 sequence numbers. */
  ghost predicate SentOk(sent: seq<Request>) {
    && SeqOf(|sent|) < 0x1_0000_0000
    && (forall i :: 0 <= i < |sent| ==> sent[i].Fits())
    && (forall i :: 0 <= i < |sent| ==> Accepts(Effects(sent[..i]), sent[i]))
  }

  /** `seqNum` and `payload` are those of a request that was sent. */
  ghost predicate IsRequest(seqNum: nat, payload: seq<Byte>, sent: seq<Request>) {
    exists i :: 0 <= i < |sent| && seqNum == SeqOf(i) && payload == Encode(sent[i])
  }

  ghost predicate IsRequestFrame(f: Frame, sent: seq<Request>) {
    f.flags == PSH_ACK && IsRequest(f.seqNum, f.payload, sent)
  }

  ghost predicate IsKeepalive(f: Frame) {
    f.flags == ACK && f.payload == []
  }

  /** The answer to the i-th request: accepted, and acknowledging everything up to and including it. */
  ghost predicate IsAnswer(f: Frame, r: Request, i: nat) {
    f.flags == PSH_ACK && f.ackNum == SeqOf(i + 1) && f.payload == EncodeAck(r.orderId, true)
  }

  /** Every processed request has been answered once, in order. */
  ghost predicate Answered(written: seq<Frame>, processed: seq<Request>) {
    |written| == |processed| && forall i :: 0 <= i < |written| ==> IsAnswer(written[i], processed[i], i)
  }

  ghost predicate Delivered(g: Gateway, sent: seq<Request>) {
    && |g.processed| <= |sent|
    && g.processed == sent[..|g.processed|]
    && g.conn.recvSeq == SeqOf(|g.processed|)
    && g.conn.state == CLOSED
    && g.live == Effects(g.processed)
    && g.rejects == 0
    && Answered(g.written, g.processed)
  }

  ghost predicate Parked(segs: Segments, sent: seq<Request>) {
    forall k :: k in segs ==> IsRequest(k, segs[k], sent)
  }

  /** Each arrived request has been processed or waits in the buffer, and nothing else has or does. */
  ghost predicate Accounted(recvSeq: nat, segs: Segments, arrived: set<nat>) {
    && (forall k :: k in arrived ==> k < recvSeq || k in segs)
    && (forall k :: k in segs ==> k in arrived)
    && (forall i: nat :: SeqOf(i) < recvSeq ==> SeqOf(i) in arrived)
  }

  /** The invariant between two requests of a replay, with `segs` still to look at. */
  ghost predicate Replaying(g: Gateway, segs: Segments, sent: seq<Request>, arrived: set<nat>) {
    Delivered(g, sent) && Parked(segs, sent) && Accounted(g.conn.recvSeq, segs, arrived)
  }

  ghost predicate Inv(g: Gateway, sent: seq<Request>, arrived: set<nat>) {
    && Delivered(g, sent)
    && Parked(g.segments, sent)
    && g.conn.recvSeq !in g.segments
    && Accounted(g.conn.recvSeq, g.segments, arrived)
  }

  lemma NextSeq(i: nat)
    requires SeqOf(i + 1) < 0x1_0000_0000
    ensures Add32(SeqOf(i), 40) == SeqOf(i + 1)
  {
  }

  lemma HandleNext(g: Gateway, sent: seq<Request>)
    requires SentOk(sent) && Delivered(g, sent) && |g.processed| < |sent|
    ensures var h := Handle(g, sent[|g.processed|], 40);
            && Delivered(h, sent)
            && |h.processed| == |g.processed| + 1
            && h.conn.recvSeq == Add32(g.conn.recvSeq, 40) == g.conn.recvSeq + 40
            && h.open == g.open && h.segments == g.segments
  {
    var n := |g.processed|;
    var r := sent[n];
    EffectsAppend(g.processed, r);
    assert sent[..n + 1] == sent[..n] + [r];
    assert Accepts(Effects(sent[..n]), r);
    NextSeq(n);
  }

  lemma ProcessNext(g: Gateway, sent: seq<Request>)
    requires SentOk(sent) && Delivered(g, sent) && |g.processed| < |sent|
    ensures var h := Process(g, Encode(sent[|g.processed|]));
            && Delivered(h, sent)
            && |h.processed| == |g.processed| + 1
            && h.conn.recvSeq == Add32(g.conn.recvSeq, 40) == g.conn.recvSeq + 40
            && h.open == g.open && h.segments == g.segments
  {
    var r := sent[|g.processed|];
    assert Process(g, Encode(r)) == Handle(g, r, 40) by {
      RequestRoundTrip(r);
    }
    HandleNext(g, sent);
  }

  lemma ProcessIgnoresSegments(g: Gateway, segs: Segments, payload: seq<Byte>)
    ensures Process(g.(segments := segs), payload) == Process(g, payload).(segments := segs)
  {
  }

  lemma NextIsParked(g: Gateway, segs: Segments, sent: seq<Request>)
    requires Delivered(g, sent) && Parked(segs, sent) && g.conn.recvSeq in segs
    ensures |g.processed| < |sent| && segs[g.conn.recvSeq] == Encode(sent[|g.processed|])
  {
    assert IsRequest(g.conn.recvSeq, segs[g.conn.recvSeq], sent);
  }

  lemma AccountedNext(n: nat, segs: Segments, arrived: set<nat>)
    requires Accounted(SeqOf(n), segs, arrived) && SeqOf(n) in segs
    ensures Accounted(SeqOf(n + 1), segs - {SeqOf(n)}, arrived)
  {
  }

  lemma ReplayOne(g: Gateway, segs: Segments, sent: seq<Request>, arrived: set<nat>)
    requires SentOk(sent) && Replaying(g, segs, sent, arrived) && g.conn.recvSeq in segs
    ensures var k := g.conn.recvSeq; var h := Process(g, segs[k]);
            && Replaying(h, segs - {k}, sent, arrived)
            && h.conn.recvSeq == Add32(k, |segs[k]|)
            && h.open == g.open
  {
    NextIsParked(g, segs, sent);
    ProcessNext(g, sent);
    assert Parked(segs - {g.conn.recvSeq}, sent);
    AccountedNext(|g.processed|, segs, arrived);
  }

  lemma {:induction false} ReplayKeeps(g: Gateway, segs: Segments, sent: seq<Request>, arrived: set<nat>)
    requires SentOk(sent) && Replaying(g, segs, sent, arrived)
    ensures var h := ProcessAll(g, RunFrom(segs, g.conn.recvSeq)); var rest := RestFrom(segs, g.conn.recvSeq);
            Replaying(h, rest, sent, arrived) && h.conn.recvSeq !in rest && h.open == g.open
    decreases |segs|
  {
    var k := g.conn.recvSeq;
    if k in segs {
      ReplayOne(g, segs, sent, arrived);
      RunUnfolds(segs, k);
      ReplayKeeps(Process(g, segs[k]), segs - {k}, sent, arrived);
    }
  }

  lemma RequestParked(g: Gateway, f: Frame, sent: seq<Request>, arrived: set<nat>)
    requires Inv(g, sent, arrived) && g.open && IsRequestFrame(f, sent)
    requires f.payload != [] && f.seqNum != g.conn.recvSeq
    ensures var h := Data(g, f);
            Inv(h, sent, arrived + {f.seqNum}) && h.open && h.processed == g.processed
  {
  }

  lemma AccountedArrival(n: nat, segs: Segments, arrived: set<nat>)
    requires Accounted(SeqOf(n), segs, arrived)
    ensures Accounted(SeqOf(n + 1), segs, arrived + {SeqOf(n)})
  {
  }

  lemma ProcessedInOrder(g: Gateway, f: Frame, sent: seq<Request>, arrived: set<nat>)
    requires SentOk(sent) && Inv(g, sent, arrived) && IsRequestFrame(f, sent) && f.seqNum == g.conn.recvSeq
    ensures var h := Process(g, f.payload);
            Replaying(h, h.segments, sent, arrived + {f.seqNum}) && h.open == g.open && |h.processed| == |g.processed| + 1
  {
    assert f.payload == Encode(sent[|g.processed|]);
    ProcessNext(g, sent);
    AccountedArrival(|g.processed|, g.segments, arrived);
  }

  lemma RequestInOrder(g: Gateway, f: Frame, sent: seq<Request>, arrived: set<nat>)
    requires SentOk(sent) && Inv(g, sent, arrived) && g.open && IsRequestFrame(f, sent) && f.seqNum == g.conn.recvSeq
    ensures var h := Data(g, f);
            Inv(h, sent, arrived + {f.seqNum}) && h.open && |g.processed| < |h.processed|
  {
    ProcessedInOrder(g, f, sent, arrived);
    var h := Process(g, f.payload);
    ReplayKeeps(h, h.segments, sent, arrived + {f.seqNum});
    ReplayFrame(h);
    ProcessAllGrows(h, RunFrom(h.segments, h.conn.recvSeq));
  }

  /** A frame of a sent request keeps the invariant, and from then on counts as arrived. */
  lemma RequestArrives(g: Gateway, f: Frame, window: nat, sent: seq<Request>, arrived: set<nat>)
    requires SentOk(sent) && Inv(g, sent, arrived) && IsRequestFrame(f, sent)
    ensures var h := Receive(g, f, window);
            && Inv(h, sent, if g.open then arrived + {f.seqNum} else arrived)
            && |g.processed| <= |h.processed|
            && h.open == g.open
            && f.payload != []
  {
    if g.open {
      assert Receive(g, f, window) == Data(g, f);
      if f.seqNum == g.conn.recvSeq {
        RequestInOrder(g, f, sent, arrived);
      } else {
        RequestParked(g, f, sent, arrived);
      }
    }
  }

  lemma {:induction false} ProcessAllIgnoresSegments(g: Gateway, segs: Segments, run: seq<Segment>)
    ensures ProcessAll(g.(segments := segs), run) == ProcessAll(g, run).(segments := segs)
    decreases |run|
  {
    if run != [] {
      ProcessIgnoresSegments(g, segs, run[0].data);
      ProcessAllIgnoresSegments(Process(g, run[0].data), segs, run[1..]);
    }
  }

  lemma ReplayFrame(g: Gateway)
    ensures Replay(g) == ProcessAll(g, RunFrom(g.segments, g.conn.recvSeq)).(segments := RestFrom(g.segments, g.conn.recvSeq))
  {
    ProcessAllIgnoresSegments(g, RestFrom(g.segments, g.conn.recvSeq), RunFrom(g.segments, g.conn.recvSeq));
  }

  lemma {:induction false} ProcessAllGrows(g: Gateway, run: seq<Segment>)
    ensures |g.processed| <= |ProcessAll(g, run).processed|
    decreases |run|
  {
    if run != [] {
      ProcessAllGrows(Process(g, run[0].data), run[1..]);
    }
  }

  /** A keepalive changes nothing that matters for delivery, but the connection's state is still CLOSED,
      so the gateway erases the connection. */
  lemma KeepaliveStep(g: Gateway, f: Frame, window: nat, sent: seq<Request>, arrived: set<nat>)
    requires Inv(g, sent, arrived) && IsKeepalive(f)
    ensures Inv(Receive(g, f, window), sent, arrived)
    ensures !Receive(g, f, window).open
    ensures Receive(g, f, window).processed == g.processed
  {
    BareAck(g.conn, f, window);
  }

  /** Delivery is maximal: the requests 0..k-1 are processed exactly when they have all arrived, in any order. */
  lemma MaximalDelivery(g: Gateway, sent: seq<Request>, arrived: set<nat>, k: nat)
    requires Inv(g, sent, arrived)
    ensures k <= |g.processed| <==> forall i: nat :: i < k ==> SeqOf(i) in arrived
  {
    assert SeqOf(|g.processed|) !in arrived;
    forall i: nat | i < |g.processed|
      ensures SeqOf(i) in arrived
    {
      assert SeqOf(i) < g.conn.recvSeq;
    }
  }

  lemma MoreSent(g: Gateway, sent: seq<Request>, r: Request, arrived: set<nat>)
    requires Inv(g, sent, arrived)
    ensures Inv(g, sent + [r], arrived)
  {
    assert (sent + [r])[..|g.processed|] == sent[..|g.processed|];
    forall k | k in g.segments
      ensures IsRequest(k, g.segments[k], sent + [r])
    {
      assert IsRequest(k, g.segments[k], sent);
    }
  }
}
