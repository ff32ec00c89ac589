/** The order client's send / wait / retransmit / acknowledge loop (apps/order_tcp/order_client.cpp)
    for one connection. */
module OrderClient {
  import opened Words
  import opened OrderMessages
  import opened StateMachine
  import opened Retransmission
  import RtoEstimation
  import Congestion

  const MAX_RETRIES: nat := 5

  /** Between two requests, waiting for the answer to one, or out of the main loop. */
  datatype Phase = Ready | Waiting(req: Request) | Stopped

  datatype Client = Client(nextOrderId: nat, conn: Conn, queue: seq<Entry>, outstanding: map<nat, Frame>,
                           shadow: map<nat, Request>, cc: Congestion.Cc, rto: RtoEstimation.Rto, phase: Phase,
                           sentTotal: nat, ackedTotal: nat, dropTotal: nat)

  function Fresh(conn: Conn): Client {
    Client(1, conn, [], map[], map[], Congestion.Fresh(1200), RtoEstimation.INITIAL, Ready, 0, 0, 0)
  }

  /** The random draw of the main loop: what to try, on which order of the shadow book, and when. */
  datatype Draw = Draw(action: Byte, target: nat, sendTs: nat)

  /** A Cancel or Replace needs an order of the shadow book; otherwise the request is a New. */
  function MakeRequest(orderId: nat, shadow: map<nat, Request>, d: Draw): (r: Request)
    ensures r.action == CANCEL || r.action == REPLACE ==> r.target in shadow
  {
    var next := Add64(orderId, 1);
    var side := if next % 2 == 0 then 1 else 2;
    var price := 100000 + next % 100;
    if d.action == CANCEL && d.target in shadow then
      Request(orderId, d.target, 10001, CANCEL, side, price, 1, d.sendTs)
    else if d.action == REPLACE && d.target in shadow then
      Request(orderId, d.target, 10001, REPLACE, side, price + 1, 1, d.sendTs)
    else
      Request(orderId, 0, 10001, NEW, side, price, 1, d.sendTs)
  }

  predicate MaySend(c: Client) {
    && REQUEST_LEN <= c.conn.peerWindow
    && Congestion.CanSend(c.cc, |c.outstanding| * REQUEST_LEN, REQUEST_LEN, c.conn.peerWindow)
  }

  /** One pass of the main loop up to the wait: the order number is used up even when blocked. A frame that
      could not be written whole is not tracked, and the client stops. */
  function Send(c: Client, d: Draw, now: nat, written: bool): Client
    requires c.phase.Ready?
  {
    var req := MakeRequest(c.nextOrderId, c.shadow, d);
    var c1 := c.(nextOrderId := Add64(c.nextOrderId, 1));
    if !MaySend(c) then c1
    else if !written then c1.(phase := Stopped)
    else
      var start := c.conn.sendSeq;
      c1.(queue := c.queue + [NewEntry(start, REQUEST_LEN, now, c.rto.rto)],
          outstanding := c.outstanding[start := DataFrame(c.conn, Encode(req))],
          conn := c.conn.(sendSeq := Add32(start, REQUEST_LEN)),
          sentTotal := c.sentTotal + 1,
          phase := Waiting(req))
  }

  function KeptOutstanding(out: map<nat, Frame>, q: seq<Entry>): map<nat, Frame> {
    map k | k in out && k in Starts(q) :: out[k]
  }

  /** Nothing to read while waiting: collect what is due and forget what has been given up. */
  function Tick(c: Client, now: nat): Client
    requires c.phase.Waiting?
  {
    var kept := Kept(c.queue, now, c.rto.rto, MAX_RETRIES);
    var out := KeptOutstanding(c.outstanding, kept);
    c.(queue := kept,
       outstanding := out,
       dropTotal := c.dropTotal + Monus(|c.outstanding|, |out|),
       cc := if Due(c.queue, now, MAX_RETRIES) == [] then c.cc else Congestion.OnLoss(c.cc))
  }

  /** The frames written again by that pass. */
  function Resent(c: Client, now: nat): seq<Frame>
    requires c.phase.Waiting?
  {
    FramesOf(Due(c.queue, now, MAX_RETRIES), Tick(c, now).outstanding)
  }

  function FrameOf(e: Entry, out: map<nat, Frame>): seq<Frame> {
    if e.seqStart in out then [out[e.seqStart]] else []
  }

  function FramesOf(due: seq<Entry>, out: map<nat, Frame>): seq<Frame> {
    if due == [] then [] else FrameOf(due[0], out) + FramesOf(due[1..], out)
  }

  lemma {:induction false} FramesOfAppend(due: seq<Entry>, e: Entry, out: map<nat, Frame>)
    ensures FramesOf(due + [e], out) == FramesOf(due, out) + FrameOf(e, out)
  {
    if due == [] {
      assert FramesOf([], out) == [];
    } else {
      assert (due + [e])[1..] == due[1..] + [e];
      FramesOfAppend(due[1..], e, out);
    }
  }

  function UnackedOutstanding(out: map<nat, Frame>, ack: nat): map<nat, Frame> {
    map k | k in out && Add32(k, REQUEST_LEN) > ack :: out[k]
  }

  function UpdateShadow(shadow: map<nat, Request>, req: Request): map<nat, Request> {
    if req.action == NEW then shadow[req.orderId := req]
    else if req.action == CANCEL then shadow - {req.target}
    else if req.target in shadow then shadow[req.target := shadow[req.target].(price := req.price)]
    else shadow
  }

  /** A frame was read while waiting: any acknowledgement completes the request, whatever it covers. */
  function OnFrame(c: Client, f: Frame, window: nat, rttMs: nat): Client
    requires c.phase.Waiting? && Congestion.Words32(c.cc)
  {
    if (HasSyn(f.flags) && HasFin(f.flags)) || !HasAck(f.flags) then c.(phase := Stopped)
    else
      var queue := DropAcked(c.queue, f.ackNum);
      var acked := Monus(|c.queue|, |queue|);
      c.(conn := OnWindowUpdate(c.conn, window).(recvAck := f.ackNum),
         queue := queue,
         cc := Congestion.OnAck(c.cc, acked * REQUEST_LEN),
         outstanding := UnackedOutstanding(c.outstanding, f.ackNum),
         ackedTotal := c.ackedTotal + acked,
         rto := RtoEstimation.Sample(c.rto, Max(1, rttMs)),
         shadow := UpdateShadow(c.shadow, c.phase.req),
         phase := Ready)
  }

  lemma RemoveOne<V>(m: map<nat, V>, k: nat)
    requires k in m
    ensures |m - {k}| == |m| - 1
  {
    assert (m - {k}).Keys == m.Keys - {k};
  }

  class ClientLoop {
    const conn: TcpConnection
    const queue: TcpRetransmissionQueue
    const estimator: RtoEstimation.TcpRtoEstimator
    const controller: Congestion.TcpCongestionController
    var nextOrderId: nat
    var outstanding: map<nat, Frame>
    var shadow: map<nat, Request>
    var phase: Phase
    var sentTotal: nat
    var ackedTotal: nat
    var dropTotal: nat

    ghost function Value(): Client
      reads this, conn, queue, estimator, controller
    {
      Client(nextOrderId, conn.Value(), queue.entries, outstanding, shadow, controller.Value(), estimator.Value(),
             phase, sentTotal, ackedTotal, dropTotal)
    }

    constructor (ip: nat, localPort: nat, remotePort: nat)
      ensures Value() == Fresh(FreshConn(ip, localPort, remotePort))
      ensures fresh(conn) && fresh(queue) && fresh(estimator) && fresh(controller)
    {
      conn := new TcpConnection(ip, localPort, remotePort);
      queue := new TcpRetransmissionQueue();
      estimator := new RtoEstimation.TcpRtoEstimator();
      controller := new Congestion.TcpCongestionController(1200);
      nextOrderId, outstanding, shadow, phase := 1, map[], map[], Ready;
      sentTotal, ackedTotal, dropTotal := 0, 0, 0;
    }

    method MayTransmit() returns (ok: bool)
      ensures ok <==> MaySend(Value())
    {
      var inflight := |outstanding| * REQUEST_LEN;
      if REQUEST_LEN > conn.peerWindow {
        return false;
      }
      ok := controller.CanSendNow(inflight, REQUEST_LEN, conn.peerWindow);
    }

    method Transmit(req: Request, now: nat) returns (frame: Frame)
      modifies this`sentTotal, this`outstanding, this`phase, conn`sendSeq, queue
      ensures frame == DataFrame(old(conn.Value()), Encode(req))
      ensures conn.sendSeq == Add32(old(conn.sendSeq), REQUEST_LEN)
      ensures queue.entries == old(queue.entries) + [NewEntry(old(conn.sendSeq), REQUEST_LEN, now, estimator.rto)]
      ensures outstanding == old(outstanding)[old(conn.sendSeq) := frame]
      ensures sentTotal == old(sentTotal) + 1 && phase == Waiting(req)
    {
      var segSeq := conn.sendSeq;
      frame := DataFrame(conn.Value(), Encode(req));
      sentTotal := sentTotal + 1;
      queue.TrackSegment(segSeq, REQUEST_LEN, now, estimator.rto);
      outstanding := outstanding[segSeq := frame];
      conn.sendSeq := Add32(conn.sendSeq, REQUEST_LEN);
      phase := Waiting(req);
    }

    method SendRequest(d: Draw, now: nat, written: bool) returns (out: seq<Frame>)
      requires phase.Ready?
      modifies this, conn`sendSeq, queue
      ensures Value() == Send(old(Value()), d, now, written)
      ensures out == if old(MaySend(Value())) && written then [DataFrame(old(conn.Value()), Encode(MakeRequest(old(nextOrderId), old(shadow), d)))] else []
    {
      out := [];
      var req := MakeRequest(nextOrderId, shadow, d);
      var ok := MayTransmit();
      nextOrderId := Add64(nextOrderId, 1);
      if ok && !written {
        phase := Stopped;
      } else if ok {
        var frame := Transmit(req, now);
        out := [frame];
      }
    }

    /** Drops the frames of the entries the queue no longer tracks. */
    method ForgetUntracked()
      modifies this`outstanding, this`dropTotal
      ensures outstanding == KeptOutstanding(old(outstanding), queue.entries)
      ensures dropTotal == old(dropTotal) + Monus(|old(outstanding)|, |outstanding|)
    {
      var keys := outstanding.Keys;
      while keys != {}
        invariant keys <= old(outstanding).Keys
        invariant outstanding == map k | k in old(outstanding) && (k in keys || k in Starts(queue.entries)) :: old(outstanding)[k]
        invariant dropTotal + |outstanding| == old(dropTotal) + |old(outstanding)|
        invariant |outstanding| <= |old(outstanding)|
        decreases |keys|
      {
        var k :| k in keys;
        keys := keys - {k};
        var tracked := queue.Contains(k);
        if !tracked {
          dropTotal := dropTotal + 1;
          RemoveOne(outstanding, k);
          outstanding := outstanding - {k};
        }
      }
      assert outstanding == KeptOutstanding(old(outstanding), queue.entries);
    }

    method Resend(due: seq<Entry>) returns (out: seq<Frame>)
      ensures out == FramesOf(due, outstanding)
    {
      out := [];
      for i := 0 to |due|
        invariant out == FramesOf(due[..i], outstanding)
      {
        assert due[..i + 1] == due[..i] + [due[i]];
        FramesOfAppend(due[..i], due[i], outstanding);
        out := out + FrameOf(due[i], outstanding);
      }
      assert due[..|due|] == due;
    }

    method WaitTick(now: nat) returns (out: seq<Frame>)
      requires phase.Waiting?
      modifies this`outstanding, this`dropTotal, queue, controller
      ensures Value() == Tick(old(Value()), now)
      ensures out == Resent(old(Value()), now)
    {
      out := [];
      var due := queue.CollectDue(now, estimator.rto, MAX_RETRIES);
      ForgetUntracked();
      if due == [] {
        return;
      }
      controller.OnLost();
      out := Resend(due);
    }

    /** Drops the frames that end at or below the acknowledged number. */
    method ForgetAcked(ack: nat)
      modifies this`outstanding
      ensures outstanding == UnackedOutstanding(old(outstanding), ack)
    {
      var keys := outstanding.Keys;
      while keys != {}
        invariant keys <= old(outstanding).Keys
        invariant outstanding == map k | k in old(outstanding) && (k in keys || Add32(k, REQUEST_LEN) > ack) :: old(outstanding)[k]
        decreases |keys|
      {
        var k :| k in keys;
        keys := keys - {k};
        if Add32(k, REQUEST_LEN) <= ack {
          outstanding := outstanding - {k};
        }
      }
    }

    method ApplyAck(ack: nat, window: nat, rttMs: nat)
      requires Congestion.Words32(controller.Value())
      modifies this`outstanding, this`ackedTotal, conn, queue, estimator, controller
      ensures queue.entries == DropAcked(old(queue.entries), ack)
      ensures ackedTotal == old(ackedTotal) + Monus(|old(queue.entries)|, |queue.entries|)
      ensures controller.Value() == Congestion.OnAck(old(controller.Value()), Monus(|old(queue.entries)|, |queue.entries|) * REQUEST_LEN)
      ensures outstanding == UnackedOutstanding(old(outstanding), ack)
      ensures estimator.Value() == RtoEstimation.Sample(old(estimator.Value()), Max(1, rttMs))
      ensures conn.Value() == OnWindowUpdate(old(conn.Value()), window).(recvAck := ack)
    {
      conn.peerWindow := window;
      conn.windowSize := window;
      conn.recvAck := ack;
      var acked := queue.AckUpTo(ack);
      controller.OnAcked(acked * REQUEST_LEN);
      ForgetAcked(ack);
      estimator.SampleRtt(Max(1, rttMs));
      ackedTotal := ackedTotal + acked;
    }

    method Complete(req: Request)
      modifies this`shadow, this`phase
      ensures shadow == UpdateShadow(old(shadow), req) && phase == Ready
    {
      if req.action == NEW {
        shadow := shadow[req.orderId := req];
      } else if req.action == CANCEL {
        shadow := shadow - {req.target};
      } else if req.target in shadow {
        shadow := shadow[req.target := shadow[req.target].(price := req.price)];
      }
      phase := Ready;
    }

    method ReadFrame(f: Frame, window: nat, rttMs: nat)
      requires phase.Waiting? && Congestion.Words32(controller.Value())
      modifies this, conn, queue, estimator, controller
      ensures Value() == OnFrame(old(Value()), f, window, rttMs)
    {
      if (HasSyn(f.flags) && HasFin(f.flags)) || !HasAck(f.flags) {
        phase := Stopped;
        return;
      }
      ApplyAck(f.ackNum, window, rttMs);
      Complete(phase.req);
    }
  }
}
