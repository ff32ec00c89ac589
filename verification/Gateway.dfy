/** The order gateway's handling of one connection (apps/order_tcp/order_gateway.cpp). */
module OrderGateway {
  import opened Words
  import opened OrderMessages
  import opened Reassembly
  import opened StateMachine

  /** The connection context (`open` is false once it has been erased), the live orders, the requests
      processed so far, and the frames written back. */
  datatype Gateway = Gateway(open: bool, conn: Conn, segments: Segments, live: set<nat>,
                             processed: seq<Request>, written: seq<Frame>, rejects: nat)

  function Fresh(conn: Conn): Gateway {
    Gateway(true, conn, map[], {}, [], [], 0)
  }

  /** A decoded request whose payload was `len` bytes long. */
  function Handle(g: Gateway, req: Request, len: nat): Gateway {
    var conn := g.conn.(recvSeq := Add32(g.conn.recvSeq, len));
    var accepted := Accepts(g.live, req);
    g.(conn := conn,
       live := Effect(g.live, req),
       processed := g.processed + [req],
       rejects := if accepted then g.rejects else g.rejects + 1,
       written := g.written + [DataFrame(conn, EncodeAck(req.orderId, accepted))])
  }

  /** `process_order_payload`. */
  function Process(g: Gateway, payload: seq<Byte>): Gateway {
    if |payload| < REQUEST_LEN then g else Handle(g, Decode(payload), |payload|)
  }

  function ProcessAll(g: Gateway, run: seq<Segment>): Gateway
    decreases |run|
  {
    if run == [] then g else ProcessAll(Process(g, run[0].data), run[1..])
  }

  /** `pop_contiguous` at the current sequence number, then every popped segment is processed. */
  function Replay(g: Gateway): Gateway {
    ProcessAll(g.(segments := RestFrom(g.segments, g.conn.recvSeq)), RunFrom(g.segments, g.conn.recvSeq))
  }

  /** The control path: frames without payload that carry FIN or ACK. */
  function Control(g: Gateway, f: Frame, window: nat): Gateway {
    var c := HandleIncoming(g.conn, f, window);
    var (c', out) :=
      if !HasFin(f.flags) then (c, [])
      else if c.state == CLOSE_WAIT then
        var d := InitiateClose(c);
        (d.(sendSeq := Add32(d.sendSeq, 1)), [AckFrame(c, c.sendAck), Frame(d.sendSeq, d.recvSeq, FIN_ACK, [])])
      else (c, [AckFrame(c, c.sendAck)]);
    g.(conn := c', written := g.written + out, open := c'.state != CLOSED)
  }

  /** The data path: park a payload that is not the next one, or process it and replay. */
  function Data(g: Gateway, f: Frame): Gateway {
    if f.payload != [] && f.seqNum != g.conn.recvSeq then
      if f.seqNum in g.segments then g else g.(segments := g.segments[f.seqNum := f.payload])
    else Replay(Process(g, f.payload))
  }

  /** One frame taken from the request ring. */
  function Receive(g: Gateway, f: Frame, window: nat): Gateway {
    if !g.open || (HasSyn(f.flags) && HasFin(f.flags)) then g
    else if f.payload == [] && (HasFin(f.flags) || HasAck(f.flags)) then Control(g, f, window)
    else Data(g, f)
  }

  /** The answer to a payload, in any state of the gateway: the frame acknowledges the whole payload, and its
      bytes name the order and say rejected exactly for a Cancel or Replace of an order that is not live. */
  lemma AnswerSays(g: Gateway, payload: seq<Byte>)
    requires |payload| >= REQUEST_LEN
    ensures var h := Process(g, payload); var n := |g.written|;
            && |h.written| == n + 1 && h.written[..n] == g.written
            && h.conn.recvSeq == (g.conn.recvSeq + |payload|) % 0x1_0000_0000
            && h.written[n].seqNum == g.conn.sendSeq && h.written[n].ackNum == h.conn.recvSeq
            && h.written[n].flags == PSH_ACK
            && ReadsAsAck(h.written[n].payload, LeAt(payload, 0, WIDTH64),
                          !((payload[20] == CANCEL || payload[20] == REPLACE) && LeAt(payload, 8, WIDTH64) !in g.live))
  {
    DecodedFits(payload);
    AckReads(LeAt(payload, 0, WIDTH64), Accepts(g.live, Decode(payload)));
  }

  /** What one payload does to the gateway's books: an order is live afterwards exactly if this is its New, or
      it was live and this is not its Cancel; each rejected answer is counted once. */
  lemma BooksAfter(g: Gateway, payload: seq<Byte>, o: nat)
    requires |payload| >= REQUEST_LEN
    ensures var h := Process(g, payload);
            && (o in h.live <==> || (payload[20] == NEW && LeAt(payload, 0, WIDTH64) == o)
                                 || (o in g.live && !(payload[20] == CANCEL && LeAt(payload, 8, WIDTH64) == o)))
            && |h.written| == |g.written| + 1 && |h.written[|g.written|].payload| == 24
            && h.rejects == g.rejects + 1 - h.written[|g.written|].payload[16]
            && h.processed == g.processed + [Decode(payload)]
  {
    AnswerSays(g, payload);
  }

  /** A passive close: a FIN on an established connection is acknowledged and answered with a FIN of its own, which
      uses up one number, and the acknowledgement of that one erases the connection. */
  lemma PassiveClose(g: Gateway, f: Frame, last: Frame, w1: nat, w2: nat)
    requires g.open && g.conn.state == ESTABLISHED && f.payload == [] && f.flags == FIN_ACK
    requires last.payload == [] && last.flags == ACK && last.ackNum > f.ackNum
    ensures var h := Receive(g, f, w1); var next := Add32(f.seqNum, 1);
            && h.open && h.conn.state == LAST_ACK && h.conn.recvSeq == next
            && h.conn.sendSeq == Add32(g.conn.sendSeq, 1)
            && h.written == g.written + [Frame(g.conn.sendSeq, next, ACK, []), Frame(g.conn.sendSeq, next, FIN_ACK, [])]
            && !Receive(h, last, w2).open && Receive(h, last, w2).written == h.written
            && h.processed == g.processed && h.segments == g.segments && h.live == g.live
  {
  }

  /** A FIN on a connection that never left CLOSED is acknowledged, and the connection erased. */
  lemma FinOnClosed(g: Gateway, f: Frame, window: nat)
    requires g.open && g.conn.state == CLOSED && f.payload == [] && f.flags == FIN_ACK
    ensures var h := Receive(g, f, window); var next := Add32(f.seqNum, 1);
            !h.open && h.written == g.written + [Frame(g.conn.sendSeq, next, ACK, [])] && h.processed == g.processed
  {
  }

  /** A payload that is not the next one, of any length, is parked under its sequence number with its own bytes,
      unless one is parked there already; nothing else changes. */
  lemma OutOfOrderParks(g: Gateway, f: Frame, window: nat)
    requires g.open && f.payload != [] && f.seqNum != g.conn.recvSeq && !(HasSyn(f.flags) && HasFin(f.flags))
    ensures var h := Receive(g, f, window);
            && h == g.(segments := h.segments)
            && h.segments.Keys == g.segments.Keys + {f.seqNum}
            && (forall k :: k in g.segments ==> h.segments[k] == g.segments[k])
            && (f.seqNum !in g.segments ==> h.segments[f.seqNum] == f.payload)
  {
  }

  /** Short payloads, malformed frames and frames for an erased connection change nothing. */
  lemma IgnoredFrames(g: Gateway, f: Frame, window: nat)
    ensures |f.payload| < REQUEST_LEN ==> Process(g, f.payload) == g
    ensures !g.open || (HasSyn(f.flags) && HasFin(f.flags)) ==> Receive(g, f, window) == g
  {
  }

  class GatewayConnection {
    const tcp: TcpConnection
    const reassembly: TcpReassemblyBuffer
    var open: bool
    var live: set<nat>
    var rejects: nat
    var received: nat
    ghost var processed: seq<Request>
    ghost var written: seq<Frame>

    ghost predicate Valid()
      reads this, reassembly
    {
      reassembly.Valid() && received == |processed|
    }

    ghost function Value(): Gateway
      reads this, tcp, reassembly
    {
      Gateway(open, tcp.Value(), reassembly.segments, live, processed, written, rejects)
    }

    constructor (ip: nat, localPort: nat, remotePort: nat)
      ensures Valid() && Value() == Fresh(FreshConn(ip, localPort, remotePort))
      ensures fresh(tcp) && fresh(reassembly)
    {
      tcp := new TcpConnection(ip, localPort, remotePort);
      reassembly := new TcpReassemblyBuffer();
      open, live, rejects, received := true, {}, 0, 0;
      processed, written := [], [];
    }

    method ProcessOrderPayload(payload: seq<Byte>) returns (ack: seq<Frame>)
      requires Valid()
      modifies this, tcp
      ensures Valid() && Value() == Process(old(Value()), payload)
      ensures written == old(written) + ack
    {
      ack := [];
      if |payload| < REQUEST_LEN {
        return;
      }
      var req := Decode(payload);
      received := received + 1;
      tcp.recvSeq := Add32(tcp.recvSeq, |payload|);
      var accepted := true;
      if req.action == NEW {
        live := live + {req.orderId};
      } else if req.action == CANCEL {
        accepted := req.target in live;
        live := live - {req.target};
      } else if req.action == REPLACE {
        accepted := req.target in live;
      }
      if !accepted {
        rejects := rejects + 1;
      }
      ack := [DataFrame(tcp.Value(), EncodeAck(req.orderId, accepted))];
      processed := processed + [req];
      written := written + ack;
    }

    method HandleControl(f: Frame, window: nat) returns (out: seq<Frame>)
      requires Valid() && open
      modifies this, tcp
      ensures Valid() && Value() == Control(old(Value()), f, window)
      ensures written == old(written) + out
    {
      var ok := tcp.Incoming(f, window);
      out := [];
      if HasFin(f.flags) {
        out := [AckFrame(tcp.Value(), tcp.sendAck)];
        if tcp.state == CLOSE_WAIT {
          var moved := tcp.Close();
          if moved {
            out := out + [Frame(tcp.sendSeq, tcp.recvSeq, FIN_ACK, [])];
            tcp.sendSeq := Add32(tcp.sendSeq, 1);
          }
        }
      }
      written := written + out;
      if tcp.state == CLOSED {
        open := false;
      }
    }

    /** Processes the replayed segments in order. */
    method ProcessRun(run: seq<Segment>) returns (out: seq<Frame>)
      requires Valid()
      modifies this, tcp
      ensures Valid() && Value() == ProcessAll(old(Value()), run)
      ensures written == old(written) + out
    {
      out := [];
      for i := 0 to |run|
        invariant Valid()
        invariant written == old(written) + out
        invariant ProcessAll(Value(), run[i..]) == ProcessAll(old(Value()), run)
      {
        assert run[i..][1..] == run[i + 1..];
        var ack := ProcessOrderPayload(run[i].data);
        out := out + ack;
      }
      assert run[|run|..] == [];
    }

    method HandleData(f: Frame) returns (out: seq<Frame>)
      requires Valid()
      modifies this, tcp, reassembly
      ensures Valid() && Value() == Data(old(Value()), f)
      ensures written == old(written) + out
    {
      out := [];
      if f.payload != [] && f.seqNum != tcp.recvSeq {
        var inserted := reassembly.Insert(f.seqNum, f.payload);
        return;
      }
      out := ProcessOrderPayload(f.payload);
      ghost var after := Value();
      var run, consumed := reassembly.PopContiguous(tcp.recvSeq);
      assert Value() == after.(segments := RestFrom(after.segments, after.conn.recvSeq));
      var acks := ProcessRun(run);
      out := out + acks;
    }

    /** The body of the loop that drains the request ring, for a frame that parsed. */
    method HandleFrame(f: Frame, window: nat) returns (out: seq<Frame>)
      requires Valid()
      modifies this, tcp, reassembly
      ensures Valid() && Value() == Receive(old(Value()), f, window)
      ensures written == old(written) + out
    {
      out := [];
      if !open || (HasSyn(f.flags) && HasFin(f.flags)) {
        return;
      }
      if f.payload == [] && (HasFin(f.flags) || HasAck(f.flags)) {
        out := HandleControl(f, window);
      } else {
        out := HandleData(f);
      }
    }
  }
}
