/** The order client and the order gateway, joined by a network that may lose, duplicate, reorder and
    delay frames: a step system and what every one of its runs keeps. */
module OrderProtocol {
  import opened Words
  import opened OrderMessages
  import opened StateMachine
  import opened Retransmission
  import Congestion
  import C = OrderClient
  import G = OrderGateway

  /** Both ends, every frame ever put on either direction of the network (a frame in transit may be
      delivered any number of times, in any order, or never), and the history:
      `sent[i]` is the i-th request sent, at `sentAt[i]`; `collected[i]` are the times at which it was
      collected as due; `givenUp` maps the sequence number of a request to the time it was dropped from
      the queue; `arrived` are the sequence numbers the gateway has received at least once while the
      connection was open; `wrote` are the frames the client has put on the network, repeats included. */
  datatype System = System(client: C.Client, gateway: G.Gateway, toGateway: set<Frame>, toClient: set<Frame>,
                           sent: seq<Request>, sentAt: seq<nat>, collected: seq<seq<nat>>,
                           givenUp: map<nat, nat>, arrived: set<nat>, wrote: seq<Frame>)

  datatype Event =
    | ClientSend(d: C.Draw, now: nat, written: bool)
    | ClientKeepalive
    | ClientTick(now: nat)
    | ClientRead(f: Frame, window: nat, rttMs: nat)
    | ClientStop
    | GatewayRead(f: Frame, window: nat)

  function Init(ip: nat, port: nat): System {
    System(C.Fresh(FreshConn(ip, port, 9000)), G.Fresh(FreshConn(ip, 9000, port)), {}, {}, [], [], [], map[], {}, [])
  }

  /** Sequence number of the i-th request. */
  function SeqOf(i: nat): nat {
    1 + 40 * i
  }

  /** The history after the entries of `q` that are due at `now` have been collected. */
  function Collect(collected: seq<seq<nat>>, q: seq<Entry>, now: nat): seq<seq<nat>> {
    seq(|collected|, i requires 0 <= i < |collected| =>
      if SeqOf(i) in Starts(Due(q, now, C.MAX_RETRIES)) then collected[i] + [now] else collected[i])
  }

  function GiveUp(givenUp: map<nat, nat>, before: seq<Entry>, after: seq<Entry>, now: nat): map<nat, nat> {
    givenUp + map k | k in Starts(before) - Starts(after) :: now
  }

  /** The sequence-number space is large enough for one more request. */
  predicate RoomForOne(s: System) {
    s.client.conn.sendSeq + REQUEST_LEN < 0x1_0000_0000
  }

  /** An event that the current state does not allow changes nothing. */
  function Step(s: System, e: Event): System {
    match e
    case ClientSend(d, now, written) =>
      if s.client.phase.Ready? && RoomForOne(s) && d.sendTs < 0x1_0000_0000_0000_0000 then DoSend(s, d, now, written) else s
    case ClientKeepalive =>
      if s.client.phase.Ready? then
        var f := AckFrame(s.client.conn, s.client.conn.sendAck);
        s.(toGateway := s.toGateway + {f}, wrote := s.wrote + [f])
      else s
    case ClientTick(now) =>
      if s.client.phase.Waiting? then DoTick(s, now) else s
    case ClientRead(f, window, rttMs) =>
      if s.client.phase.Waiting? && f in s.toClient && Congestion.Words32(s.client.cc) then
        s.(client := C.OnFrame(s.client, f, window, rttMs))
      else s
    case ClientStop => s.(client := s.client.(phase := C.Stopped))
    case GatewayRead(f, window) =>
      if f in s.toGateway then DoDeliver(s, f, window) else s
  }

  function DoSend(s: System, d: C.Draw, now: nat, written: bool): System
    requires s.client.phase.Ready?
  {
    var client := C.Send(s.client, d, now, written);
    if !client.phase.Waiting? then s.(client := client)
    else
      var f := DataFrame(s.client.conn, Encode(client.phase.req));
      s.(client := client,
         toGateway := s.toGateway + {f},
         wrote := s.wrote + [f],
         sent := s.sent + [client.phase.req],
         sentAt := s.sentAt + [now],
         collected := s.collected + [[]])
  }

  function DoTick(s: System, now: nat): System
    requires s.client.phase.Waiting?
  {
    var client := C.Tick(s.client, now);
    s.(client := client,
       toGateway := s.toGateway + (set f | f in C.Resent(s.client, now)),
       wrote := s.wrote + C.Resent(s.client, now),
       collected := Collect(s.collected, s.client.queue, now),
       givenUp := GiveUp(s.givenUp, s.client.queue, client.queue, now))
  }

  function DoDeliver(s: System, f: Frame, window: nat): System {
    var gateway := G.Receive(s.gateway, f, window);
    s.(gateway := gateway,
       toClient := s.toClient + (set a | a in gateway.written),
       arrived := if s.gateway.open && f.payload != [] then s.arrived + {f.seqNum} else s.arrived)
  }

  function Run(s: System, es: seq<Event>): System {
    if es == [] then s else Step(Run(s, es[..|es| - 1]), es[|es| - 1])
  }
}
