/** TcpConnection (include/usn/protocol/tcp_protocol.hpp) and the transitions of TcpStateMachine
    (include/usn/protocol/tcp_state_machine.hpp). */
module StateMachine {
  import opened Words

  datatype TcpState = CLOSED | LISTEN | SYN_SENT | SYN_RECEIVED | ESTABLISHED | FIN_WAIT_1 | FIN_WAIT_2
                    | CLOSE_WAIT | CLOSING | LAST_ACK | TIME_WAIT

  datatype Conn = Conn(localIp: nat, remoteIp: nat, localPort: nat, remotePort: nat,
                       sendSeq: nat, recvSeq: nat, sendAck: nat, recvAck: nat,
                       state: TcpState, windowSize: nat, peerWindow: nat)

  /** A default-constructed connection with ports and both sequence numbers set, as both applications
      do: the state stays CLOSED. */
  function FreshConn(ip: nat, localPort: nat, remotePort: nat): Conn {
    Conn(ip, ip, localPort, remotePort, 1, 1, 0, 0, CLOSED, 65535, 65535)
  }

  /** The parts of a parsed frame that the receivers act on. */
  datatype Frame = Frame(seqNum: nat, ackNum: nat, flags: nat, payload: seq<Byte>)

  predicate HasFin(flags: nat) { flags % 2 == 1 }
  predicate HasSyn(flags: nat) { flags / 2 % 2 == 1 }
  predicate HasAck(flags: nat) { flags / 16 % 2 == 1 }

  const ACK: nat := 16
  const PSH_ACK: nat := 24
  const FIN_ACK: nat := 17

  /** What the peer reads from `create_data(conn, payload)`. */
  function DataFrame(c: Conn, payload: seq<Byte>): Frame {
    Frame(c.sendSeq, c.recvSeq, PSH_ACK, payload)
  }

  /** What the peer reads from `create_ack(conn, ackNum)`. */
  function AckFrame(c: Conn, ackNum: nat): Frame {
    Frame(c.sendSeq, ackNum, ACK, [])
  }

  predicate CanTransition(from: TcpState, to: TcpState) {
    match from
    case CLOSED => to == LISTEN || to == SYN_SENT
    case LISTEN => to == SYN_RECEIVED || to == CLOSED
    case SYN_SENT => to == ESTABLISHED || to == CLOSED
    case SYN_RECEIVED => to == ESTABLISHED || to == CLOSED
    case ESTABLISHED => to == FIN_WAIT_1 || to == CLOSE_WAIT
    case FIN_WAIT_1 => to == FIN_WAIT_2 || to == CLOSING || to == TIME_WAIT
    case FIN_WAIT_2 => to == TIME_WAIT
    case CLOSE_WAIT => to == LAST_ACK
    case CLOSING => to == TIME_WAIT
    case LAST_ACK => to == CLOSED
    case TIME_WAIT => to == CLOSED
  }

  function Transition(c: Conn, to: TcpState): Conn {
    if CanTransition(c.state, to) then c.(state := to) else c
  }

  function InitiateClose(c: Conn): Conn {
    if c.state == ESTABLISHED then Transition(c, FIN_WAIT_1)
    else if c.state == CLOSE_WAIT then Transition(c, LAST_ACK)
    else c
  }

  function OnWindowUpdate(c: Conn, window: nat): Conn {
    c.(peerWindow := window, windowSize := window)
  }

  /** `handle_incoming`, as called by the gateway's control path: frames without payload. */
  function HandleIncoming(c: Conn, f: Frame, window: nat): Conn {
    var c0 := OnWindowUpdate(c, window);
    var c1 := if HasSyn(f.flags) then c0.(recvSeq := Add32(f.seqNum, 1)) else c0;
    if HasSyn(f.flags) && c1.state == LISTEN then
      Transition(c1.(sendAck := c1.recvSeq), SYN_RECEIVED)
    else if HasSyn(f.flags) && c1.state == SYN_SENT && HasAck(f.flags) then
      Transition(c1.(sendAck := f.ackNum), ESTABLISHED)
    else OnAckThenFin(c1, f)
  }

  function OnAckThenFin(c: Conn, f: Frame): Conn {
    if !HasAck(f.flags) then
      OnFin(c, f)
    else if f.ackNum <= c.recvAck && !HasFin(f.flags) then
      c
    else
      var d := c.(recvAck := f.ackNum);
      match d.state
      case SYN_RECEIVED => Transition(d, ESTABLISHED)
      case FIN_WAIT_1 => Transition(d, if HasFin(f.flags) then TIME_WAIT else FIN_WAIT_2)
      case CLOSING => Transition(d, TIME_WAIT)
      case LAST_ACK => Transition(d, CLOSED)
      case _ => OnFin(d, f)
  }

  function OnFin(c: Conn, f: Frame): Conn {
    if !HasFin(f.flags) then c
    else
      var next := Add32(f.seqNum, 1);
      var d := c.(recvSeq := next, sendAck := next);
      match d.state
      case ESTABLISHED => Transition(d, CLOSE_WAIT)
      case FIN_WAIT_1 => Transition(d, CLOSING)
      case FIN_WAIT_2 => Transition(d, TIME_WAIT)
      case _ => d
  }

  /** A bare ACK never moves the data sequence numbers, leaves a CLOSED connection CLOSED, and sets both windows
      to the announced one. */
  lemma BareAck(c: Conn, f: Frame, window: nat)
    requires HasAck(f.flags) && !HasSyn(f.flags) && !HasFin(f.flags)
    ensures var d := HandleIncoming(c, f, window);
            && d.recvSeq == c.recvSeq && d.sendSeq == c.sendSeq && d.sendAck == c.sendAck
            && (c.state == CLOSED ==> d.state == CLOSED)
            && d.recvAck == Max(c.recvAck, f.ackNum)
            && d.peerWindow == window && d.windowSize == window
  {
  }

  const SYN: nat := 2
  const SYN_ACK: nat := 18

  /** Whatever frame without payload arrives, the state stays or moves along one edge of the state diagram. */
  lemma StaysOnDiagram(c: Conn, f: Frame, window: nat)
    ensures var d := HandleIncoming(c, f, window); d.state == c.state || CanTransition(c.state, d.state)
  {
  }

  /** The three-way handshake: SYN, SYN+ACK and ACK bring a listening and a connecting end to ESTABLISHED, each
      expecting the number after the other's SYN. */
  lemma ThreeWayHandshake(server: Conn, client: Conn, x: nat, y: nat, w1: nat, w2: nat, w3: nat)
    requires server.state == LISTEN && client.state == SYN_SENT && server.recvAck <= y
    requires x < 0xFFFF_FFFF && y < 0xFFFF_FFFF
    ensures var s1 := HandleIncoming(server, Frame(x, 0, SYN, []), w1);
            var c1 := HandleIncoming(client, Frame(y, s1.recvSeq, SYN_ACK, []), w2);
            var s2 := HandleIncoming(s1, Frame(x + 1, c1.recvSeq, ACK, []), w3);
            && s1.state == SYN_RECEIVED
            && c1.state == ESTABLISHED && c1.recvSeq == y + 1
            && s2.state == ESTABLISHED && s2.recvSeq == x + 1 && s2.recvAck == y + 1
  {
  }

  class TcpConnection {
    const localIp: nat
    const remoteIp: nat
    const localPort: nat
    const remotePort: nat
    var sendSeq: nat
    var recvSeq: nat
    var sendAck: nat
    var recvAck: nat
    var state: TcpState
    var windowSize: nat
    var peerWindow: nat

    function Value(): Conn
      reads this
    {
      Conn(localIp, remoteIp, localPort, remotePort, sendSeq, recvSeq, sendAck, recvAck, state, windowSize, peerWindow)
    }

    constructor (ip: nat, localPort: nat, remotePort: nat)
      ensures Value() == FreshConn(ip, localPort, remotePort)
    {
      this.localIp, this.remoteIp := ip, ip;
      this.localPort, this.remotePort := localPort, remotePort;
      sendSeq, recvSeq, sendAck, recvAck := 1, 1, 0, 0;
      state, windowSize, peerWindow := CLOSED, 65535, 65535;
    }

    method TransitionState(to: TcpState) returns (moved: bool)
      modifies this`state
      ensures Value() == Transition(old(Value()), to)
      ensures moved <==> old(CanTransition(state, to))
    {
      moved := CanTransition(state, to);
      if moved {
        state := to;
      }
    }

    method Close() returns (moved: bool)
      modifies this`state
      ensures Value() == InitiateClose(old(Value()))
      ensures moved <==> old(state) == ESTABLISHED || old(state) == CLOSE_WAIT
    {
      moved := false;
      if state == ESTABLISHED {
        moved := TransitionState(FIN_WAIT_1);
      } else if state == CLOSE_WAIT {
        moved := TransitionState(LAST_ACK);
      }
    }

    /** The FIN branch, for a frame without payload. */
    method Fin(f: Frame) returns (ok: bool)
      modifies this
      ensures ok
      ensures Value() == OnFin(old(Value()), f)
    {
      ok := true;
      if HasFin(f.flags) {
        recvSeq := Add32(f.seqNum, 1);
        sendAck := recvSeq;
        if state == ESTABLISHED {
          ok := TransitionState(CLOSE_WAIT);
        } else if state == FIN_WAIT_1 {
          ok := TransitionState(CLOSING);
        } else if state == FIN_WAIT_2 {
          ok := TransitionState(TIME_WAIT);
        }
      }
    }

    /** The ACK branch, and the FIN branch when it falls through. */
    method AckThenFin(f: Frame) returns (ok: bool)
      modifies this
      ensures ok
      ensures Value() == OnAckThenFin(old(Value()), f)
    {
      if HasAck(f.flags) {
        if f.ackNum <= recvAck && !HasFin(f.flags) {
          return true;
        }
        recvAck := f.ackNum;
        if state == SYN_RECEIVED {
          ok := TransitionState(ESTABLISHED);
          return;
        }
        if state == FIN_WAIT_1 {
          ok := TransitionState(if HasFin(f.flags) then TIME_WAIT else FIN_WAIT_2);
          return;
        }
        if state == CLOSING {
          ok := TransitionState(TIME_WAIT);
          return;
        }
        if state == LAST_ACK {
          ok := TransitionState(CLOSED);
          return;
        }
      }
      ok := Fin(f);
    }

    /** Every transition it asks for is legal, so for a frame without payload the result is always true. */
    method Incoming(f: Frame, window: nat) returns (ok: bool)
      modifies this
      ensures ok
      ensures Value() == HandleIncoming(old(Value()), f, window)
    {
      peerWindow := window;
      windowSize := window;
      if HasSyn(f.flags) {
        recvSeq := Add32(f.seqNum, 1);
        if state == LISTEN {
          sendAck := recvSeq;
          ok := TransitionState(SYN_RECEIVED);
          return;
        }
        if state == SYN_SENT && HasAck(f.flags) {
          sendAck := f.ackNum;
          ok := TransitionState(ESTABLISHED);
          return;
        }
      }
      ok := AckThenFin(f);
    }
  }
}
