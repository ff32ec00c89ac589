/** MpscQueue (include/usn/core/mpsc_queue.hpp) as interleaved atomic steps of any number of producer
    threads and one consumer thread, sequentially consistent, with counters below 2^64. */
module MpscQueue {
  import opened Words
  import opened RingIndex

  /** A producer inside `try_push(v)`: after the load of tail, after the load of head, after winning a
      ticket by compare-and-swap but before its value is in the slot. */
  datatype Producer<T> =
    | Idle
    | GotTail(v: T, tail: nat)
    | GotHead(v: T, tail: nat, head: nat)
    | Claimed(v: T, ticket: nat)

  /** The consumer inside `try_pop`. */
  datatype Consumer<T> =
    | Resting
    | SawHead(head: nat)
    | SawTail(head: nat, tail: nat)
    | SawFull(head: nat)
    | Moved(head: nat, v: T)
    | Cleared(head: nat, v: T)

  datatype Ticket<T> = Ticket(owner: nat, v: T)

  /** The shared words and slots, the program counters of all threads, and the history: who won each
      ticket, what each pop returned, and what each producer has pushed with success. */
  datatype Queue<T> = Queue(cap: nat, head: nat, tail: nat, buffer: seq<Option<T>>,
                            producers: map<nat, Producer<T>>, consumer: Consumer<T>,
                            tickets: seq<Ticket<T>>, popped: seq<T>, pushed: map<nat, seq<T>>)

  datatype Event<T> =
    | LoadTail(p: nat, v: T)
    | LoadHead(p: nat)
    | Cas(p: nat, spurious: bool)
    | Write(p: nat)
    | PopLoadHead
    | PopLoadTail
    | PopCheck
    | PopMove
    | PopClear
    | PopStore

  ghost predicate Shaped<T>(q: Queue<T>) {
    IsPow2(q.cap) && |q.buffer| == q.cap
  }

  function Init<T>(cap: nat): Queue<T> {
    Queue(cap, 0, 0, seq(cap, _ => None), map[], Resting, [], [], map[])
  }

  function Pc<T>(q: Queue<T>, p: nat): Producer<T> {
    if p in q.producers then q.producers[p] else Idle
  }

  function PushedBy<T>(q: Queue<T>, p: nat): seq<T> {
    if p in q.pushed then q.pushed[p] else []
  }

  function Goto<T>(q: Queue<T>, p: nat, pc: Producer<T>): Queue<T> {
    q.(producers := q.producers[p := pc])
  }

  /** The full check on the loaded words (their difference wraps when tail was loaded first and is
      stale), then the compare-and-swap, which fails when tail has moved and may fail spuriously. */
  function DoCas<T>(q: Queue<T>, p: nat, v: T, tail: nat, head: nat, spurious: bool): Queue<T> {
    if Sub64(tail, head) >= q.cap then Goto(q, p, Idle)
    else if q.tail != tail || spurious then Goto(q, p, GotTail(v, q.tail))
    else if q.tail + 1 >= 0x1_0000_0000_0000_0000 then q
    else Goto(q, p, Claimed(v, tail)).(tail := tail + 1, tickets := q.tickets + [Ticket(p, v)])
  }

  /** The write into the claimed slot; the push then returns true. */
  ghost function DoWrite<T>(q: Queue<T>, p: nat, v: T, ticket: nat): Queue<T>
    requires Shaped(q)
  {
    Goto(q, p, Idle).(buffer := q.buffer[Index(ticket, q.cap) := Some(v)],
                      pushed := q.pushed[p := PushedBy(q, p) + [v]])
  }

  ghost function SlotAt<T>(q: Queue<T>, t: nat): Option<T>
    requires Shaped(q)
  {
    q.buffer[Index(t, q.cap)]
  }

  /** One atomic step; an event that does not match the thread's program counter changes nothing. */
  ghost function Step<T>(q: Queue<T>, e: Event<T>): Queue<T>
    requires Shaped(q)
  {
    match e
    case LoadTail(p, v) => if Pc(q, p).Idle? then Goto(q, p, GotTail(v, q.tail)) else q
    case LoadHead(p) =>
      (match Pc(q, p) case GotTail(v, tail) => Goto(q, p, GotHead(v, tail, q.head)) case _ => q)
    case Cas(p, spurious) =>
      (match Pc(q, p) case GotHead(v, tail, head) => DoCas(q, p, v, tail, head, spurious) case _ => q)
    case Write(p) =>
      (match Pc(q, p) case Claimed(v, ticket) => DoWrite(q, p, v, ticket) case _ => q)
    case PopLoadHead => if q.consumer.Resting? then q.(consumer := SawHead(q.head)) else q
    case PopLoadTail =>
      (match q.consumer case SawHead(h) => q.(consumer := SawTail(h, q.tail)) case _ => q)
    case PopCheck =>
      (match q.consumer
       case SawTail(h, t) => q.(consumer := if h >= t || SlotAt(q, h).None? then Resting else SawFull(h))
       case _ => q)
    case PopMove =>
      (match q.consumer
       case SawFull(h) => if SlotAt(q, h).Some? then q.(consumer := Moved(h, SlotAt(q, h).value)) else q
       case _ => q)
    case PopClear =>
      (match q.consumer
       case Moved(h, v) => q.(consumer := Cleared(h, v), buffer := q.buffer[Index(h, q.cap) := None])
       case _ => q)
    case PopStore =>
      (match q.consumer
       case Cleared(h, v) => q.(consumer := Resting, head := h + 1, popped := q.popped + [v])
       case _ => q)
  }

  lemma StepShaped<T>(q: Queue<T>, e: Event<T>)
    requires Shaped(q)
    ensures Shaped(Step(q, e)) && Step(q, e).cap == q.cap
  {
  }

  ghost function Run<T>(q: Queue<T>, es: seq<Event<T>>): (r: Queue<T>)
    requires Shaped(q)
    ensures Shaped(r) && r.cap == q.cap
  {
    if es == [] then q
    else
      var before := Run(q, es[..|es| - 1]);
      StepShaped(before, es[|es| - 1]);
      Step(before, es[|es| - 1])
  }

  // ----- the invariant -----

  ghost predicate Owns<T>(q: Queue<T>, p: nat, t: nat) {
    Pc(q, p).Claimed? && Pc(q, p).ticket == t
  }

  /** A ticket in [head, tail): its owner has yet to write (and the slot is empty), or the consumer has
      just cleared its slot, or its slot holds the owner's value. */
  ghost predicate TicketOk<T>(q: Queue<T>, t: nat)
    requires Shaped(q) && t < |q.tickets|
  {
    if Owns(q, q.tickets[t].owner, t) then
      SlotAt(q, t) == None && (t == q.head ==> !q.consumer.SawFull? && !q.consumer.Moved? && !q.consumer.Cleared?)
    else if t == q.head && q.consumer.Cleared? then SlotAt(q, t) == None
    else SlotAt(q, t) == Some(q.tickets[t].v)
  }

  ghost predicate ProducerOk<T>(q: Queue<T>, p: nat) {
    match Pc(q, p)
    case Idle => true
    case GotTail(v, tail) => tail <= q.tail
    case GotHead(v, tail, head) => tail <= q.tail && head <= q.head
    case Claimed(v, t) => q.head <= t < q.tail && t < |q.tickets| && q.tickets[t] == Ticket(p, v)
  }

  ghost predicate ConsumerOk<T>(q: Queue<T>)
    requires Shaped(q)
  {
    match q.consumer
    case Resting => true
    case SawHead(h) => h == q.head
    case SawTail(h, t) => h == q.head && t <= q.tail
    case SawFull(h) => h == q.head < q.tail && SlotAt(q, h).Some?
    case Moved(h, v) => h == q.head < q.tail && SlotAt(q, h) == Some(v)
    case Cleared(h, v) => h == q.head < q.tail && h < |q.tickets| && v == q.tickets[h].v
  }

  function Values<T>(ts: seq<Ticket<T>>): seq<T> {
    seq(|ts|, i requires 0 <= i < |ts| => ts[i].v)
  }

  ghost predicate Counters<T>(q: Queue<T>) {
    && q.head <= q.tail <= q.head + q.cap
    && q.tail == |q.tickets| < 0x1_0000_0000_0000_0000
    && q.popped == Values(q.tickets[..q.head])
  }

  /** Every filled slot belongs to a ticket in [head, tail). */
  ghost predicate NoStray<T>(q: Queue<T>)
    requires Shaped(q)
  {
    forall i :: 0 <= i < q.cap && q.buffer[i].Some? ==> exists t: nat :: q.head <= t < q.tail && Index(t, q.cap) == i
  }

  ghost predicate Inv<T(!new)>(q: Queue<T>) {
    && Shaped(q) && Counters(q)
    && (forall t :: q.head <= t < q.tail ==> TicketOk(q, t))
    && (forall p :: ProducerOk(q, p))
    && ConsumerOk(q)
    && NoStray(q)
  }
}
