/** Every interleaving keeps the invariant of the multi-producer queue, and what follows from it. */
module MpscInvariant {
  import opened Words
  import opened RingIndex
  import opened MpscQueue

  lemma InitInv<T(!new)>(cap: nat)
    requires IsPow2(cap)
    ensures Inv(Init<T>(cap))
  {
  }

  /** A producer that owns no ticket moves to a point at which it owns none. */
  lemma GotoKeeps<T(!new)>(q: Queue<T>, p: nat, pc: Producer<T>)
    requires Inv(q) && !Pc(q, p).Claimed? && !pc.Claimed?
    requires pc.GotTail? ==> pc.tail <= q.tail
    requires pc.GotHead? ==> pc.tail <= q.tail && pc.head <= q.head
    ensures Inv(Goto(q, p, pc))
  {
    var r := Goto(q, p, pc);
    forall t | r.head <= t < r.tail
      ensures TicketOk(r, t)
    {
      assert TicketOk(q, t);
    }
    forall x: nat
      ensures ProducerOk(r, x)
    {
      assert ProducerOk(q, x);
    }
  }

  /** The slot just past the tail is empty while fewer than `cap` tickets are outstanding. */
  lemma NextSlotEmpty<T(!new)>(q: Queue<T>)
    requires Inv(q) && q.tail < q.head + q.cap
    ensures SlotAt(q, q.tail) == None
  {
    if SlotAt(q, q.tail).Some? {
      var t: nat :| q.head <= t < q.tail && Index(t, q.cap) == Index(q.tail, q.cap);
      IndexInjective(t, q.tail, q.cap);
    }
  }

  /** Winning a ticket: although head was loaded earlier, there is room. */
  lemma ClaimKeeps<T(!new)>(q: Queue<T>, p: nat, v: T, head: nat)
    requires Inv(q) && Pc(q, p) == GotHead(v, q.tail, head)
    requires Sub64(q.tail, head) < q.cap && q.tail + 1 < 0x1_0000_0000_0000_0000
    ensures Inv(DoCas(q, p, v, q.tail, head, false))
  {
    var r := DoCas(q, p, v, q.tail, head, false);
    assert ProducerOk(q, p);
    Fits64(q.tail - head);
    NextSlotEmpty(q);
    forall t | r.head <= t < r.tail
      ensures TicketOk(r, t)
    {
      if t < q.tail {
        assert TicketOk(q, t);
      }
    }
    forall x: nat
      ensures ProducerOk(r, x)
    {
      assert ProducerOk(q, x);
    }
    assert r.tickets[..r.head] == q.tickets[..q.head];
  }

  lemma CasKeeps<T(!new)>(q: Queue<T>, p: nat, v: T, tail: nat, head: nat, spurious: bool)
    requires Inv(q) && Pc(q, p) == GotHead(v, tail, head)
    ensures Inv(DoCas(q, p, v, tail, head, spurious))
  {
    if Sub64(tail, head) >= q.cap {
      GotoKeeps(q, p, Idle);
    } else if q.tail != tail || spurious {
      GotoKeeps(q, p, GotTail(v, q.tail));
    } else if q.tail + 1 < 0x1_0000_0000_0000_0000 {
      ClaimKeeps(q, p, v, head);
    }
  }

  lemma OtherSlot<T(!new)>(q: Queue<T>, t: nat, x: nat)
    requires Inv(q) && q.head <= t < q.tail && q.head <= x < q.tail && t != x
    ensures Index(t, q.cap) != Index(x, q.cap)
  {
    if Index(t, q.cap) == Index(x, q.cap) {
      IndexInjective(t, x, q.cap);
    }
  }

  lemma WriteKeeps<T(!new)>(q: Queue<T>, p: nat, v: T, ticket: nat)
    requires Inv(q) && Pc(q, p) == Claimed(v, ticket)
    ensures Inv(DoWrite(q, p, v, ticket))
  {
    var r := DoWrite(q, p, v, ticket);
    assert ProducerOk(q, p);
    assert TicketOk(q, ticket);
    forall t | r.head <= t < r.tail
      ensures TicketOk(r, t)
    {
      assert TicketOk(q, t);
      if t != ticket {
        OtherSlot(q, t, ticket);
      }
    }
    forall x: nat
      ensures ProducerOk(r, x)
    {
      assert ProducerOk(q, x);
    }
    assert ConsumerOk(r) by {
      if q.head < q.tail && q.head != ticket {
        OtherSlot(q, q.head, ticket);
      }
    }
    forall i | 0 <= i < r.cap && r.buffer[i].Some?
      ensures exists t: nat :: r.head <= t < r.tail && Index(t, r.cap) == i
    {
      if i != Index(ticket, q.cap) {
        var t: nat :| q.head <= t < q.tail && Index(t, q.cap) == i;
      }
    }
  }

  lemma ProducersUntouched<T(!new)>(q: Queue<T>, r: Queue<T>)
    requires Inv(q) && r.producers == q.producers && r.tickets == q.tickets
    requires r.head == q.head && r.tail == q.tail
    ensures forall p :: ProducerOk(r, p)
  {
    forall p: nat
      ensures ProducerOk(r, p)
    {
      assert ProducerOk(q, p);
    }
  }

  /** The consumer's loads and its look at the slot. */
  lemma LookKeeps<T(!new)>(q: Queue<T>, c: Consumer<T>)
    requires Inv(q) && !q.consumer.Cleared? && !c.Cleared? && !c.Moved?
    requires ConsumerOk(q.(consumer := c))
    ensures Inv(q.(consumer := c))
  {
    var r := q.(consumer := c);
    ProducersUntouched(q, r);
    forall t | r.head <= t < r.tail
      ensures TicketOk(r, t)
    {
      assert TicketOk(q, t);
    }
  }

  lemma MoveKeeps<T(!new)>(q: Queue<T>, h: nat, v: T)
    requires Inv(q) && q.consumer == SawFull(h) && SlotAt(q, h) == Some(v)
    ensures Inv(q.(consumer := Moved(h, v)))
  {
    var r := q.(consumer := Moved(h, v));
    ProducersUntouched(q, r);
    forall t | r.head <= t < r.tail
      ensures TicketOk(r, t)
    {
      assert TicketOk(q, t);
    }
  }

  lemma ClearKeeps<T(!new)>(q: Queue<T>, h: nat, v: T)
    requires Inv(q) && q.consumer == Moved(h, v)
    ensures Inv(q.(consumer := Cleared(h, v), buffer := q.buffer[Index(h, q.cap) := None]))
  {
    var r := q.(consumer := Cleared(h, v), buffer := q.buffer[Index(h, q.cap) := None]);
    ProducersUntouched(q, r);
    assert TicketOk(q, h);
    forall t | r.head <= t < r.tail
      ensures TicketOk(r, t)
    {
      assert TicketOk(q, t);
      if t != h {
        OtherSlot(q, t, h);
      }
    }
    forall i | 0 <= i < r.cap && r.buffer[i].Some?
      ensures exists t: nat :: r.head <= t < r.tail && Index(t, r.cap) == i
    {
      var t: nat :| q.head <= t < q.tail && Index(t, q.cap) == i;
    }
  }

  lemma StoreKeeps<T(!new)>(q: Queue<T>, h: nat, v: T)
    requires Inv(q) && q.consumer == Cleared(h, v)
    ensures Inv(q.(consumer := Resting, head := h + 1, popped := q.popped + [v]))
  {
    var r := q.(consumer := Resting, head := h + 1, popped := q.popped + [v]);
    assert TicketOk(q, h);
    forall t | r.head <= t < r.tail
      ensures TicketOk(r, t)
    {
      assert TicketOk(q, t);
    }
    forall p: nat
      ensures ProducerOk(r, p)
    {
      assert ProducerOk(q, p);
    }
    assert q.tickets[..h + 1] == q.tickets[..h] + [q.tickets[h]];
    forall i | 0 <= i < r.cap && r.buffer[i].Some?
      ensures exists t: nat :: r.head <= t < r.tail && Index(t, r.cap) == i
    {
      var t: nat :| q.head <= t < q.tail && Index(t, q.cap) == i;
    }
  }

  lemma StepKeeps<T(!new)>(q: Queue<T>, e: Event<T>)
    requires Inv(q)
    ensures Inv(Step(q, e))
  {
    match e
    case LoadTail(p, v) =>
      if Pc(q, p).Idle? {
        GotoKeeps(q, p, GotTail(v, q.tail));
      }
    case LoadHead(p) =>
      assert ProducerOk(q, p);
      if Pc(q, p).GotTail? {
        GotoKeeps(q, p, GotHead(Pc(q, p).v, Pc(q, p).tail, q.head));
      }
    case Cas(p, spurious) =>
      if Pc(q, p).GotHead? {
        CasKeeps(q, p, Pc(q, p).v, Pc(q, p).tail, Pc(q, p).head, spurious);
      }
    case Write(p) =>
      if Pc(q, p).Claimed? {
        WriteKeeps(q, p, Pc(q, p).v, Pc(q, p).ticket);
      }
    case PopLoadHead =>
      if q.consumer.Resting? {
        LookKeeps(q, SawHead(q.head));
      }
    case PopLoadTail =>
      if q.consumer.SawHead? {
        LookKeeps(q, SawTail(q.consumer.head, q.tail));
      }
    case PopCheck => CheckKeeps(q);
    case PopMove =>
      if q.consumer.SawFull? {
        MoveKeeps(q, q.consumer.head, SlotAt(q, q.consumer.head).value);
      }
    case PopClear =>
      if q.consumer.Moved? {
        ClearKeeps(q, q.consumer.head, q.consumer.v);
      }
    case PopStore =>
      if q.consumer.Cleared? {
        StoreKeeps(q, q.consumer.head, q.consumer.v);
      }
  }

  lemma CheckKeeps<T(!new)>(q: Queue<T>)
    requires Inv(q)
    ensures Inv(Step(q, PopCheck))
  {
    match q.consumer
    case SawTail(h, t) =>
      if h >= t || SlotAt(q, h).None? {
        LookKeeps(q, Resting);
      } else {
        LookKeeps(q, SawFull(h));
      }
    case _ =>
  }
}
