/** PacketRing (include/usn/core/packet_ring.hpp) as a sequential object: a bounded FIFO of packets in a
    ring of slots, with single and batch operations. */
module PacketRing {
  import opened Words
  import opened RingIndex

  // ----- the bounded FIFO it implements -----

  function PushOne<P>(fifo: seq<P>, cap: nat, p: P): seq<P> {
    if |fifo| < cap then fifo + [p] else fifo
  }

  function PushEach<P>(fifo: seq<P>, cap: nat, ps: seq<P>): seq<P> {
    if ps == [] then fifo else PushOne(PushEach(fifo, cap, ps[..|ps| - 1]), cap, ps[|ps| - 1])
  }

  function PopOne<P>(fifo: seq<P>): (seq<P>, seq<P>) {
    if fifo == [] then ([], []) else ([fifo[0]], fifo[1..])
  }

  /** `n` single pops: the packets taken, and what is left. */
  function PopEach<P>(fifo: seq<P>, n: nat): (seq<P>, seq<P>)
    decreases n
  {
    if n == 0 then ([], fifo)
    else
      var (taken, left) := PopEach(fifo, n - 1);
      var (one, rest) := PopOne(left);
      (taken + one, rest)
  }

  /** A batch push is the run of single pushes of its packets. */
  lemma {:induction false} BatchPushIsSingles<P>(fifo: seq<P>, cap: nat, ps: seq<P>)
    requires |fifo| <= cap
    ensures PushEach(fifo, cap, ps) == fifo + ps[..Min(|ps|, cap - |fifo|)]
    decreases |ps|
  {
    if ps != [] {
      var init := ps[..|ps| - 1];
      BatchPushIsSingles(fifo, cap, init);
      if |ps| <= cap - |fifo| {
        assert ps == init + [ps[|ps| - 1]];
        assert fifo + init + [ps[|ps| - 1]] == fifo + ps;
      } else {
        assert init[..cap - |fifo|] == ps[..cap - |fifo|];
      }
    }
  }

  /** A batch pop is the run of single pops. */
  lemma {:induction false} BatchPopIsSingles<P>(fifo: seq<P>, n: nat)
    ensures PopEach(fifo, n) == (fifo[..Min(n, |fifo|)], fifo[Min(n, |fifo|)..])
    decreases n
  {
    if n > 0 {
      BatchPopIsSingles(fifo, n - 1);
      var m := Min(n - 1, |fifo|);
      if m < |fifo| {
        assert fifo[m..][0] == fifo[m] && fifo[m..][1..] == fifo[m + 1..];
        assert fifo[..m] + [fifo[m]] == fifo[..m + 1];
      } else {
        assert fifo[..m] + [] == fifo[..m];
      }
    }
  }

  // ----- packets in slots -----

  /** From position `from` on, the slots hold `ps`. */
  ghost predicate Holds<P>(slots: seq<P>, cap: nat, from: nat, ps: seq<P>)
    requires IsPow2(cap) && |slots| == cap
  {
    |ps| <= cap && forall t :: from <= t < from + |ps| ==> slots[Index(t, cap)] == ps[t - from]
  }

  /** A write at a free position disturbs nothing that is held; at the first free one it adds a packet. */
  lemma WriteFree<P>(slots: seq<P>, cap: nat, from: nat, ps: seq<P>, at: nat, p: P)
    requires IsPow2(cap) && |slots| == cap && Holds(slots, cap, from, ps)
    requires from + |ps| <= at < from + cap
    ensures Holds(slots[Index(at, cap) := p], cap, from, ps)
    ensures at == from + |ps| ==> Holds(slots[Index(at, cap) := p], cap, from, ps + [p])
  {
    forall t | from <= t < from + |ps|
      ensures Index(t, cap) != Index(at, cap)
    {
      if Index(t, cap) == Index(at, cap) {
        IndexInjective(t, at, cap);
      }
    }
  }

  /** Overwriting the oldest slot disturbs nothing that stays. */
  lemma ClearOldest<P>(slots: seq<P>, cap: nat, from: nat, ps: seq<P>, p: P)
    requires IsPow2(cap) && |slots| == cap && Holds(slots, cap, from, ps) && ps != []
    ensures slots[Index(from, cap)] == ps[0]
    ensures Holds(slots[Index(from, cap) := p], cap, from + 1, ps[1..])
  {
    forall t | from + 1 <= t < from + |ps|
      ensures Index(t, cap) != Index(from, cap)
    {
      if Index(t, cap) == Index(from, cap) {
        IndexInjective(t, from, cap);
      }
    }
  }

  class Ring<P> {
    const capacity: nat
    const blank: P
    const packets: array<P>
    var write: nat
    var read: nat
    ghost var contents: seq<P>

    ghost predicate Valid()
      reads this, packets
    {
      && IsPow2(capacity)
      && packets.Length == capacity
      && write == read + |contents|
      && Holds(packets[..], capacity, read, contents)
    }

    constructor (requested: nat, blank: P)
      requires requested <= 0x8000_0000_0000_0000
      ensures Valid() && contents == [] && fresh(packets)
      ensures requested <= capacity && (requested > 0 ==> capacity < 2 * requested)
    {
      RoundUpIsLeastPower(requested);
      var n := RoundUp(requested);
      capacity := n;
      this.blank := blank;
      packets := new P[n](_ => blank);
      write, read := 0, 0;
      contents := [];
    }

    method TryPush(p: P) returns (ok: bool)
      requires Valid()
      modifies this`write, this`contents, packets
      ensures Valid()
      ensures ok <==> |old(contents)| < capacity
      ensures contents == PushOne(old(contents), capacity, p)
    {
      if write - read >= capacity {
        return false;
      }
      WriteFree(packets[..], capacity, read, contents, write, p);
      packets[Index(write, capacity)] := p;
      write := write + 1;
      contents := contents + [p];
      ok := true;
    }

    method TryPushBatch(ps: seq<P>) returns (n: nat)
      requires Valid()
      modifies this`write, this`contents, packets
      ensures Valid()
      ensures n == Min(|ps|, capacity - |old(contents)|)
      ensures contents == PushEach(old(contents), capacity, ps)
    {
      var available := capacity - (write - read);
      n := Min(|ps|, available);
      BatchPushIsSingles(contents, capacity, ps);
      if n == 0 {
        return;
      }
      for i := 0 to n
        invariant write == old(write) && contents == old(contents)
        invariant Holds(packets[..], capacity, read, contents + ps[..i])
      {
        WriteFree(packets[..], capacity, read, contents + ps[..i], write + i, ps[i]);
        assert contents + ps[..i] + [ps[i]] == contents + ps[..i + 1];
        packets[Index(write + i, capacity)] := ps[i];
      }
      write := write + n;
      contents := contents + ps[..n];
    }

    method TryPop() returns (got: Option<P>)
      requires Valid()
      modifies this`read, this`contents, packets
      ensures Valid()
      ensures got == if old(contents) == [] then None else Some(old(contents)[0])
      ensures contents == PopOne(old(contents)).1
    {
      if read >= write {
        return None;
      }
      ClearOldest(packets[..], capacity, read, contents, blank);
      got := Some(packets[Index(read, capacity)]);
      packets[Index(read, capacity)] := blank;
      read := read + 1;
      contents := contents[1..];
    }

    /** Copies out and resets the `n` oldest packets. */
    method TakeOldest(n: nat) returns (out: seq<P>)
      requires Valid() && n <= |contents|
      modifies packets
      ensures out == contents[..n]
      ensures Holds(packets[..], capacity, read + n, contents[n..])
    {
      out := [];
      for i := 0 to n
        invariant out == contents[..i]
        invariant Holds(packets[..], capacity, read + i, contents[i..])
      {
        ClearOldest(packets[..], capacity, read + i, contents[i..], blank);
        assert contents[i..][1..] == contents[i + 1..];
        out := out + [packets[Index(read + i, capacity)]];
        packets[Index(read + i, capacity)] := blank;
      }
    }

    method TryPopBatch(max: nat) returns (out: seq<P>)
      requires Valid()
      modifies this`read, this`contents, packets
      ensures Valid()
      ensures (out, contents) == PopEach(old(contents), max)
    {
      var available := write - read;
      var n := Min(max, available);
      BatchPopIsSingles(contents, max);
      if n == 0 {
        return [];
      }
      out := TakeOldest(n);
      read := read + n;
      contents := contents[n..];
    }
  }
}
