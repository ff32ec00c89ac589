/** PacketRing under concurrency: one producer thread and one consumer thread, every load, slot access
    and store an atomic step, sequentially consistent, positions below 2^64. */
module PacketRingSteps {
  import opened Words
  import opened RingIndex
  import opened PacketRing

  /** Inside `try_push` (a batch of one) or `try_push_batch`: after the load of write_pos; while copying the
      first `n` packets into their slots, `i` of them done. */
  datatype Producer<P> =
    | Ready
    | GotWrite(batch: seq<P>, single: bool, w: nat)
    | Copying(batch: seq<P>, w: nat, n: nat, i: nat)

  /** Inside `try_pop` or `try_pop_batch`: after the load of read_pos; before copying slot i of n; before
      resetting it. */
  datatype Consumer<P> =
    | Waiting
    | GotRead(max: nat, r: nat)
    | Taking(r: nat, n: nat, got: seq<P>)
    | Resetting(r: nat, n: nat, got: seq<P>)

  datatype State<P> = State(cap: nat, blank: P, write: nat, read: nat, slots: seq<P>,
                            producer: Producer<P>, consumer: Consumer<P>, pushed: seq<P>, popped: seq<P>)

  datatype Event<P> =
    | PushLoadWrite(batch: seq<P>, single: bool)
    | PushLoadRead
    | PushCopy
    | PushStore
    | PopLoadRead(max: nat)
    | PopLoadWrite
    | PopCopy
    | PopReset
    | PopStore

  ghost predicate Shaped<P>(s: State<P>) {
    IsPow2(s.cap) && s.cap < 0x1_0000_0000_0000_0000 && |s.slots| == s.cap
  }

  function Init<P>(cap: nat, blank: P): State<P> {
    State(cap, blank, 0, 0, seq(cap, _ => blank), Ready, Waiting, [], [])
  }

  /** How many packets a push may copy: `try_push` tests for full, `try_push_batch` subtracts. */
  function PushCount(single: bool, len: nat, cap: nat, w: nat, r: nat): nat {
    if single then (if Sub64(w, r) >= cap then 0 else 1)
    else Min(len, Sub64(cap, Sub64(w, r)))
  }

  ghost function Step<P>(s: State<P>, e: Event<P>): State<P>
    requires Shaped(s)
  {
    match e
    case PushLoadWrite(batch, single) =>
      if s.producer.Ready? && (single ==> |batch| == 1) && s.write + |batch| < 0x1_0000_0000_0000_0000 then
        s.(producer := GotWrite(batch, single, s.write))
      else s
    case PushLoadRead =>
      (match s.producer
       case GotWrite(batch, single, w) =>
         var n := PushCount(single, |batch|, s.cap, w, s.read);
         s.(producer := if n == 0 then Ready else Copying(batch, w, n, 0))
       case _ => s)
    case PushCopy =>
      (match s.producer
       case Copying(batch, w, n, i) =>
         if i < n && i < |batch| then
           s.(slots := s.slots[Index(w + i, s.cap) := batch[i]], producer := Copying(batch, w, n, i + 1))
         else s
       case _ => s)
    case PushStore =>
      (match s.producer
       case Copying(batch, w, n, i) =>
         if i == n <= |batch| then s.(write := w + n, pushed := s.pushed + batch[..n], producer := Ready) else s
       case _ => s)
    case PopLoadRead(max) => if s.consumer.Waiting? then s.(consumer := GotRead(max, s.read)) else s
    case PopLoadWrite =>
      (match s.consumer
       case GotRead(max, r) =>
         var n := Min(max, Sub64(s.write, r));
         s.(consumer := if n == 0 then Waiting else Taking(r, n, []))
       case _ => s)
    case PopCopy =>
      (match s.consumer
       case Taking(r, n, got) =>
         if |got| < n then s.(consumer := Resetting(r, n, got + [s.slots[Index(r + |got|, s.cap)]])) else s
       case _ => s)
    case PopReset =>
      (match s.consumer
       case Resetting(r, n, got) =>
         if got != [] then
           s.(slots := s.slots[Index(r + |got| - 1, s.cap) := s.blank], consumer := Taking(r, n, got))
         else s
       case _ => s)
    case PopStore =>
      (match s.consumer
       case Taking(r, n, got) =>
         if |got| == n then s.(read := r + n, popped := s.popped + got, consumer := Waiting) else s
       case _ => s)
  }

  /** How many of the oldest packets the consumer has already reset. */
  function Gone<P>(c: Consumer<P>): nat {
    match c
    case Taking(r, n, got) => |got|
    case Resetting(r, n, got) => Monus(|got|, 1)
    case _ => 0
  }

  /** The packets the producer has copied but not yet published. */
  function Ahead<P>(p: Producer<P>): seq<P> {
    match p
    case Copying(batch, w, n, i) => if i <= |batch| then batch[..i] else []
    case _ => []
  }

  ghost predicate ProducerOk<P>(s: State<P>) {
    match s.producer
    case Ready => true
    case GotWrite(batch, single, w) => w == s.write && (single ==> |batch| == 1) && w + |batch| < 0x1_0000_0000_0000_0000
    case Copying(batch, w, n, i) => w == s.write && i <= n <= |batch| && w + n <= s.read + s.cap && w + |batch| < 0x1_0000_0000_0000_0000
  }

  /** The packets taken so far are those published from position `r` on. */
  ghost predicate TakenFrom<P>(got: seq<P>, pushed: seq<P>, r: nat) {
    r + |got| <= |pushed| && forall j :: 0 <= j < |got| ==> got[j] == pushed[r + j]
  }

  ghost predicate ConsumerOk<P>(s: State<P>)
    requires s.read <= s.write == |s.pushed|
  {
    match s.consumer
    case Waiting => true
    case GotRead(max, r) => r == s.read
    case Taking(r, n, got) => r == s.read && r + n <= s.write && |got| <= n && TakenFrom(got, s.pushed, r)
    case Resetting(r, n, got) => r == s.read && r + n <= s.write && 0 < |got| <= n && TakenFrom(got, s.pushed, r)
  }

  /** The abstract FIFO: what has been published and not yet taken. */
  function Fifo<P>(s: State<P>): seq<P>
    requires s.read <= |s.pushed|
  {
    s.pushed[s.read..]
  }

  /** The packet at position `t`: published, or copied and about to be. */
  function PacketAt<P>(pushed: seq<P>, ahead: seq<P>, t: nat): P
    requires t < |pushed| + |ahead|
  {
    if t < |pushed| then pushed[t] else ahead[t - |pushed|]
  }

  /** From position `from` on every packet is in its slot. */
  ghost predicate Stored<P>(slots: seq<P>, cap: nat, from: nat, pushed: seq<P>, ahead: seq<P>)
    requires IsPow2(cap) && |slots| == cap
  {
    && |pushed| + |ahead| <= from + cap
    && forall t :: from <= t < |pushed| + |ahead| ==> slots[Index(t, cap)] == PacketAt(pushed, ahead, t)
  }

  /** The slots hold the published packets that are not yet reset, followed by those being copied. */
  ghost predicate Inv<P>(s: State<P>) {
    && Shaped(s)
    && s.read <= s.write == |s.pushed| <= s.read + s.cap && s.write < 0x1_0000_0000_0000_0000
    && s.popped == s.pushed[..s.read]
    && ProducerOk(s) && ConsumerOk(s)
    && Stored(s.slots, s.cap, s.read + Gone(s.consumer), s.pushed, Ahead(s.producer))
  }

  lemma InitInv<P>(cap: nat, blank: P)
    requires IsPow2(cap) && cap < 0x1_0000_0000_0000_0000
    ensures Inv(Init(cap, blank))
  {
  }

  /** Single or batch, a push takes what fits in the room left when read_pos was loaded. */
  lemma CountFits(single: bool, len: nat, cap: nat, w: nat, r: nat)
    requires r <= w <= r + cap && w < 0x1_0000_0000_0000_0000 && cap < 0x1_0000_0000_0000_0000
    requires single ==> len == 1
    ensures PushCount(single, len, cap, w, r) == Min(len, cap - (w - r))
  {
    Fits64(w - r);
    Fits64(cap - (w - r));
  }

  lemma PushLoadsKeep<P>(s: State<P>, e: Event<P>)
    requires Inv(s) && (e.PushLoadWrite? || e.PushLoadRead?)
    ensures Inv(Step(s, e))
  {
    if e.PushLoadRead? && s.producer.GotWrite? {
      CountFits(s.producer.single, |s.producer.batch|, s.cap, s.producer.w, s.read);
    }
  }

  lemma PopLoadsKeep<P>(s: State<P>, e: Event<P>)
    requires Inv(s) && (e.PopLoadRead? || e.PopLoadWrite?)
    ensures Inv(Step(s, e))
  {
    if e.PopLoadWrite? && s.consumer.GotRead? {
      Fits64(s.write - s.consumer.r);
    }
  }

  lemma CopyNext<P>(slots: seq<P>, cap: nat, from: nat, pushed: seq<P>, batch: seq<P>, i: nat)
    requires IsPow2(cap) && |slots| == cap && i < |batch| && from <= |pushed| && |pushed| + i < from + cap
    requires Stored(slots, cap, from, pushed, batch[..i])
    ensures Stored(slots[Index(|pushed| + i, cap) := batch[i]], cap, from, pushed, batch[..i + 1])
  {
    forall t | from <= t < |pushed| + i
      ensures Index(t, cap) != Index(|pushed| + i, cap)
    {
      if Index(t, cap) == Index(|pushed| + i, cap) {
        IndexInjective(t, |pushed| + i, cap);
      }
    }
  }

  lemma PushCopyKeeps<P>(s: State<P>, batch: seq<P>, w: nat, n: nat, i: nat)
    requires Inv(s) && s.producer == Copying(batch, w, n, i) && i < n
    ensures Inv(Step(s, PushCopy))
  {
    CopyNext(s.slots, s.cap, s.read + Gone(s.consumer), s.pushed, batch, i);
  }

  lemma Publish<P>(slots: seq<P>, cap: nat, from: nat, pushed: seq<P>, ahead: seq<P>)
    requires IsPow2(cap) && |slots| == cap && Stored(slots, cap, from, pushed, ahead)
    ensures Stored(slots, cap, from, pushed + ahead, [])
  {
  }

  lemma PushStoreKeeps<P>(s: State<P>, batch: seq<P>, w: nat, n: nat)
    requires Inv(s) && s.producer == Copying(batch, w, n, n)
    ensures Inv(Step(s, PushStore))
  {
    Publish(s.slots, s.cap, s.read + Gone(s.consumer), s.pushed, batch[..n]);
    assert (s.pushed + batch[..n])[..s.read] == s.pushed[..s.read];
  }

  lemma PopCopyKeeps<P>(s: State<P>, r: nat, n: nat, got: seq<P>)
    requires Inv(s) && s.consumer == Taking(r, n, got) && |got| < n
    ensures Inv(Step(s, PopCopy))
  {
    assert s.slots[Index(r + |got|, s.cap)] == PacketAt(s.pushed, Ahead(s.producer), r + |got|);
  }

  lemma ResetNext<P>(slots: seq<P>, cap: nat, from: nat, pushed: seq<P>, ahead: seq<P>, blank: P)
    requires IsPow2(cap) && |slots| == cap && Stored(slots, cap, from, pushed, ahead)
    ensures Stored(slots[Index(from, cap) := blank], cap, from + 1, pushed, ahead)
  {
    forall t | from + 1 <= t < |pushed| + |ahead|
      ensures Index(t, cap) != Index(from, cap)
    {
      if Index(t, cap) == Index(from, cap) {
        IndexInjective(t, from, cap);
      }
    }
  }

  lemma PopResetKeeps<P>(s: State<P>, r: nat, n: nat, got: seq<P>)
    requires Inv(s) && s.consumer == Resetting(r, n, got)
    ensures Inv(Step(s, PopReset))
  {
    ResetNext(s.slots, s.cap, r + |got| - 1, s.pushed, Ahead(s.producer), s.blank);
  }

  lemma PopStoreKeeps<P>(s: State<P>, r: nat, n: nat, got: seq<P>)
    requires Inv(s) && s.consumer == Taking(r, n, got) && |got| == n
    ensures Inv(Step(s, PopStore))
  {
    assert s.pushed[..r + n] == s.pushed[..r] + got;
  }

  lemma StepKeeps<P>(s: State<P>, e: Event<P>)
    requires Inv(s)
    ensures Inv(Step(s, e))
  {
    match e
    case PushCopy =>
      if s.producer.Copying? && s.producer.i < s.producer.n {
        PushCopyKeeps(s, s.producer.batch, s.producer.w, s.producer.n, s.producer.i);
      }
    case PushStore =>
      if s.producer.Copying? && s.producer.i == s.producer.n {
        PushStoreKeeps(s, s.producer.batch, s.producer.w, s.producer.n);
      }
    case PopCopy =>
      if s.consumer.Taking? && |s.consumer.got| < s.consumer.n {
        PopCopyKeeps(s, s.consumer.r, s.consumer.n, s.consumer.got);
      }
    case PopReset =>
      if s.consumer.Resetting? {
        PopResetKeeps(s, s.consumer.r, s.consumer.n, s.consumer.got);
      }
    case PopStore =>
      if s.consumer.Taking? && |s.consumer.got| == s.consumer.n {
        PopStoreKeeps(s, s.consumer.r, s.consumer.n, s.consumer.got);
      }
    case PushLoadWrite(_, _) => PushLoadsKeep(s, e);
    case PushLoadRead => PushLoadsKeep(s, e);
    case PopLoadRead(_) => PopLoadsKeep(s, e);
    case PopLoadWrite => PopLoadsKeep(s, e);
  }

  /** Every run from an empty ring keeps the invariant. */
  ghost function Run<P>(cap: nat, blank: P, es: seq<Event<P>>): (s: State<P>)
    requires IsPow2(cap) && cap < 0x1_0000_0000_0000_0000
    ensures Inv(s)
  {
    if es == [] then InitInv(cap, blank); Init(cap, blank)
    else
      var before := Run(cap, blank, es[..|es| - 1]);
      StepKeeps(before, es[|es| - 1]);
      Step(before, es[|es| - 1])
  }

  // ----- the guarantees -----

  /** After every interleaving the popped packets are a prefix of the pushed ones, the FIFO between them
      never exceeds the capacity, and every published packet not yet taken sits in its slot. */
  lemma PoppedIsPrefix<P>(cap: nat, blank: P, es: seq<Event<P>>)
    requires IsPow2(cap) && cap < 0x1_0000_0000_0000_0000
    ensures var s := Run(cap, blank, es);
            && s.popped <= s.pushed
            && s.read <= |s.pushed| && s.popped + Fifo(s) == s.pushed
            && |Fifo(s)| <= s.cap
  {
    var s := Run(cap, blank, es);
    assert s.pushed == s.pushed[..s.read] + s.pushed[s.read..];
  }

  lemma PushStoreAppends<P>(s: State<P>)
    requires Inv(s) && s.producer.Copying? && s.producer.i == s.producer.n
    ensures var t := Step(s, PushStore);
            t.read <= |t.pushed| && Fifo(t) == Fifo(s) + s.producer.batch[..s.producer.n] && t.popped == s.popped
  {
    assert (s.pushed + s.producer.batch[..s.producer.n])[s.read..] == s.pushed[s.read..] + s.producer.batch[..s.producer.n];
  }

  lemma PopStoreRemoves<P>(s: State<P>)
    requires Inv(s) && s.consumer.Taking? && |s.consumer.got| == s.consumer.n
    ensures var t := Step(s, PopStore); var n := s.consumer.n;
            && n <= |Fifo(s)| && s.consumer.got == Fifo(s)[..n]
            && t.read <= |t.pushed| && Fifo(t) == Fifo(s)[n..] && t.popped == s.popped + s.consumer.got
  {
    assert s.pushed[s.read..][..s.consumer.n] == s.pushed[s.read..s.read + s.consumer.n];
  }

  /** Each step of the ring is a step of a bounded FIFO: nothing, appending the packets of one push, or
      removing from the front exactly the packets one pop returns. */
  lemma RefinesFifo<P>(s: State<P>, e: Event<P>)
    requires Inv(s)
    ensures Inv(Step(s, e)) && |Fifo(Step(s, e))| <= s.cap
    ensures var t := Step(s, e);
            || (Fifo(t) == Fifo(s) && t.popped == s.popped && t.pushed == s.pushed)
            || (e == PushStore && s.producer.Copying? && s.producer.n <= |s.producer.batch|
                && Fifo(t) == Fifo(s) + s.producer.batch[..s.producer.n] && t.popped == s.popped)
            || (e == PopStore && s.consumer.Taking? && s.consumer.n <= |Fifo(s)|
                && s.consumer.got == Fifo(s)[..s.consumer.n]
                && Fifo(t) == Fifo(s)[s.consumer.n..] && t.popped == s.popped + s.consumer.got)
  {
    StepKeeps(s, e);
    if e.PushStore? && s.producer.Copying? && s.producer.i == s.producer.n {
      PushStoreAppends(s);
    } else if e.PopStore? && s.consumer.Taking? && |s.consumer.got| == s.consumer.n {
      PopStoreRemoves(s);
    }
  }

  /** The number of packets a call moves is decided when it loads the other side's position, and is the one
      a bounded FIFO would allow at that moment; one packet or a batch, the rule is the same. */
  lemma CountIsFifoCount<P>(s: State<P>)
    requires Inv(s)
    ensures s.producer.GotWrite? ==>
              var n := Min(|s.producer.batch|, s.cap - |Fifo(s)|);
              Step(s, PushLoadRead).producer == if n == 0 then Ready else Copying(s.producer.batch, s.write, n, 0)
    ensures s.consumer.GotRead? ==>
              var n := Min(s.consumer.max, |Fifo(s)|);
              Step(s, PopLoadWrite).consumer == if n == 0 then Waiting else Taking(s.read, n, [])
  {
    if s.producer.GotWrite? {
      PushCountIsFifoCount(s);
    }
    if s.consumer.GotRead? {
      Fits64(s.write - s.consumer.r);
    }
  }

  lemma PushCountIsFifoCount<P>(s: State<P>)
    requires Inv(s) && s.producer.GotWrite?
    ensures var n := Min(|s.producer.batch|, s.cap - |Fifo(s)|);
            Step(s, PushLoadRead).producer == if n == 0 then Ready else Copying(s.producer.batch, s.write, n, 0)
  {
    CountFits(s.producer.single, |s.producer.batch|, s.cap, s.producer.w, s.read);
  }

  /** The slot the producer is about to write and the slot the consumer is about to read or reset never
      coincide. */
  lemma SlotsNeverCoincide<P>(s: State<P>)
    requires Inv(s) && s.producer.Copying? && s.producer.i < s.producer.n
    ensures s.consumer.Taking? && |s.consumer.got| < s.consumer.n ==>
              Index(s.producer.w + s.producer.i, s.cap) != Index(s.consumer.r + |s.consumer.got|, s.cap)
    ensures s.consumer.Resetting? ==>
              Index(s.producer.w + s.producer.i, s.cap) != Index(s.consumer.r + |s.consumer.got| - 1, s.cap)
  {
    var at := s.producer.w + s.producer.i;
    if s.consumer.Taking? && |s.consumer.got| < s.consumer.n {
      var from := s.consumer.r + |s.consumer.got|;
      if Index(at, s.cap) == Index(from, s.cap) {
        IndexInjective(at, from, s.cap);
      }
    }
    if s.consumer.Resetting? {
      var from := s.consumer.r + |s.consumer.got| - 1;
      if Index(at, s.cap) == Index(from, s.cap) {
        IndexInjective(at, from, s.cap);
      }
    }
  }

  // ----- every call completes -----

  lemma StepShaped<P>(s: State<P>, e: Event<P>)
    requires Shaped(s)
    ensures Shaped(Step(s, e))
  {
  }

  /** After `k` more copies of a push. */
  ghost function CopyMore<P>(s: State<P>, k: nat): (t: State<P>)
    requires Shaped(s)
    ensures Shaped(t)
    decreases k
  {
    if k == 0 then s
    else
      StepShaped(CopyMore(s, k - 1), PushCopy);
      Step(CopyMore(s, k - 1), PushCopy)
  }

  /** `t` is `s` after `k` more packets of the push have been copied; nothing has been published or taken. */
  ghost predicate CopiedOn<P>(s: State<P>, t: State<P>, k: nat) {
    && s.producer.Copying?
    && t.producer == Copying(s.producer.batch, s.producer.w, s.producer.n, s.producer.i + k)
    && t.pushed == s.pushed && t.popped == s.popped
  }

  lemma CopyOneMore<P>(s: State<P>, t: State<P>, k: nat)
    requires Shaped(t) && CopiedOn(s, t, k) && s.producer.i + k < s.producer.n <= |s.producer.batch|
    ensures CopiedOn(s, Step(t, PushCopy), k + 1)
  {
  }

  lemma {:induction false} CopiesDone<P>(s: State<P>, k: nat)
    requires Shaped(s) && s.producer.Copying? && s.producer.i + k <= s.producer.n <= |s.producer.batch|
    ensures CopiedOn(s, CopyMore(s, k), k)
    decreases k
  {
    if k > 0 {
      CopiesDone(s, k - 1);
      CopyOneMore(s, CopyMore(s, k - 1), k - 1);
    }
  }

  /** A push, single or batch, publishes exactly the packets that fit when it looked: two loads, one copy for each,
      and one store. */
  lemma PushCompletes<P>(s: State<P>, batch: seq<P>, single: bool)
    requires Inv(s) && s.producer.Ready? && (single ==> |batch| == 1)
    requires s.write + |batch| < 0x1_0000_0000_0000_0000 && batch != [] && |Fifo(s)| < s.cap
    ensures var n := Min(|batch|, s.cap - |Fifo(s)|); var loaded := Step(Step(s, PushLoadWrite(batch, single)), PushLoadRead);
            && Inv(loaded)
            && var t := Step(CopyMore(loaded, n), PushStore);
            && t.pushed == s.pushed + batch[..n] && t.popped == s.popped && t.producer == Ready
  {
    var n := Min(|batch|, s.cap - |Fifo(s)|);
    var s1 := Step(s, PushLoadWrite(batch, single));
    StepKeeps(s, PushLoadWrite(batch, single));
    StepKeeps(s1, PushLoadRead);
    CountIsFifoCount(s1);
    CopiesDone(Step(s1, PushLoadRead), n);
  }

  /** After `k` more packets of a pop, each copied out and its slot reset. */
  ghost function TakeMore<P>(s: State<P>, k: nat): (t: State<P>)
    requires Shaped(s)
    ensures Shaped(t)
    decreases k
  {
    if k == 0 then s
    else
      var before := TakeMore(s, k - 1);
      StepShaped(before, PopCopy);
      StepShaped(Step(before, PopCopy), PopReset);
      Step(Step(before, PopCopy), PopReset)
  }

  lemma {:induction false} TakeMoreKeeps<P>(s: State<P>, k: nat)
    requires Inv(s)
    ensures Inv(TakeMore(s, k))
    decreases k
  {
    if k > 0 {
      TakeMoreKeeps(s, k - 1);
      StepKeeps(TakeMore(s, k - 1), PopCopy);
      StepKeeps(Step(TakeMore(s, k - 1), PopCopy), PopReset);
    }
  }

  /** `t` is `s` after `k` more packets of the pop; nothing has been published or given back. */
  ghost predicate TakenOn<P>(s: State<P>, t: State<P>, k: nat) {
    && s.consumer.Taking? && t.consumer.Taking?
    && t.consumer.n == s.consumer.n && |t.consumer.got| == |s.consumer.got| + k
    && t.pushed == s.pushed && t.popped == s.popped && t.read == s.read
  }

  lemma TakeOneMore<P>(s: State<P>, t: State<P>, k: nat)
    requires Shaped(t) && TakenOn(s, t, k) && |s.consumer.got| + k < s.consumer.n
    ensures Shaped(Step(t, PopCopy)) && TakenOn(s, Step(Step(t, PopCopy), PopReset), k + 1)
  {
  }

  lemma {:induction false} TakesDone<P>(s: State<P>, k: nat)
    requires Shaped(s) && s.consumer.Taking? && |s.consumer.got| + k <= s.consumer.n
    ensures TakenOn(s, TakeMore(s, k), k)
    decreases k
  {
    if k > 0 {
      TakesDone(s, k - 1);
      TakeOneMore(s, TakeMore(s, k - 1), k - 1);
    }
  }

  /** The end of a pop that has loaded both positions. */
  lemma TakenAndStored<P>(s: State<P>, n: nat)
    requires Inv(s) && s.consumer == Taking(s.read, n, [])
    ensures n <= |Fifo(s)|
    ensures var t := Step(TakeMore(s, n), PopStore);
            t.popped == s.popped + Fifo(s)[..n] && t.pushed == s.pushed && t.consumer == Waiting
  {
    TakesDone(s, n);
    TakeMoreKeeps(s, n);
    PopStoreRemoves(TakeMore(s, n));
  }

  /** A pop, single or batch, returns exactly the oldest packets, as many as were there when it looked. */
  lemma PopCompletes<P>(s: State<P>, max: nat)
    requires Inv(s) && s.consumer.Waiting? && max > 0 && Fifo(s) != []
    ensures var n := Min(max, |Fifo(s)|); var loaded := Step(Step(s, PopLoadRead(max)), PopLoadWrite);
            && Inv(loaded)
            && var t := Step(TakeMore(loaded, n), PopStore);
            && t.popped == s.popped + Fifo(s)[..n] && t.pushed == s.pushed && t.consumer == Waiting
  {
    var n := Min(max, |Fifo(s)|);
    var s1 := Step(s, PopLoadRead(max));
    StepKeeps(s, PopLoadRead(max));
    StepKeeps(s1, PopLoadWrite);
    CountIsFifoCount(s1);
    TakenAndStored(Step(s1, PopLoadWrite), n);
  }
}
