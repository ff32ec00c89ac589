/** TcpRetransmissionQueue (include/usn/protocol/tcp_retransmission.hpp): segments waiting for an
    acknowledgement, dropped from the front by cumulative acks, and collected with exponential
    backoff (section 5 of RFC 6298) when their deadline passes. */
module Retransmission {
  import opened Words

  datatype Entry = Entry(seqStart: nat, seqEnd: nat, deadline: nat, retries: nat)

  function NewEntry(seqStart: nat, len: nat, now: nat, rto: nat): Entry {
    Entry(seqStart, Add32(seqStart, len), now + rto, 0)
  }

  // ----- ack_up_to -----

  function DropAcked(q: seq<Entry>, ack: nat): seq<Entry> {
    if q != [] && q[0].seqEnd <= ack then DropAcked(q[1..], ack) else q
  }

  function Unacked(q: seq<Entry>, ack: nat): seq<Entry> {
    if q == [] then []
    else (if q[0].seqEnd > ack then [q[0]] else []) + Unacked(q[1..], ack)
  }

  ghost predicate Sorted(q: seq<Entry>) {
    forall i, j :: 0 <= i < j < |q| ==> q[i].seqStart < q[j].seqStart && q[i].seqEnd < q[j].seqEnd
  }

  lemma {:induction false} UnackedKeepsAll(q: seq<Entry>, ack: nat)
    requires forall i :: 0 <= i < |q| ==> q[i].seqEnd > ack
    ensures Unacked(q, ack) == q
  {
    if q != [] {
      UnackedKeepsAll(q[1..], ack);
    }
  }

  /** On a sorted queue the front-only `ack_up_to` removes exactly the entries that end at or below the
      acknowledged number, wherever they are. */
  lemma {:induction false} AckIsFilter(q: seq<Entry>, ack: nat)
    requires Sorted(q)
    ensures DropAcked(q, ack) == Unacked(q, ack)
  {
    if q != [] {
      if q[0].seqEnd <= ack {
        AckIsFilter(q[1..], ack);
      } else {
        UnackedKeepsAll(q, ack);
      }
    }
  }

  lemma {:induction false} DropAckedIsSuffix(q: seq<Entry>, ack: nat)
    ensures var d := DropAcked(q, ack); |d| <= |q| && d == q[|q| - |d|..]
    ensures var d := DropAcked(q, ack); d != [] ==> d[0].seqEnd > ack
    ensures var d := DropAcked(q, ack); forall i :: 0 <= i < |q| - |d| ==> q[i].seqEnd <= ack
  {
    if q != [] && q[0].seqEnd <= ack {
      DropAckedIsSuffix(q[1..], ack);
    }
  }

  lemma DropAckedMembers(q: seq<Entry>, ack: nat, e: Entry)
    requires Sorted(q)
    ensures Sorted(DropAcked(q, ack))
    ensures e in DropAcked(q, ack) <==> e in q && e.seqEnd > ack
  {
    DropAckedIsSuffix(q, ack);
    var d := DropAcked(q, ack);
    if e in q && e.seqEnd > ack {
      var i :| 0 <= i < |q| && q[i] == e;
      assert d[i - (|q| - |d|)] == e;
    }
    if e in d {
      var i :| 0 <= i < |d| && d[i] == e;
      assert d[0].seqEnd <= d[i].seqEnd;
    }
  }

  // ----- collect_due -----

  predicate IsDue(e: Entry, now: nat) {
    e.deadline <= now
  }

  function Backoff(base: nat, retries: nat): nat {
    base * Pow2(if retries > 8 then 8 else retries)
  }

  predicate Survives(e: Entry, now: nat, maxRetries: nat) {
    !(IsDue(e, now) && e.retries >= maxRetries)
  }

  function After(e: Entry, now: nat, base: nat): Entry {
    if IsDue(e, now) then e.(retries := e.retries + 1, deadline := now + Backoff(base, e.retries + 1)) else e
  }

  function DuePart(e: Entry, now: nat, maxRetries: nat): seq<Entry> {
    if IsDue(e, now) && e.retries < maxRetries then [e] else []
  }

  function KeptPart(e: Entry, now: nat, base: nat, maxRetries: nat): seq<Entry> {
    if Survives(e, now, maxRetries) then [After(e, now, base)] else []
  }

  /** The entries `collect_due` returns, as they were before their retry count was raised. */
  function Due(q: seq<Entry>, now: nat, maxRetries: nat): seq<Entry> {
    if q == [] then [] else DuePart(q[0], now, maxRetries) + Due(q[1..], now, maxRetries)
  }

  /** The queue `collect_due` leaves. */
  function Kept(q: seq<Entry>, now: nat, base: nat, maxRetries: nat): seq<Entry> {
    if q == [] then [] else KeptPart(q[0], now, base, maxRetries) + Kept(q[1..], now, base, maxRetries)
  }

  lemma {:induction false} DueMembers(q: seq<Entry>, now: nat, maxRetries: nat, e: Entry)
    ensures e in Due(q, now, maxRetries) <==> e in q && IsDue(e, now) && e.retries < maxRetries
  {
    if q != [] {
      DueMembers(q[1..], now, maxRetries, e);
      assert e in q <==> e == q[0] || e in q[1..];
    }
  }

  lemma {:induction false} KeptFrom(q: seq<Entry>, now: nat, base: nat, maxRetries: nat, f: Entry) returns (e: Entry)
    requires f in Kept(q, now, base, maxRetries)
    ensures e in q && Survives(e, now, maxRetries) && f == After(e, now, base)
  {
    if f in KeptPart(q[0], now, base, maxRetries) {
      e := q[0];
    } else {
      assert f in Kept(q[1..], now, base, maxRetries);
      e := KeptFrom(q[1..], now, base, maxRetries, f);
    }
  }

  lemma {:induction false} KeptContains(q: seq<Entry>, now: nat, base: nat, maxRetries: nat, e: Entry)
    requires e in q && Survives(e, now, maxRetries)
    ensures After(e, now, base) in Kept(q, now, base, maxRetries)
  {
    if e != q[0] {
      assert e in q[1..];
      KeptContains(q[1..], now, base, maxRetries, e);
    }
  }

  lemma BackoffDoubles(base: nat, k: nat)
    ensures Backoff(base, k) == if k <= 8 then base * Pow2(k) else 256 * base
  {
    assert Pow2(8) == 256;
  }

  /** Where every entry left by `collect_due` comes from: not due and untouched, or due with retries left, in
      which case its k-th retry is due again after exactly base * 2^k ms, 256 * base beyond the eighth. */
  lemma KeptExactly(q: seq<Entry>, now: nat, base: nat, maxRetries: nat, f: Entry)
    ensures f in Kept(q, now, base, maxRetries) <==>
            || (f in q && f.deadline > now)
            || exists e :: e in q && Rescheduled(e, f, now, base, maxRetries)
  {
    if f in Kept(q, now, base, maxRetries) {
      var e := KeptFrom(q, now, base, maxRetries, f);
      BackoffDoubles(base, e.retries + 1);
      assert IsDue(e, now) ==> Rescheduled(e, f, now, base, maxRetries);
    }
    if f in q && f.deadline > now {
      KeptContains(q, now, base, maxRetries, f);
    }
    if e :| e in q && Rescheduled(e, f, now, base, maxRetries) {
      BackoffDoubles(base, e.retries + 1);
      KeptContains(q, now, base, maxRetries, e);
    }
  }

  /** `e` was due with retries left and `f` is the same segment after one more. */
  ghost predicate Rescheduled(e: Entry, f: Entry, now: nat, base: nat, maxRetries: nat) {
    && e.deadline <= now && e.retries < maxRetries
    && f.seqStart == e.seqStart && f.seqEnd == e.seqEnd && f.retries == e.retries + 1
    && f.deadline == now + (if f.retries <= 8 then base * Pow2(f.retries) else 256 * base)
  }

  /** What `collect_due` returns keeps the order of the queue. */
  lemma {:induction false} DueSorted(q: seq<Entry>, now: nat, maxRetries: nat)
    requires Sorted(q)
    ensures Sorted(Due(q, now, maxRetries))
  {
    if q != [] {
      var first, rest := DuePart(q[0], now, maxRetries), Due(q[1..], now, maxRetries);
      DueSorted(q[1..], now, maxRetries);
      forall i | 0 <= i < |rest|
        ensures q[0].seqStart < rest[i].seqStart && q[0].seqEnd < rest[i].seqEnd
      {
        DueMembers(q[1..], now, maxRetries, rest[i]);
        var j :| 0 <= j < |q[1..]| && q[1..][j] == rest[i];
        assert q[j + 1] == rest[i];
      }
      assert first + rest == if first == [] then rest else [q[0]] + rest;
    }
  }

  lemma {:induction false} KeptSorted(q: seq<Entry>, now: nat, base: nat, maxRetries: nat)
    requires Sorted(q)
    ensures Sorted(Kept(q, now, base, maxRetries))
  {
    if q != [] {
      var first, rest := KeptPart(q[0], now, base, maxRetries), Kept(q[1..], now, base, maxRetries);
      KeptSorted(q[1..], now, base, maxRetries);
      forall i | 0 <= i < |rest|
        ensures q[0].seqStart < rest[i].seqStart && q[0].seqEnd < rest[i].seqEnd
      {
        var e := KeptFrom(q[1..], now, base, maxRetries, rest[i]);
        var j :| 0 <= j < |q[1..]| && q[1..][j] == e;
        assert q[j + 1] == e;
      }
      var all := first + rest;
      forall i, j | 0 <= i < j < |all|
        ensures all[i].seqStart < all[j].seqStart && all[i].seqEnd < all[j].seqEnd
      {
        assert all[j] == rest[j - |first|];
        if i >= |first| {
          assert all[i] == rest[i - |first|];
        }
      }
    }
  }

  /** Whatever `collect_due` did, a second call at the same time returns nothing and changes nothing. */
  lemma {:induction false} CollectIsIdempotent(q: seq<Entry>, now: nat, base: nat, maxRetries: nat, base': nat, maxRetries': nat)
    requires base > 0
    ensures var k := Kept(q, now, base, maxRetries);
            Due(k, now, maxRetries') == [] && Kept(k, now, base', maxRetries') == k
  {
    if q != [] {
      CollectIsIdempotent(q[1..], now, base, maxRetries, base', maxRetries');
      BackoffPositive(base, q[0].retries + 1);
      if Survives(q[0], now, maxRetries) {
        var k := Kept(q, now, base, maxRetries);
        assert k[1..] == Kept(q[1..], now, base, maxRetries);
      } else {
        assert Kept(q, now, base, maxRetries) == Kept(q[1..], now, base, maxRetries);
      }
    }
  }

  lemma BackoffPositive(base: nat, retries: nat)
    requires base > 0
    ensures Backoff(base, retries) > 0
  {
    var p := Pow2(if retries > 8 then 8 else retries);
    MulMono(1, base, p);
  }

  /** The sequence numbers under tracking. */
  function Starts(q: seq<Entry>): set<nat> {
    set e | e in q :: e.seqStart
  }

  /** A scan of `q` that has already settled `done` and `due` and still has `todo` to visit. */
  ghost predicate Scanning(done: seq<Entry>, todo: seq<Entry>, due: seq<Entry>, q: seq<Entry>,
                           now: nat, base: nat, maxRetries: nat)
  {
    && due + Due(todo, now, maxRetries) == Due(q, now, maxRetries)
    && done + Kept(todo, now, base, maxRetries) == Kept(q, now, base, maxRetries)
  }

  lemma ScanStep(done: seq<Entry>, todo: seq<Entry>, due: seq<Entry>, q: seq<Entry>,
                 now: nat, base: nat, maxRetries: nat)
    requires todo != [] && Scanning(done, todo, due, q, now, base, maxRetries)
    ensures Scanning(done + KeptPart(todo[0], now, base, maxRetries), todo[1..],
                     due + DuePart(todo[0], now, maxRetries), q, now, base, maxRetries)
  {
  }

  class TcpRetransmissionQueue {
    var entries: seq<Entry>

    constructor ()
      ensures entries == []
    {
      entries := [];
    }

    method TrackSegment(seqStart: nat, len: nat, now: nat, rto: nat)
      modifies this
      ensures entries == old(entries) + [NewEntry(seqStart, len, now, rto)]
    {
      entries := entries + [Entry(seqStart, Add32(seqStart, len), now + rto, 0)];
    }

    method AckUpTo(ack: nat) returns (removed: nat)
      modifies this
      ensures entries == DropAcked(old(entries), ack)
      ensures removed == |old(entries)| - |entries|
    {
      removed := 0;
      while entries != [] && entries[0].seqEnd <= ack
        invariant DropAcked(entries, ack) == DropAcked(old(entries), ack)
        invariant removed == |old(entries)| - |entries|
        decreases |entries|
      {
        entries := entries[1..];
        removed := removed + 1;
      }
    }

    method CollectDue(now: nat, base: nat, maxRetries: nat) returns (due: seq<Entry>)
      modifies this
      ensures due == Due(old(entries), now, maxRetries)
      ensures entries == Kept(old(entries), now, base, maxRetries)
    {
      due := [];
      var i := 0;
      while i < |entries|
        invariant 0 <= i <= |entries|
        invariant Scanning(entries[..i], entries[i..], due, old(entries), now, base, maxRetries)
        decreases |entries| - i
      {
        var entry := entries[i];
        ghost var done, todo := entries[..i], entries[i..];
        ScanStep(done, todo, due, old(entries), now, base, maxRetries);
        if entry.deadline <= now {
          if entry.retries >= maxRetries {
            entries := entries[..i] + entries[i + 1..];
            assert entries[..i] == done + [] && entries[i..] == todo[1..];
            assert due + [] == due;
            continue;
          }
          due := due + [entry];
          entries := entries[i := entry.(retries := entry.retries + 1,
                                         deadline := now + Backoff(base, entry.retries + 1))];
        } else {
          assert due + [] == due;
        }
        i := i + 1;
        assert entries[..i] == done + [After(entry, now, base)] && entries[i..] == todo[1..];
      }
      assert entries[..i] == entries && entries[i..] == [];
    }

    method Contains(seqStart: nat) returns (found: bool)
      ensures found <==> seqStart in Starts(entries)
    {
      for i := 0 to |entries|
        invariant forall j :: 0 <= j < i ==> entries[j].seqStart != seqStart
      {
        if entries[i].seqStart == seqStart {
          assert entries[i] in entries;
          return true;
        }
      }
      found := false;
    }
  }
}
