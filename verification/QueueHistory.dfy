/** The retransmission queue joined with its history: which request every entry belongs to, when it
    was sent, and at which times it was collected as due. */
module QueueHistory {
  import opened Words
  import opened Retransmission
  import opened OrderProtocol

  /** Least time between sending a request and its k-th retransmission, in ms: 50 * (2^k - 1). */
  function Wait(k: nat): int {
    50 * (Pow2(k) - 1)
  }

  /** When request `i` was last written: sent, or collected as due. */
  function LastWrite(i: nat, sentAt: seq<nat>, collected: seq<seq<nat>>): nat
    requires i < |sentAt| && i < |collected|
  {
    if collected[i] == [] then sentAt[i] else collected[i][|collected[i]| - 1]
  }

  /** `e` is the entry of request `i`: collected `retries` times, next due no sooner than backoff allows, and
      one timeout in [50, 5000], doubled `retries` times, after it was last written. */
  ghost predicate Tracks(e: Entry, i: nat, sentAt: seq<nat>, collected: seq<seq<nat>>) {
    && i < |sentAt| && i < |collected|
    && e.seqStart == SeqOf(i) && e.seqEnd == SeqOf(i) + 40
    && e.retries == |collected[i]| <= 5
    && e.deadline >= sentAt[i] + Wait(e.retries + 1)
    && 50 * Pow2(e.retries) <= e.deadline - LastWrite(i, sentAt, collected) <= 5000 * Pow2(e.retries)
  }

  ghost predicate QueueOk(q: seq<Entry>, sentAt: seq<nat>, collected: seq<seq<nat>>) {
    Sorted(q) && forall e :: e in q ==> exists i: nat :: Tracks(e, i, sentAt, collected)
  }

  /** At most five collections of each request, each no sooner than exponential backoff allows. */
  ghost predicate TimesOk(sentAt: seq<nat>, collected: seq<seq<nat>>) {
    && |sentAt| == |collected|
    && (forall i :: 0 <= i < |collected| ==> |collected[i]| <= 5)
    && (forall i, k :: 0 <= i < |collected| && 0 <= k < |collected[i]| ==>
          collected[i][k] >= sentAt[i] + Wait(k + 1))
  }

  /** Request `i`, at sequence number `k`, was given up at `time`, after five collections. */
  ghost predicate Abandoned(k: nat, time: nat, i: nat, sentAt: seq<nat>, collected: seq<seq<nat>>) {
    && i < |sentAt| && i < |collected|
    && k == SeqOf(i)
    && |collected[i]| == 5
    && time >= sentAt[i] + 3150
  }

  ghost predicate GivenUpOk(givenUp: map<nat, nat>, q: seq<Entry>, sentAt: seq<nat>, collected: seq<seq<nat>>) {
    forall k :: k in givenUp ==>
      k !in Starts(q) && exists i: nat :: Abandoned(k, givenUp[k], i, sentAt, collected)
  }

  lemma UniqueStart(q: seq<Entry>, e: Entry, f: Entry)
    requires Sorted(q) && e in q && f in q && e.seqStart == f.seqStart
    ensures e == f
  {
    var i :| 0 <= i < |q| && q[i] == e;
    var j :| 0 <= j < |q| && q[j] == f;
    assert i == j;
  }

  lemma StartsCons(e: Entry, q: seq<Entry>)
    ensures Starts([e] + q) == {e.seqStart} + Starts(q)
  {
  }

  lemma FirstStartIsNew(q: seq<Entry>)
    requires Sorted(q) && q != []
    ensures q[0].seqStart !in Starts(q[1..])
  {
    forall e | e in q[1..]
      ensures e.seqStart != q[0].seqStart
    {
      var j :| 0 <= j < |q[1..]| && q[1..][j] == e;
      assert q[0].seqStart < q[j + 1].seqStart;
    }
  }

  lemma {:induction false} StartsCount(q: seq<Entry>)
    requires Sorted(q)
    ensures |Starts(q)| == |q|
  {
    if q != [] {
      StartsCount(q[1..]);
      FirstStartIsNew(q);
      StartsCons(q[0], q[1..]);
      assert q == [q[0]] + q[1..];
    }
  }

  lemma DueStarts(q: seq<Entry>, now: nat, e: Entry)
    requires Sorted(q) && e in q
    ensures e.seqStart in Starts(Due(q, now, 5)) <==> IsDue(e, now) && e.retries < 5
  {
    DueMembers(q, now, 5, e);
    if e.seqStart in Starts(Due(q, now, 5)) {
      var f :| f in Due(q, now, 5) && f.seqStart == e.seqStart;
      DueMembers(q, now, 5, f);
      UniqueStart(q, e, f);
    }
  }

  lemma NotTrackedNotDue(q: seq<Entry>, now: nat, k: nat)
    requires k !in Starts(q)
    ensures k !in Starts(Due(q, now, 5))
  {
    if k in Starts(Due(q, now, 5)) {
      var f :| f in Due(q, now, 5) && f.seqStart == k;
      DueMembers(q, now, 5, f);
    }
  }

  lemma BackoffStep(base: nat, r: nat)
    requires base >= 50 && r < 5
    ensures Wait(r + 2) <= Wait(r + 1) + Backoff(base, r + 1)
  {
    MulMono(50, base, Pow2(r + 1));
  }

  lemma BackoffRange(base: nat, k: nat)
    requires 50 <= base <= 5000 && k <= 8
    ensures 50 * Pow2(k) <= Backoff(base, k) <= 5000 * Pow2(k)
  {
    MulMono(50, base, Pow2(k));
    MulMono(base, 5000, Pow2(k));
  }

  lemma CollectTracks(q: seq<Entry>, e: Entry, i: nat, sentAt: seq<nat>, collected: seq<seq<nat>>, now: nat, base: nat)
    requires Sorted(q) && e in q && Tracks(e, i, sentAt, collected) && 50 <= base <= 5000
    requires Survives(e, now, 5)
    ensures Tracks(After(e, now, base), i, sentAt, Collect(collected, q, now))
  {
    DueStarts(q, now, e);
    if IsDue(e, now) {
      BackoffStep(base, e.retries);
      BackoffRange(base, e.retries + 1);
    }
  }

  lemma CollectKeepsQueue(q: seq<Entry>, sentAt: seq<nat>, collected: seq<seq<nat>>, now: nat, base: nat)
    requires QueueOk(q, sentAt, collected) && 50 <= base <= 5000
    ensures QueueOk(Kept(q, now, base, 5), sentAt, Collect(collected, q, now))
  {
    KeptSorted(q, now, base, 5);
    forall f | f in Kept(q, now, base, 5)
      ensures exists i: nat :: Tracks(f, i, sentAt, Collect(collected, q, now))
    {
      var e := KeptFrom(q, now, base, 5, f);
      var i: nat :| Tracks(e, i, sentAt, collected);
      CollectTracks(q, e, i, sentAt, collected, now, base);
    }
  }

  lemma CollectKeepsTimes(q: seq<Entry>, sentAt: seq<nat>, collected: seq<seq<nat>>, now: nat)
    requires QueueOk(q, sentAt, collected) && TimesOk(sentAt, collected)
    ensures TimesOk(sentAt, Collect(collected, q, now))
  {
    var after := Collect(collected, q, now);
    forall i | 0 <= i < |after|
      ensures |after[i]| <= 5 && forall k :: 0 <= k < |after[i]| ==> after[i][k] >= sentAt[i] + Wait(k + 1)
    {
      if SeqOf(i) in Starts(Due(q, now, 5)) {
        CollectedTime(q, sentAt, collected, now, i);
      }
    }
  }

  lemma CollectedTime(q: seq<Entry>, sentAt: seq<nat>, collected: seq<seq<nat>>, now: nat, i: nat)
    requires QueueOk(q, sentAt, collected) && i < |collected| && SeqOf(i) in Starts(Due(q, now, 5))
    ensures i < |sentAt| && |collected[i]| < 5 && now >= sentAt[i] + Wait(|collected[i]| + 1)
  {
    var e :| e in Due(q, now, 5) && e.seqStart == SeqOf(i);
    DueMembers(q, now, 5, e);
    var j: nat :| Tracks(e, j, sentAt, collected);
    assert i == j;
  }

  lemma SurvivorKeepsStart(q: seq<Entry>, now: nat, base: nat, e: Entry)
    requires e in q
    ensures Survives(e, now, 5) ==> e.seqStart in Starts(Kept(q, now, base, 5))
  {
    if Survives(e, now, 5) {
      KeptContains(q, now, base, 5, e);
      assert After(e, now, base).seqStart == e.seqStart;
    }
  }

  /** Only an entry that was collected five times, and has waited at least 3150 ms, is given up. */
  lemma DroppedIsAbandoned(q: seq<Entry>, sentAt: seq<nat>, collected: seq<seq<nat>>, now: nat, base: nat, k: nat)
    requires QueueOk(q, sentAt, collected)
    requires k in Starts(q) && k !in Starts(Kept(q, now, base, 5))
    ensures exists i: nat :: Abandoned(k, now, i, sentAt, Collect(collected, q, now))
  {
    var e :| e in q && e.seqStart == k;
    SurvivorKeepsStart(q, now, base, e);
    var i: nat :| Tracks(e, i, sentAt, collected);
    DueStarts(q, now, e);
    assert Pow2(6) == 64;
    assert Abandoned(k, now, i, sentAt, Collect(collected, q, now));
  }

  lemma KeptStartsShrink(q: seq<Entry>, now: nat, base: nat)
    ensures Starts(Kept(q, now, base, 5)) <= Starts(q)
  {
    forall k | k in Starts(Kept(q, now, base, 5))
      ensures k in Starts(q)
    {
      var f :| f in Kept(q, now, base, 5) && f.seqStart == k;
      var e := KeptFrom(q, now, base, 5, f);
    }
  }

  lemma CollectKeepsGivenUp(givenUp: map<nat, nat>, q: seq<Entry>, sentAt: seq<nat>, collected: seq<seq<nat>>,
                            now: nat, base: nat)
    requires QueueOk(q, sentAt, collected) && GivenUpOk(givenUp, q, sentAt, collected)
    ensures var kept := Kept(q, now, base, 5);
            GivenUpOk(GiveUp(givenUp, q, kept, now), kept, sentAt, Collect(collected, q, now))
  {
    var kept := Kept(q, now, base, 5);
    var all := GiveUp(givenUp, q, kept, now);
    KeptStartsShrink(q, now, base);
    forall k | k in all
      ensures k !in Starts(kept) && exists i: nat :: Abandoned(k, all[k], i, sentAt, Collect(collected, q, now))
    {
      if k in Starts(q) {
        assert k !in givenUp && k !in Starts(kept) && all[k] == now;
        DroppedIsAbandoned(q, sentAt, collected, now, base, k);
      } else {
        var i: nat :| Abandoned(k, givenUp[k], i, sentAt, collected);
        NotTrackedNotDue(q, now, k);
        assert Abandoned(k, all[k], i, sentAt, Collect(collected, q, now));
      }
    }
  }

  lemma TrackKeepsEntry(f: Entry, sentAt: seq<nat>, collected: seq<seq<nat>>, now: nat)
    requires |sentAt| == |collected| && exists i: nat :: Tracks(f, i, sentAt, collected)
    ensures exists i: nat :: Tracks(f, i, sentAt + [now], collected + [[]])
    ensures f.seqStart < SeqOf(|sentAt|) && f.seqEnd <= SeqOf(|sentAt|)
  {
    var i: nat :| Tracks(f, i, sentAt, collected);
    assert Tracks(f, i, sentAt + [now], collected + [[]]);
  }

  lemma SortedAppend(q: seq<Entry>, e: Entry)
    requires Sorted(q) && forall f :: f in q ==> f.seqStart < e.seqStart && f.seqEnd < e.seqEnd
    ensures Sorted(q + [e])
  {
    assert forall i :: 0 <= i < |q| ==> q[i] in q;
  }

  lemma StartsAppend(q: seq<Entry>, e: Entry)
    ensures Starts(q + [e]) == Starts(q) + {e.seqStart}
  {
  }

  lemma NewEntryTracks(sentAt: seq<nat>, collected: seq<seq<nat>>, now: nat, rto: nat)
    requires |sentAt| == |collected| && 50 <= rto <= 5000 && SeqOf(|sentAt| + 1) < 0x1_0000_0000
    ensures Tracks(NewEntry(SeqOf(|sentAt|), 40, now, rto), |sentAt|, sentAt + [now], collected + [[]])
  {
    Fits32(SeqOf(|sentAt|) + 40);
    assert Pow2(0) == 1 && Pow2(1) == 2;
  }

  /** Sending one more request, tracked with a timeout in [50, 5000]: the queue. */
  lemma TrackKeeps(q: seq<Entry>, sentAt: seq<nat>, collected: seq<seq<nat>>, now: nat, rto: nat)
    requires QueueOk(q, sentAt, collected) && |sentAt| == |collected|
    requires 50 <= rto <= 5000 && SeqOf(|sentAt| + 1) < 0x1_0000_0000
    ensures var q' := q + [NewEntry(SeqOf(|sentAt|), 40, now, rto)];
            && QueueOk(q', sentAt + [now], collected + [[]])
            && Starts(q') == Starts(q) + {SeqOf(|sentAt|)} && SeqOf(|sentAt|) !in Starts(q)
  {
    var e := NewEntry(SeqOf(|sentAt|), 40, now, rto);
    NewEntryTracks(sentAt, collected, now, rto);
    forall f | f in q
      ensures exists i: nat :: Tracks(f, i, sentAt + [now], collected + [[]])
      ensures f.seqStart < e.seqStart && f.seqEnd < e.seqEnd
    {
      TrackKeepsEntry(f, sentAt, collected, now);
    }
    SortedAppend(q, e);
    StartsAppend(q, e);
  }

  /** The collection times. */
  lemma TrackKeepsTimes(sentAt: seq<nat>, collected: seq<seq<nat>>, now: nat)
    requires TimesOk(sentAt, collected)
    ensures TimesOk(sentAt + [now], collected + [[]])
  {
  }

  /** The given-up records. */
  lemma TrackKeepsGivenUp(givenUp: map<nat, nat>, q: seq<Entry>, q': seq<Entry>, sentAt: seq<nat>,
                          collected: seq<seq<nat>>, now: nat)
    requires GivenUpOk(givenUp, q, sentAt, collected) && |sentAt| == |collected|
    requires Starts(q') == Starts(q) + {SeqOf(|sentAt|)}
    ensures GivenUpOk(givenUp, q', sentAt + [now], collected + [[]])
  {
    forall k | k in givenUp
      ensures k !in Starts(q') && exists i: nat :: Abandoned(k, givenUp[k], i, sentAt + [now], collected + [[]])
    {
      var i: nat :| Abandoned(k, givenUp[k], i, sentAt, collected);
      assert Abandoned(k, givenUp[k], i, sentAt + [now], collected + [[]]);
    }
  }

  /** A cumulative acknowledgement removes exactly the requests that end at or below it. */
  lemma AckKeeps(givenUp: map<nat, nat>, q: seq<Entry>, sentAt: seq<nat>, collected: seq<seq<nat>>, ack: nat)
    requires QueueOk(q, sentAt, collected) && GivenUpOk(givenUp, q, sentAt, collected)
    ensures var q' := DropAcked(q, ack);
            && QueueOk(q', sentAt, collected)
            && GivenUpOk(givenUp, q', sentAt, collected)
            && (forall k :: k in Starts(q') <==> k in Starts(q) && k + 40 > ack)
            && |q'| <= |q|
  {
    var q' := DropAcked(q, ack);
    DropAckedIsSuffix(q, ack);
    forall e
      ensures e in q' <==> e in q && e.seqEnd > ack
      ensures Sorted(q')
    {
      DropAckedMembers(q, ack, e);
    }
    forall k
      ensures k in Starts(q') <==> k in Starts(q) && k + 40 > ack
    {
      if k in Starts(q) {
        var e :| e in q && e.seqStart == k;
        var i: nat :| Tracks(e, i, sentAt, collected);
        if k in Starts(q') {
          var f :| f in q' && f.seqStart == k;
          UniqueStart(q, e, f);
        }
      }
    }
  }
}
