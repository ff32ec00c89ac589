/** What the hole functions of the reassembly buffer mean, as sets of sequence numbers. */
module HoleAccounting {
  import opened Words
  import opened Reassembly

  ghost predicate Covers(segs: Segments, k: nat, n: nat) {
    k in segs && k <= n < k + |segs[k]|
  }

  /** Some parked segment carries the byte numbered `n`. */
  ghost predicate Covered(segs: Segments, n: nat) {
    exists k :: Covers(segs, k, n)
  }

  ghost predicate EndsAfter(segs: Segments, k: nat, n: nat) {
    k in segs && n < k + |segs[k]|
  }

  /** `n` is a missing byte: not below `expected`, below the end of some parked segment, not covered. */
  ghost predicate IsMissing(segs: Segments, expected: nat, n: nat) {
    expected <= n && (exists k :: EndsAfter(segs, k, n)) && !Covered(segs, n)
  }

  ghost predicate InHoles(holes: seq<Hole>, n: nat) {
    exists i :: 0 <= i < |holes| && holes[i].startSeq <= n < holes[i].endSeq
  }

  /** Segments carry data and start below 2^32. */
  ghost predicate Sound(segs: Segments) {
    forall k :: k in segs ==> k < 0x1_0000_0000 && segs[k] != []
  }

  /** Segment `j` crosses 2^32 below key `k`, and no 32-bit end computed before `k` has reached it: the
      cursor is left behind by a segment that in truth covers everything up to `k`. */
  ghost predicate Stranded(segs: Segments, expected: nat, j: nat, k: nat) {
    && j in segs && k in segs && j < k && j + |segs[j]| >= 0x1_0000_0000
    && k > expected
    && forall i :: i in segs && i < k ==> Add32(i, |segs[i]|) < k
  }

  ghost predicate NeverStranded(segs: Segments, expected: nat) {
    forall j, k :: !Stranded(segs, expected, j, k)
  }

  ghost predicate Ordered(segs: Segments, keys: seq<nat>) {
    && (forall i, j :: 0 <= i < j < |keys| ==> keys[i] < keys[j])
    && (forall i :: 0 <= i < |keys| ==> keys[i] in segs)
  }

  function EndOf(segs: Segments, keys: seq<nat>, p: nat): nat
    requires p < |keys| && keys[p] in segs
  {
    Add32(keys[p], |segs[keys[p]]|)
  }

  /** The same on the walk that has reached index `i` with `cursor`. */
  ghost predicate StrandedAt(segs: Segments, keys: seq<nat>, i: nat, cursor: nat, j: nat, m: nat)
    requires Ordered(segs, keys)
  {
    && i <= j < m < |keys| && keys[j] + |segs[keys[j]]| >= 0x1_0000_0000
    && keys[m] > cursor
    && forall p :: i <= p < m ==> EndOf(segs, keys, p) < keys[m]
  }

  ghost predicate Steady(segs: Segments, keys: seq<nat>, i: nat, cursor: nat)
    requires Ordered(segs, keys)
  {
    forall j, m :: !StrandedAt(segs, keys, i, cursor, j, m)
  }

  ghost predicate CoveredFrom(segs: Segments, keys: seq<nat>, i: nat, n: nat)
    requires Ordered(segs, keys)
  {
    exists j :: i <= j < |keys| && keys[j] <= n < keys[j] + |segs[keys[j]]|
  }

  ghost predicate BelowEndFrom(segs: Segments, keys: seq<nat>, i: nat, n: nat)
    requires Ordered(segs, keys)
  {
    exists j :: i <= j < |keys| && n < keys[j] + |segs[keys[j]]|
  }

  lemma InHolesAppend(a: seq<Hole>, b: seq<Hole>, n: nat)
    ensures InHoles(a + b, n) <==> InHoles(a, n) || InHoles(b, n)
  {
    if InHoles(a, n) {
      var i :| 0 <= i < |a| && a[i].startSeq <= n < a[i].endSeq;
      assert (a + b)[i] == a[i];
    }
    if InHoles(b, n) {
      var i :| 0 <= i < |b| && b[i].startSeq <= n < b[i].endSeq;
      assert (a + b)[|a| + i] == b[i];
    }
  }

  lemma StrandedEarlier(segs: Segments, keys: seq<nat>, i: nat, cursor: nat, j: nat, m: nat)
    requires Ordered(segs, keys) && i < |keys|
    requires StrandedAt(segs, keys, i + 1, Advance(cursor, keys[i], |segs[keys[i]]|), j, m)
    ensures StrandedAt(segs, keys, i, cursor, j, m)
  {
    assert EndOf(segs, keys, i) < keys[m];
  }

  /** One step of the walk keeps it steady; after a segment across 2^32 every key is at or below the cursor
      by the time it is reached. */
  lemma StaysSteady(segs: Segments, keys: seq<nat>, i: nat, cursor: nat)
    requires Ordered(segs, keys) && i < |keys| && Steady(segs, keys, i, cursor)
    ensures Steady(segs, keys, i + 1, Advance(cursor, keys[i], |segs[keys[i]]|))
    ensures keys[i] + |segs[keys[i]]| >= 0x1_0000_0000 ==>
              Caught(segs, keys, i + 1, Advance(cursor, keys[i], |segs[keys[i]]|))
  {
    var next := Advance(cursor, keys[i], |segs[keys[i]]|);
    var after := i + 1;
    if j: nat, m: nat :| StrandedAt(segs, keys, after, next, j, m) {
      StrandedEarlier(segs, keys, i, cursor, j, m);
      assert false;
    }
    if keys[i] + |segs[keys[i]]| >= 0x1_0000_0000 {
      forall m | i + 1 <= m < |keys|
        ensures keys[m] <= next || exists p :: i + 1 <= p < m && keys[m] <= EndOf(segs, keys, p)
      {
        assert !StrandedAt(segs, keys, i, cursor, i, m);
      }
    }
  }

  /** Every key from index `i` on is at or below the cursor when the walk gets there. */
  ghost predicate Caught(segs: Segments, keys: seq<nat>, i: nat, cursor: nat)
    requires Ordered(segs, keys)
  {
    forall m :: i <= m < |keys| ==> keys[m] <= cursor || exists p :: i <= p < m && keys[m] <= EndOf(segs, keys, p)
  }

  lemma {:induction false} CaughtHasNoHoles(segs: Segments, keys: seq<nat>, i: nat, cursor: nat)
    requires Ordered(segs, keys) && i <= |keys| && Caught(segs, keys, i, cursor)
    ensures HolesFrom(segs, keys, i, cursor) == []
    decreases |keys| - i
  {
    if i < |keys| {
      var next := Advance(cursor, keys[i], |segs[keys[i]]|);
      assert keys[i] <= cursor;
      forall m | i + 1 <= m < |keys|
        ensures keys[m] <= next || exists p :: i + 1 <= p < m && keys[m] <= EndOf(segs, keys, p)
      {
        if keys[m] > cursor {
          var p :| i <= p < m && keys[m] <= EndOf(segs, keys, p);
        }
      }
      CaughtHasNoHoles(segs, keys, i + 1, next);
    }
  }

  lemma HoleAtMembers(cursor: nat, k: nat, n: nat)
    ensures InHoles(HoleAt(cursor, k), n) <==> cursor <= n < k
  {
    if cursor <= n < k {
      assert HoleAt(cursor, k)[0].startSeq <= n < HoleAt(cursor, k)[0].endSeq;
    }
  }

  /** Nothing is missing from a segment across 2^32 on. */
  lemma CoveredToTheEnd(segs: Segments, keys: seq<nat>, i: nat, n: nat)
    requires Ordered(segs, keys) && Sound(segs) && i < |keys| && keys[i] + |segs[keys[i]]| >= 0x1_0000_0000
    requires keys[i] <= n && BelowEndFrom(segs, keys, i, n)
    ensures CoveredFrom(segs, keys, i, n)
  {
    var j :| i <= j < |keys| && n < keys[j] + |segs[keys[j]]|;
    if n < 0x1_0000_0000 {
      assert keys[i] <= n < keys[i] + |segs[keys[i]]|;
    } else {
      assert keys[j] <= n < keys[j] + |segs[keys[j]]|;
    }
  }

  lemma FromNext(segs: Segments, keys: seq<nat>, i: nat, n: nat)
    requires Ordered(segs, keys) && i < |keys|
    ensures CoveredFrom(segs, keys, i, n)
            <==> (keys[i] <= n < keys[i] + |segs[keys[i]]|) || CoveredFrom(segs, keys, i + 1, n)
    ensures BelowEndFrom(segs, keys, i, n) <==> n < keys[i] + |segs[keys[i]]| || BelowEndFrom(segs, keys, i + 1, n)
  {
  }

  lemma {:induction false} WalkFindsMissing(segs: Segments, keys: seq<nat>, i: nat, cursor: nat, n: nat)
    requires Ordered(segs, keys) && Sound(segs) && i <= |keys| && Steady(segs, keys, i, cursor)
    ensures InHoles(HolesFrom(segs, keys, i, cursor), n)
            <==> cursor <= n && BelowEndFrom(segs, keys, i, n) && !CoveredFrom(segs, keys, i, n)
    decreases |keys| - i
  {
    if i < |keys| {
      var k: nat := keys[i];
      var next := Advance(cursor, k, |segs[k]|);
      var first, rest := HoleAt(cursor, k), HolesFrom(segs, keys, i + 1, next);
      InHolesAppend(first, rest, n);
      HoleAtMembers(cursor, k, n);
      StaysSteady(segs, keys, i, cursor);
      FromNext(segs, keys, i, n);
      if k + |segs[k]| >= 0x1_0000_0000 {
        CaughtHasNoHoles(segs, keys, i + 1, next);
        if k <= n && BelowEndFrom(segs, keys, i, n) {
          CoveredToTheEnd(segs, keys, i, n);
        }
      } else {
        WalkFindsMissing(segs, keys, i + 1, next, n);
      }
    }
  }

  /** A stranded cursor reports the byte just below `keys[m]`. */
  lemma {:induction false} StrandedReports(segs: Segments, keys: seq<nat>, i: nat, cursor: nat, m: nat)
    requires Ordered(segs, keys) && i <= m < |keys| && keys[m] > cursor
    requires forall p :: i <= p < m ==> EndOf(segs, keys, p) < keys[m]
    ensures InHoles(HolesFrom(segs, keys, i, cursor), keys[m] - 1)
    decreases m - i
  {
    var next := Advance(cursor, keys[i], |segs[keys[i]]|);
    InHolesAppend(HoleAt(cursor, keys[i]), HolesFrom(segs, keys, i + 1, next), keys[m] - 1);
    if i == m {
      HoleAtMembers(cursor, keys[m], keys[m] - 1);
    } else {
      assert EndOf(segs, keys, i) < keys[m];
      StrandedReports(segs, keys, i + 1, next, m);
    }
  }

  lemma SortedKeysOrdered(segs: Segments)
    ensures Ordered(segs, SortedKeys(segs.Keys))
  {
    var keys := SortedKeys(segs.Keys);
    SortedKeysAscend(segs.Keys);
    forall i | 0 <= i < |keys|
      ensures keys[i] in segs
    {
      assert keys[i] in keys;
    }
  }

  lemma CoveredByKeys(segs: Segments, keys: seq<nat>, n: nat)
    requires Ordered(segs, keys) && forall k :: k in segs ==> k in keys
    ensures CoveredFrom(segs, keys, 0, n) <==> Covered(segs, n)
    ensures BelowEndFrom(segs, keys, 0, n) <==> exists k :: EndsAfter(segs, k, n)
  {
    if k: nat :| Covers(segs, k, n) {
      assert k in keys;
    }
    if k: nat :| EndsAfter(segs, k, n) {
      assert k in keys;
    }
    if j :| 0 <= j < |keys| && keys[j] <= n < keys[j] + |segs[keys[j]]| {
      assert Covers(segs, keys[j], n);
    }
    if j :| 0 <= j < |keys| && n < keys[j] + |segs[keys[j]]| {
      assert EndsAfter(segs, keys[j], n);
    }
  }

  lemma SteadyFromStart(segs: Segments, keys: seq<nat>, expected: nat)
    requires Ordered(segs, keys) && forall k :: k in segs ==> k in keys
    ensures NeverStranded(segs, expected) ==> Steady(segs, keys, 0, expected)
  {
    forall j: nat, m: nat | StrandedAt(segs, keys, 0, expected, j, m)
      ensures Stranded(segs, expected, keys[j], keys[m])
    {
      forall i | i in segs && i < keys[m]
        ensures Add32(i, |segs[i]|) < keys[m]
      {
        var p :| 0 <= p < |keys| && keys[p] == i;
        assert EndOf(segs, keys, p) < keys[m];
      }
    }
  }

  /** The reported holes are exactly the missing bytes, even with overlapping or stale segments. */
  lemma HolesAreMissingBytes(segs: Segments, expected: nat, n: nat)
    requires Sound(segs) && NeverStranded(segs, expected)
    ensures InHoles(Holes(segs, expected), n) <==> IsMissing(segs, expected, n)
  {
    var keys := SortedKeys(segs.Keys);
    SortedKeysOrdered(segs);
    SteadyFromStart(segs, keys, expected);
    WalkFindsMissing(segs, keys, 0, expected, n);
    CoveredByKeys(segs, keys, n);
  }

  /** A stranded cursor makes a covered byte count as missing. */
  lemma StrandedIsWrong(segs: Segments, expected: nat, j: nat, k: nat)
    requires Sound(segs) && Stranded(segs, expected, j, k)
    ensures InHoles(Holes(segs, expected), k - 1) && !IsMissing(segs, expected, k - 1)
  {
    var keys := SortedKeys(segs.Keys);
    SortedKeysOrdered(segs);
    assert k in keys;
    var m :| 0 <= m < |keys| && keys[m] == k;
    StrandedReports(segs, keys, 0, expected, m);
    assert Covers(segs, j, k - 1);
  }

  /** Hole accounting is exact if and only if the cursor is never stranded. */
  lemma HolesExactIff(segs: Segments, expected: nat)
    requires Sound(segs)
    ensures (forall n: nat :: InHoles(Holes(segs, expected), n) <==> IsMissing(segs, expected, n))
            <==> NeverStranded(segs, expected)
  {
    if NeverStranded(segs, expected) {
      forall n: nat
        ensures InHoles(Holes(segs, expected), n) <==> IsMissing(segs, expected, n)
      {
        HolesAreMissingBytes(segs, expected, n);
      }
    } else {
      var j, k :| Stranded(segs, expected, j, k);
      StrandedIsWrong(segs, expected, j, k);
    }
  }

  /** Non-empty, in order, and with at least one byte between any two of them. */
  ghost predicate Separated(holes: seq<Hole>) {
    && (forall i :: 0 <= i < |holes| ==> holes[i].startSeq < holes[i].endSeq)
    && (forall i, j :: 0 <= i < j < |holes| ==> holes[i].endSeq < holes[j].startSeq)
  }

  lemma SeparatedCons(h: Hole, rest: seq<Hole>)
    requires h.startSeq < h.endSeq && Separated(rest)
    requires forall j :: 0 <= j < |rest| ==> h.endSeq < rest[j].startSeq
    ensures Separated([h] + rest)
  {
    var holes := [h] + rest;
    forall a, b | 0 <= a < b < |holes|
      ensures holes[a].endSeq < holes[b].startSeq
    {
      assert holes[b] == rest[b - 1];
    }
  }

  lemma {:induction false} WalkSeparates(segs: Segments, keys: seq<nat>, i: nat, cursor: nat)
    requires Ordered(segs, keys) && Sound(segs) && i <= |keys| && Steady(segs, keys, i, cursor)
    ensures var holes := HolesFrom(segs, keys, i, cursor);
            Separated(holes) && forall j :: 0 <= j < |holes| ==> cursor <= holes[j].startSeq
    decreases |keys| - i
  {
    if i < |keys| {
      var k: nat := keys[i];
      assert segs[k] != [];
      var next := Advance(cursor, k, |segs[k]|);
      var rest := HolesFrom(segs, keys, i + 1, next);
      StaysSteady(segs, keys, i, cursor);
      if k + |segs[k]| >= 0x1_0000_0000 {
        CaughtHasNoHoles(segs, keys, i + 1, next);
      } else {
        AdvancePast(cursor, k, |segs[k]|);
        WalkSeparates(segs, keys, i + 1, next);
      }
      if k > cursor {
        SeparatedCons(Hole(cursor, k), rest);
      }
    }
  }

  lemma {:induction false} WalkBytes(segs: Segments, keys: seq<nat>, i: nat, cursor: nat)
    requires Ordered(segs, keys) && Sound(segs) && i < |keys| && Steady(segs, keys, i, cursor)
    ensures 0 <= HoleBytes(HolesFrom(segs, keys, i, cursor)) <= Max(0, keys[|keys| - 1] - cursor)
    decreases |keys| - i
  {
    var k: nat := keys[i];
    var next := Advance(cursor, k, |segs[k]|);
    HoleBytesAt(cursor, k, HolesFrom(segs, keys, i + 1, next));
    StaysSteady(segs, keys, i, cursor);
    assert k <= keys[|keys| - 1];
    if k + |segs[k]| >= 0x1_0000_0000 {
      CaughtHasNoHoles(segs, keys, i + 1, next);
    } else if i + 1 < |keys| {
      AdvancePast(cursor, k, |segs[k]|);
      WalkBytes(segs, keys, i + 1, next);
    }
  }

  lemma AdvancePast(cursor: nat, k: nat, len: nat)
    requires k + len < 0x1_0000_0000
    ensures Advance(cursor, k, len) == Max(cursor, k + len)
  {
    Fits32(k + len);
  }

  // ----- counting -----

  ghost function Interval(lo: nat, hi: nat): (r: set<nat>)
    requires lo <= hi
    ensures forall n :: n in r <==> lo <= n < hi
    ensures |r| == hi - lo
    decreases hi - lo
  {
    if lo == hi then {} else Interval(lo, hi - 1) + {hi - 1}
  }

  ghost function Numbers(holes: seq<Hole>): set<nat>
    requires Separated(holes)
  {
    if holes == [] then {} else Interval(holes[0].startSeq, holes[0].endSeq) + Numbers(holes[1..])
  }

  lemma {:induction false} NumbersInHoles(holes: seq<Hole>, n: nat)
    requires Separated(holes)
    ensures n in Numbers(holes) <==> InHoles(holes, n)
  {
    if holes != [] {
      NumbersInHoles(holes[1..], n);
      InHolesAppend(holes[..1], holes[1..], n);
      assert holes == holes[..1] + holes[1..];
      if n in Interval(holes[0].startSeq, holes[0].endSeq) {
        assert holes[..1][0].startSeq <= n < holes[..1][0].endSeq;
      }
    }
  }

  lemma {:induction false} SeparatedCount(holes: seq<Hole>)
    requires Separated(holes)
    ensures |Numbers(holes)| == HoleBytes(holes)
  {
    if holes != [] {
      SeparatedCount(holes[1..]);
      var first, rest := Interval(holes[0].startSeq, holes[0].endSeq), Numbers(holes[1..]);
      forall n | n in rest
        ensures n !in first
      {
        NumbersInHoles(holes[1..], n);
        var i :| 0 <= i < |holes[1..]| && holes[1..][i].startSeq <= n < holes[1..][i].endSeq;
        assert holes[i + 1] == holes[1..][i];
      }
      assert first !! rest;
    }
  }

  lemma WrittenAsNumbers(segs: Segments, expected: nat)
    requires Sound(segs) && NeverStranded(segs, expected)
    ensures Separated(Holes(segs, expected))
    ensures forall n: nat :: n in Numbers(Holes(segs, expected)) <==> IsMissing(segs, expected, n)
  {
    SortedKeysOrdered(segs);
    SteadyFromStart(segs, SortedKeys(segs.Keys), expected);
    WalkSeparates(segs, SortedKeys(segs.Keys), 0, expected);
    forall n: nat
      ensures n in Numbers(Holes(segs, expected)) <==> IsMissing(segs, expected, n)
    {
      NumbersInHoles(Holes(segs, expected), n);
      HolesAreMissingBytes(segs, expected, n);
    }
  }

  lemma BytesFitIn32(segs: Segments, expected: nat)
    requires Sound(segs) && NeverStranded(segs, expected)
    ensures 0 <= HoleBytes(Holes(segs, expected)) < 0x1_0000_0000
  {
    var keys := SortedKeys(segs.Keys);
    if keys != [] {
      SortedKeysOrdered(segs);
      SteadyFromStart(segs, keys, expected);
      WalkBytes(segs, keys, 0, expected);
    }
  }

  /** The hole ranges are sorted, disjoint and not adjacent, and `total_hole_bytes`, although summed in
      32 bits, is the number of missing bytes. */
  lemma HoleTotals(segs: Segments, expected: nat, missing: set<nat>)
    requires Sound(segs) && NeverStranded(segs, expected)
    requires forall n: nat :: n in missing <==> IsMissing(segs, expected, n)
    ensures Separated(Holes(segs, expected))
    ensures HoleBytes(Holes(segs, expected)) % 0x1_0000_0000 == |missing|
  {
    var holes := Holes(segs, expected);
    WrittenAsNumbers(segs, expected);
    SeparatedCount(holes);
    assert Numbers(holes) == missing;
    BytesFitIn32(segs, expected);
    Fits32(HoleBytes(holes));
  }

  /** A buffer in which no segment but the highest reaches 2^32, overlapping or not, never strands the cursor. */
  lemma NoWrapNeverStranded(segs: Segments, expected: nat)
    requires forall j, k :: j in segs && k in segs && j < k ==> j + |segs[j]| < 0x1_0000_0000
    ensures NeverStranded(segs, expected)
  {
  }

  /** A buffer that does: a four-byte segment across 2^32, and another one starting inside it. */
  lemma WrappedSegmentReportedMissing()
    ensures var segs: Segments := map[0xFFFF_FFFE := [1, 2, 3, 4], 0xFFFF_FFFF := [2]];
            Covered(segs, 0xFFFF_FFFE) && InHoles(Holes(segs, 0xFFFF_FFFE), 0xFFFF_FFFE)
  {
    var a: nat, b: nat := 0xFFFF_FFFE, 0xFFFF_FFFF;
    var segs: Segments := map[a := [1, 2, 3, 4], b := [2]];
    assert Covers(segs, a, a);
    assert Stranded(segs, a, a, b);
    StrandedIsWrong(segs, a, a, b);
  }
}
