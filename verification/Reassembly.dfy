/** TcpReassemblyBuffer (include/usn/protocol/tcp_reassembly.hpp): segments parked by sequence
    number, the contiguous run taken out of them, and the accounting of the holes between them. */
module Reassembly {
  import opened Words

  datatype Segment = Segment(seqNum: nat, data: seq<Byte>)
  datatype Hole = Hole(startSeq: nat, endSeq: nat)
  type Segments = map<nat, seq<Byte>>

  // ----- iteration in key order, as std::map does it -----

  lemma {:induction false} LeastExists(s: set<nat>, bound: nat)
    requires bound in s
    ensures exists m :: m in s && forall x :: x in s ==> m <= x
    decreases bound
  {
    if y: nat :| y in s && y < bound {
      LeastExists(s, y);
    }
  }

  function Least(s: set<nat>): (m: nat)
    requires s != {}
    ensures m in s && forall x :: x in s ==> m <= x
  {
    var y :| y in s;
    LeastExists(s, y);
    var m :| m in s && forall x :: x in s ==> m <= x;
    m
  }

  function SortedKeys(s: set<nat>): (keys: seq<nat>)
    ensures |keys| == |s|
    ensures forall k :: k in keys <==> k in s
  {
    if s == {} then []
    else
      var m := Least(s);
      [m] + SortedKeys(s - {m})
  }

  ghost predicate Ascending(keys: seq<nat>) {
    forall i, j :: 0 <= i < j < |keys| ==> keys[i] < keys[j]
  }

  lemma {:induction false} SortedKeysAscend(s: set<nat>)
    ensures Ascending(SortedKeys(s))
  {
    if s != {} {
      var m := Least(s);
      var keys, rest := SortedKeys(s), SortedKeys(s - {m});
      SortedKeysAscend(s - {m});
      forall k | k in rest
        ensures m < k
      {
        assert k in s - {m};
      }
      AscendingCons(m, rest);
      assert keys == [m] + rest;
    }
  }

  lemma AscendingCons(m: nat, rest: seq<nat>)
    requires Ascending(rest) && forall k :: k in rest ==> m < k
    ensures Ascending([m] + rest)
  {
    var keys := [m] + rest;
    forall i, j | 0 <= i < j < |keys|
      ensures keys[i] < keys[j]
    {
      assert keys[j] == rest[j - 1] && rest[j - 1] in rest;
    }
  }

  // ----- pop_contiguous -----

  /** The segments found by following `cursor` through the buffer until no segment starts there. */
  function RunFrom(segs: Segments, cursor: nat): seq<Segment>
    decreases |segs|
  {
    if cursor in segs then
      RemoveShrinks(segs, cursor);
      [Segment(cursor, segs[cursor])] + RunFrom(segs - {cursor}, Add32(cursor, |segs[cursor]|))
    else []
  }

  /** The buffer left behind by that walk. */
  function RestFrom(segs: Segments, cursor: nat): Segments
    decreases |segs|
  {
    if cursor in segs then
      RemoveShrinks(segs, cursor);
      RestFrom(segs - {cursor}, Add32(cursor, |segs[cursor]|))
    else segs
  }

  lemma RemoveShrinks(segs: Segments, k: nat)
    requires k in segs
    ensures |segs - {k}| < |segs|
  {
    assert (segs - {k}).Keys == segs.Keys - {k};
    assert |segs.Keys - {k}| == |segs.Keys| - 1;
  }

  function RunBytes(run: seq<Segment>): nat {
    if run == [] then 0 else |run[0].data| + RunBytes(run[1..])
  }

  function RunEnd(run: seq<Segment>, cursor: nat): nat {
    if run == [] then cursor else RunEnd(run[1..], Add32(cursor, |run[0].data|))
  }

  /** Taking one more segment off the front of the walk. */
  lemma RunUnfolds(segs: Segments, cursor: nat)
    requires cursor in segs
    ensures |segs - {cursor}| < |segs|
    ensures var next := Add32(cursor, |segs[cursor]|);
            && RunFrom(segs, cursor) == [Segment(cursor, segs[cursor])] + RunFrom(segs - {cursor}, next)
            && RunFrom(segs, cursor)[1..] == RunFrom(segs - {cursor}, next)
            && RestFrom(segs, cursor) == RestFrom(segs - {cursor}, next)
  {
    RemoveShrinks(segs, cursor);
  }

  /** The run starts at `expected`, each of its segments starts where the one before ends, and no
      segment left in the buffer starts where the run ends. */
  lemma {:induction false} RunIsContiguousAndMaximal(segs: Segments, expected: nat)
    ensures var run := RunFrom(segs, expected);
            && (forall i :: 0 <= i < |run| ==> run[i].seqNum == RunEnd(run[..i], expected))
            && RunEnd(run, expected) !in RestFrom(segs, expected)
    decreases |segs|
  {
    if expected in segs {
      RunUnfolds(segs, expected);
      var next := Add32(expected, |segs[expected]|);
      var run, tail := RunFrom(segs, expected), RunFrom(segs - {expected}, next);
      RunIsContiguousAndMaximal(segs - {expected}, next);
      forall i | 0 <= i < |run|
        ensures run[i].seqNum == RunEnd(run[..i], expected)
      {
        if i > 0 {
          assert run[i] == tail[i - 1];
          assert run[..i][1..] == tail[..i - 1];
        }
      }
    }
  }

  ghost predicate InRun(run: seq<Segment>, k: nat, data: seq<Byte>) {
    Segment(k, data) in run
  }

  /** Every parked segment either stays untouched or is in the run with its data, and never both. */
  lemma {:induction false} RunPartitions(segs: Segments, expected: nat, k: nat)
    ensures k in segs ==>
              (k in RestFrom(segs, expected) <==> !InRun(RunFrom(segs, expected), k, segs[k]))
    ensures k in RestFrom(segs, expected) ==> k in segs && RestFrom(segs, expected)[k] == segs[k]
    ensures forall s :: s in RunFrom(segs, expected) ==> s.seqNum in segs && s.data == segs[s.seqNum]
    decreases |segs|
  {
    if expected in segs {
      RunUnfolds(segs, expected);
      var next := Add32(expected, |segs[expected]|);
      RunPartitions(segs - {expected}, next, k);
      if k == expected {
        assert RunFrom(segs, expected)[0] == Segment(k, segs[k]);
      }
    }
  }

  // ----- the byte counter -----

  ghost function Bytes(segs: Segments): nat
    decreases |segs|
  {
    if segs == map[] then 0
    else
      var k :| k in segs;
      RemoveShrinks(segs, k);
      |segs[k]| + Bytes(segs - {k})
  }

  lemma {:induction false} BytesWithout(segs: Segments, k: nat)
    requires k in segs
    ensures Bytes(segs) == |segs[k]| + Bytes(segs - {k})
    decreases |segs|
  {
    var j :| j in segs && Bytes(segs) == |segs[j]| + Bytes(segs - {j});
    if j != k {
      RemoveShrinks(segs, j);
      RemoveShrinks(segs, k);
      BytesWithout(segs - {j}, k);
      BytesWithout(segs - {k}, j);
      assert segs - {j} - {k} == segs - {k} - {j};
    }
  }

  lemma {:induction false} RunConservesBytes(segs: Segments, cursor: nat)
    ensures Bytes(segs) == RunBytes(RunFrom(segs, cursor)) + Bytes(RestFrom(segs, cursor))
    decreases |segs|
  {
    if cursor in segs {
      RunUnfolds(segs, cursor);
      BytesWithout(segs, cursor);
      RunConservesBytes(segs - {cursor}, Add32(cursor, |segs[cursor]|));
    }
  }

  lemma PopStep(segs: Segments, cursor: nat, out: seq<Segment>)
    requires cursor in segs
    ensures var rest := segs - {cursor}; var next := Add32(cursor, |segs[cursor]|);
            && |rest| < |segs|
            && out + RunFrom(segs, cursor) == out + [Segment(cursor, segs[cursor])] + RunFrom(rest, next)
            && RestFrom(segs, cursor) == RestFrom(rest, next)
            && Bytes(segs) == |segs[cursor]| + Bytes(rest)
  {
    RunUnfolds(segs, cursor);
    BytesWithout(segs, cursor);
    RemoveShrinks(segs, cursor);
    AppendFirst(out, Segment(cursor, segs[cursor]), RunFrom(segs - {cursor}, Add32(cursor, |segs[cursor]|)));
  }

  lemma AppendFirst(out: seq<Segment>, x: Segment, rest: seq<Segment>)
    ensures out + ([x] + rest) == out + [x] + rest
  {
  }

  // ----- holes -----

  function Advance(cursor: nat, seqNum: nat, len: nat): nat {
    var segEnd := Add32(seqNum, len);
    if segEnd > cursor then segEnd else cursor
  }

  function HoleAt(cursor: nat, k: nat): seq<Hole> {
    if k > cursor then [Hole(cursor, k)] else []
  }

  /** The holes met by a cursor that walks, in key order, over the segments from the i-th on. */
  function HolesFrom(segs: Segments, keys: seq<nat>, i: nat, cursor: nat): seq<Hole>
    requires i <= |keys| && forall k :: k in keys ==> k in segs
    decreases |keys| - i
  {
    if i == |keys| then []
    else HoleAt(cursor, keys[i]) + HolesFrom(segs, keys, i + 1, Advance(cursor, keys[i], |segs[keys[i]]|))
  }

  function Holes(segs: Segments, expected: nat): seq<Hole> {
    HolesFrom(segs, SortedKeys(segs.Keys), 0, expected)
  }

  function HoleBytes(holes: seq<Hole>): int {
    if holes == [] then 0 else holes[0].endSeq - holes[0].startSeq + HoleBytes(holes[1..])
  }

  lemma {:induction false} HoleBytesAppend(a: seq<Hole>, b: seq<Hole>)
    ensures HoleBytes(a + b) == HoleBytes(a) + HoleBytes(b)
  {
    if a == [] {
      assert a + b == b;
    } else {
      HoleBytesAppend(a[1..], b);
      assert (a + b)[1..] == a[1..] + b;
    }
  }

  /** `total_hole_bytes`: the same walk, adding the holes up in 32 bits. */
  function HoleBytesFrom(segs: Segments, keys: seq<nat>, i: nat, cursor: nat, total: nat): nat
    requires i <= |keys| && forall k :: k in keys ==> k in segs
    decreases |keys| - i
  {
    if i == |keys| then total
    else
      var k := keys[i];
      HoleBytesFrom(segs, keys, i + 1, Advance(cursor, k, |segs[k]|), if k > cursor then Add32(total, k - cursor) else total)
  }

  lemma HoleBytesAt(cursor: nat, k: nat, rest: seq<Hole>)
    ensures HoleBytes(HoleAt(cursor, k) + rest) == Max(0, k - cursor) + HoleBytes(rest)
  {
    HoleBytesAppend(HoleAt(cursor, k), rest);
    if k > cursor {
      assert HoleBytes([Hole(cursor, k)]) == k - cursor + HoleBytes([]);
    }
  }

  lemma {:induction false} HoleBytesFromIsSum(segs: Segments, keys: seq<nat>, i: nat, cursor: nat, exact: nat)
    requires i <= |keys| && forall k :: k in keys ==> k in segs
    ensures HoleBytesFrom(segs, keys, i, cursor, exact % 0x1_0000_0000)
            == (exact + HoleBytes(HolesFrom(segs, keys, i, cursor))) % 0x1_0000_0000
    decreases |keys| - i
  {
    if i < |keys| {
      var k := keys[i];
      var next := Advance(cursor, k, |segs[k]|);
      var gap: nat := Max(0, k - cursor);
      HoleBytesAt(cursor, k, HolesFrom(segs, keys, i + 1, next));
      Add32Running(exact, gap);
      HoleBytesFromIsSum(segs, keys, i + 1, next, exact + gap);
    }
  }

  lemma HoleBytesAreSummed(segs: Segments, expected: nat)
    ensures HoleBytesFrom(segs, SortedKeys(segs.Keys), 0, expected, 0)
            == HoleBytes(Holes(segs, expected)) % 0x1_0000_0000
  {
    HoleBytesFromIsSum(segs, SortedKeys(segs.Keys), 0, expected, 0);
  }

  class TcpReassemblyBuffer {
    var segments: Segments
    var totalBytes: nat

    /** Every parked segment carries data and the counter is their total size. */
    ghost predicate Valid()
      reads this
    {
      && (forall k :: k in segments ==> segments[k] != [])
      && totalBytes == Bytes(segments)
    }

    constructor ()
      ensures Valid() && segments == map[]
    {
      segments, totalBytes := map[], 0;
    }

    /** Refuses empty data and a sequence number that is already parked; nothing is overwritten. */
    method Insert(seqNum: nat, data: seq<Byte>) returns (inserted: bool)
      requires Valid()
      modifies this
      ensures Valid()
      ensures inserted <==> data != [] && seqNum !in old(segments)
      ensures segments == if inserted then old(segments)[seqNum := data] else old(segments)
    {
      if data == [] {
        return false;
      }
      if seqNum in segments {
        return false;
      }
      segments := segments[seqNum := data];
      BytesWithout(segments, seqNum);
      assert segments - {seqNum} == old(segments);
      totalBytes := totalBytes + |data|;
      inserted := true;
    }

    method PopContiguous(expected: nat) returns (out: seq<Segment>, consumed: nat)
      requires Valid()
      modifies this
      ensures Valid()
      ensures out == RunFrom(old(segments), expected)
      ensures segments == RestFrom(old(segments), expected)
      ensures consumed == RunBytes(out) && totalBytes == old(totalBytes) - consumed
    {
      out, consumed := [], 0;
      var cursor := expected;
      while cursor in segments
        invariant totalBytes == old(totalBytes)
        invariant forall k :: k in segments ==> segments[k] != []
        invariant out + RunFrom(segments, cursor) == RunFrom(old(segments), expected)
        invariant RestFrom(segments, cursor) == RestFrom(old(segments), expected)
        invariant Bytes(old(segments)) == consumed + Bytes(segments)
        decreases |segments|
      {
        var seg := Segment(cursor, segments[cursor]);
        PopStep(segments, cursor, out);
        consumed := consumed + |seg.data|;
        out := out + [seg];
        segments := segments - {cursor};
        cursor := Add32(cursor, |seg.data|);
      }
      assert RunFrom(segments, cursor) == [];
      RunConservesBytes(old(segments), expected);
      totalBytes := Monus(totalBytes, consumed);
    }

    method HoleRanges(expected: nat, maxRanges: nat) returns (holes: seq<Hole>)
      ensures var all := Holes(segments, expected); holes == all[..Min(maxRanges, |all|)]
    {
      var keys := SortedKeys(segments.Keys);
      holes := [];
      var cursor := expected;
      ghost var all := Holes(segments, expected);
      for i := 0 to |keys|
        invariant |holes| <= maxRanges
        invariant holes + HolesFrom(segments, keys, i, cursor) == all
      {
        if |holes| >= maxRanges {
          return;
        }
        var k := keys[i];
        ghost var rest := HolesFrom(segments, keys, i + 1, Advance(cursor, k, |segments[k]|));
        ghost var longer := holes + HoleAt(cursor, k);
        assert longer + rest == all by {
          assert holes + (HoleAt(cursor, k) + rest) == longer + rest;
        }
        if k > cursor {
          holes := holes + [Hole(cursor, k)];
        }
        assert holes == longer;
        var segEnd := Add32(k, |segments[k]|);
        if segEnd > cursor {
          cursor := segEnd;
        }
      }
    }

    method HoleCount(expected: nat) returns (count: nat)
      ensures count == |Holes(segments, expected)|
    {
      var keys := SortedKeys(segments.Keys);
      count := 0;
      var cursor := expected;
      for i := 0 to |keys|
        invariant count + |HolesFrom(segments, keys, i, cursor)| == |Holes(segments, expected)|
      {
        var k := keys[i];
        if k > cursor {
          count := count + 1;
        }
        var segEnd := Add32(k, |segments[k]|);
        if segEnd > cursor {
          cursor := segEnd;
        }
      }
    }

    method TotalHoleBytes(expected: nat) returns (total: nat)
      ensures total == HoleBytes(Holes(segments, expected)) % 0x1_0000_0000
    {
      var keys := SortedKeys(segments.Keys);
      total := 0;
      var cursor := expected;
      ghost var walked := HoleBytesFrom(segments, keys, 0, expected, 0);
      for i := 0 to |keys|
        invariant HoleBytesFrom(segments, keys, i, cursor, total) == walked
      {
        var k := keys[i];
        if k > cursor {
          total := Add32(total, k - cursor);
        }
        var segEnd := Add32(k, |segments[k]|);
        if segEnd > cursor {
          cursor := segEnd;
        }
      }
      HoleBytesAreSummed(segments, expected);
    }
  }
}
