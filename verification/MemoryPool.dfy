/** MemoryPool (include/usn/core/memory_pool.hpp): fixed-size blocks handed out from a free list that is
    threaded through an array of indices. A pointer is its offset from the start of the pool. */
module MemoryPool {
  import opened Words

  /** SIZE_MAX, the end of the free list. */
  const NIL: nat := 0xFFFF_FFFF_FFFF_FFFF

  datatype Pool = Pool(blockSize: nat, freeList: seq<nat>, nextFree: nat)
  {
    ghost predicate Sized() {
      0 < blockSize && 0 < |freeList| < NIL
    }

    /** Every link is the end of the list or a block. */
    ghost predicate Linked() {
      && (nextFree == NIL || nextFree < |freeList|)
      && forall i :: 0 <= i < |freeList| ==> freeList[i] == NIL || freeList[i] < |freeList|
    }
  }

  function Fresh(blockSize: nat, numBlocks: nat): Pool
    requires 0 < numBlocks
  {
    Pool(blockSize, seq(numBlocks, i => if i == numBlocks - 1 then NIL else i + 1), 0)
  }

  function Allocate(p: Pool): (Option<nat>, Pool)
    requires p.nextFree == NIL || p.nextFree < |p.freeList|
  {
    if p.nextFree == NIL then (None, p)
    else (Some(p.nextFree * p.blockSize), p.(nextFree := p.freeList[p.nextFree]))
  }

  /** Whether the source takes the pointer for one of its own. */
  predicate InPool(p: Pool, offset: int) {
    0 <= offset < |p.freeList| * p.blockSize
  }

  lemma BlockInRange(p: Pool, offset: int)
    requires p.Sized() && InPool(p, offset)
    ensures 0 <= offset / p.blockSize < |p.freeList|
  {
    var q, n := offset / p.blockSize, |p.freeList|;
    assert offset == q * p.blockSize + offset % p.blockSize;
    if q >= n {
      MulMono(n, q, p.blockSize);
    }
  }

  function Release(p: Pool, index: nat): Pool
    requires index < |p.freeList|
  {
    p.(freeList := p.freeList[index := p.nextFree], nextFree := index)
  }

  function Deallocate(p: Pool, offset: int): Pool
    requires p.Sized()
  {
    if InPool(p, offset) then
      BlockInRange(p, offset);
      Release(p, offset / p.blockSize)
    else p
  }

  // ----- the free chain -----

  function LinkAfter(c: seq<nat>, i: nat): nat {
    if i + 1 < |c| then c[i + 1] else NIL
  }

  ghost predicate IsLink(p: Pool, c: seq<nat>, i: nat)
    requires i < |c| && c[i] < |p.freeList|
  {
    p.freeList[c[i]] == LinkAfter(c, i)
  }

  /** Following the list from `nextFree` visits exactly `c`, without a cycle, and ends. */
  ghost predicate IsChain(p: Pool, c: seq<nat>) {
    && p.nextFree == (if c == [] then NIL else c[0])
    && (forall i :: 0 <= i < |c| ==> c[i] < |p.freeList| < NIL)
    && (forall i :: 0 <= i < |c| ==> IsLink(p, c, i))
    && Distinct(c)
  }

  lemma FreshChain(blockSize: nat, numBlocks: nat)
    requires 0 < numBlocks < NIL
    ensures IsChain(Fresh(blockSize, numBlocks), seq(numBlocks, i => i))
  {
  }

  /** Allocation takes the head of the chain, and fails exactly when the chain is empty. */
  lemma AllocateChain(p: Pool, c: seq<nat>)
    requires IsChain(p, c)
    ensures var (r, q) := Allocate(p);
            if c == [] then r == None && q == p
            else r == Some(c[0] * p.blockSize) && IsChain(q, c[1..])
  {
    if c != [] {
      var q := Allocate(p).1;
      assert IsLink(p, c, 0);
      forall i | 0 <= i < |c[1..]|
        ensures IsLink(q, c[1..], i)
      {
        assert IsLink(p, c, i + 1);
      }
    }
  }

  /** Returning a block that is not in the chain puts it at the head. */
  lemma ReleaseChain(p: Pool, c: seq<nat>, index: nat)
    requires IsChain(p, c) && index < |p.freeList| < NIL && index !in c
    ensures IsChain(Release(p, index), [index] + c)
  {
    var q, d := Release(p, index), [index] + c;
    forall i | 0 <= i < |d|
      ensures IsLink(q, d, i)
    {
      if i > 0 {
        assert d[i] == c[i - 1] && c[i - 1] in c;
        assert IsLink(p, c, i - 1);
      }
    }
  }

  lemma {:induction false} ReleasedTwiceLoops(p: Pool, c: seq<nat>, k: nat, d: seq<nat>, j: nat)
    requires IsChain(p, c) && k < |c| && j <= k && IsChain(Release(p, c[k]), d)
    ensures j + 1 < |d| && d[0] == c[k] && d[j + 1] == c[j]
    decreases j
  {
    var q := Release(p, c[k]);
    assert d != [] && d[0] == c[k];
    if j == 0 {
      assert IsLink(q, d, 0);
    } else {
      ReleasedTwiceLoops(p, c, k, d, j - 1);
      assert d[j] == c[j - 1] && c[j - 1] != c[k];
      assert IsLink(q, d, j);
      assert IsLink(p, c, j - 1);
    }
  }

  /** Returning a block keeps the free list a finite chain exactly when the block is not already free: a
      second `deallocate` of the same block ties the list into a cycle. */
  lemma ReleaseWellFormedIff(p: Pool, c: seq<nat>, index: nat)
    requires IsChain(p, c) && index < |p.freeList| < NIL
    ensures (exists d :: IsChain(Release(p, index), d)) <==> index !in c
  {
    if index !in c {
      ReleaseChain(p, c, index);
    } else {
      var k :| 0 <= k < |c| && c[k] == index;
      forall d | IsChain(Release(p, index), d)
        ensures false
      {
        ReleasedTwiceLoops(p, c, k, d, k);
      }
    }
  }

  // ----- counting the free blocks -----

  /** `available()` with `count` blocks counted and `current` next: it stops at the end of the list or after
      as many steps as there are blocks. */
  function WalkFrom(p: Pool, current: nat, count: nat): nat
    requires p.Linked() && (current == NIL || current < |p.freeList|)
    decreases |p.freeList| - count
  {
    if current == NIL || count >= |p.freeList| then count else WalkFrom(p, p.freeList[current], count + 1)
  }

  function Available(p: Pool): nat
    requires p.Linked()
  {
    WalkFrom(p, p.nextFree, 0)
  }

  /** A chain without repetition is no longer than the list. */
  lemma ChainFits(p: Pool, c: seq<nat>)
    requires IsChain(p, c)
    ensures |c| <= |p.freeList|
  {
    DistinctCount(c, |p.freeList|);
  }

  lemma {:induction false} DistinctCount(c: seq<nat>, n: nat)
    requires Distinct(c) && forall i :: 0 <= i < |c| ==> c[i] < n
    ensures |c| <= n
    decreases n
  {
    if c != [] {
      assert c[0] < n;
      if n - 1 in c {
        var k :| 0 <= k < |c| && c[k] == n - 1;
        var d := c[..k] + c[k + 1..];
        forall i, j | 0 <= i < j < |d|
          ensures d[i] != d[j]
        {
          assert d[i] == c[if i < k then i else i + 1] && d[j] == c[if j < k then j else j + 1];
        }
        DistinctCount(d, n - 1);
      } else {
        assert forall i :: 0 <= i < |c| ==> c[i] in c;
        DistinctCount(c, n - 1);
      }
    }
  }

  lemma {:induction false} WalkCounts(p: Pool, c: seq<nat>, i: nat)
    requires p.Linked() && IsChain(p, c) && i <= |c|
    ensures WalkFrom(p, if i < |c| then c[i] else NIL, i) == |c|
    decreases |c| - i
  {
    if i < |c| {
      ChainFits(p, c);
      assert IsLink(p, c, i);
      WalkCounts(p, c, i + 1);
    }
  }

  /** On a finite chain `available()` is its length. */
  lemma AvailableIsChain(p: Pool, c: seq<nat>)
    requires p.Linked() && IsChain(p, c)
    ensures Available(p) == |c|
  {
    WalkCounts(p, c, 0);
  }

  lemma {:induction false} ChainsAgree(p: Pool, c: seq<nat>, d: seq<nat>, i: nat)
    requires IsChain(p, c) && IsChain(p, d) && i <= |c|
    ensures i <= |d| && c[..i] == d[..i]
  {
    if i > 0 {
      ChainsAgree(p, c, d, i - 1);
      if i > 1 {
        assert c[i - 2] == c[..i - 1][i - 2] == d[i - 2];
        assert IsLink(p, c, i - 2) && IsLink(p, d, i - 2);
      }
    }
  }

  /** A pool has at most one free chain. */
  lemma ChainUnique(p: Pool, c: seq<nat>, d: seq<nat>)
    requires IsChain(p, c) && IsChain(p, d)
    ensures c == d
  {
    ChainsAgree(p, c, d, |c|);
    ChainsAgree(p, d, c, |d|);
  }

  lemma {:induction false} CycleNeverEnds(p: Pool, c: seq<nat>, k: nat, j: nat, count: nat)
    requires p.Linked() && IsChain(p, c) && j <= k < |c| && count <= |p.freeList|
    ensures Release(p, c[k]).Linked() && WalkFrom(Release(p, c[k]), c[j], count) == |p.freeList|
    decreases |p.freeList| - count
  {
    if count < |p.freeList| {
      var next := if j == k then 0 else j + 1;
      assert IsLink(p, c, j);
      CycleNeverEnds(p, c, k, next, count + 1);
    }
  }

  /** After a second return of a free block, `available()` reports every block of the pool as free. */
  lemma AvailableAfterSecondFree(p: Pool, c: seq<nat>, index: nat)
    requires p.Linked() && IsChain(p, c) && index in c
    ensures index < |p.freeList| && Release(p, index).Linked() && Available(Release(p, index)) == |p.freeList|
  {
    var k :| 0 <= k < |c| && c[k] == index;
    CycleNeverEnds(p, c, k, k, 0);
  }

  // ----- runs -----

  datatype Event = Alloc | Free(block: nat)

  /** The pool, the blocks handed out and not yet returned, and the free chain. */
  datatype State = State(pool: Pool, live: set<nat>, chain: seq<nat>)

  ghost predicate Inv(s: State) {
    && s.pool.Sized() && s.pool.Linked() && IsChain(s.pool, s.chain)
    && (forall i :: i in s.live ==> i < |s.pool.freeList| && i !in s.chain)
    && (forall i :: 0 <= i < |s.pool.freeList| ==> i in s.live || i in s.chain)
    && |s.live| + |s.chain| == |s.pool.freeList|
  }

  /** Allocation hands out the block at the returned offset; only live blocks may be returned, any other
      return is ignored here. */
  ghost function Step(s: State, e: Event): State
    requires Inv(s)
  {
    match e
    case Alloc =>
      if s.chain == [] then s else State(Allocate(s.pool).1, s.live + {s.chain[0]}, s.chain[1..])
    case Free(i) =>
      if i in s.live then State(Deallocate(s.pool, i * s.pool.blockSize), s.live - {i}, [i] + s.chain) else s
  }

  lemma AllocKeeps(s: State)
    requires Inv(s) && s.chain != []
    ensures Inv(Step(s, Alloc))
  {
    var head := s.chain[0];
    AllocateChain(s.pool, s.chain);
    assert head in s.chain;
    assert s.chain == [head] + s.chain[1..];
  }

  /** The pointer to block `i` is recognised as such. */
  lemma PointerToBlock(p: Pool, i: nat)
    requires p.Sized() && i < |p.freeList|
    ensures InPool(p, i * p.blockSize) && Deallocate(p, i * p.blockSize) == Release(p, i)
  {
    DivModUnique(i * p.blockSize, p.blockSize, i, 0);
    MulStrict(i, |p.freeList|, p.blockSize);
  }

  /** Any pointer into a block returns that block, and any other pointer returns nothing. */
  lemma InteriorPointer(p: Pool, offset: int, i: nat)
    requires p.Sized() && i < |p.freeList|
    ensures i * p.blockSize <= offset < i * p.blockSize + p.blockSize ==> Deallocate(p, offset) == Release(p, i)
    ensures offset < 0 || offset >= |p.freeList| * p.blockSize ==> Deallocate(p, offset) == p
  {
    if i * p.blockSize <= offset < i * p.blockSize + p.blockSize {
      DivModUnique(offset, p.blockSize, i, offset - i * p.blockSize);
      MulStrict(i, |p.freeList|, p.blockSize);
      MulMono(0, i, p.blockSize);
    }
  }

  lemma FreeKeeps(s: State, i: nat)
    requires Inv(s) && i in s.live
    ensures Inv(Step(s, Free(i)))
  {
    PointerToBlock(s.pool, i);
    ReleaseChain(s.pool, s.chain, i);
  }

  lemma StepKeeps(s: State, e: Event)
    requires Inv(s)
    ensures Inv(Step(s, e))
    ensures Step(s, e).pool.blockSize == s.pool.blockSize
    ensures |Step(s, e).pool.freeList| == |s.pool.freeList|
  {
    match e
    case Alloc =>
      if s.chain != [] {
        AllocKeeps(s);
      }
    case Free(i) =>
      if i in s.live {
        FreeKeeps(s, i);
        PointerToBlock(s.pool, i);
      }
  }

  ghost function Start(blockSize: nat, numBlocks: nat): State
    requires 0 < numBlocks
  {
    State(Fresh(blockSize, numBlocks), {}, seq(numBlocks, i => i))
  }

  lemma FreshLinked(blockSize: nat, numBlocks: nat)
    requires 0 < blockSize && 0 < numBlocks < NIL
    ensures Fresh(blockSize, numBlocks).Sized() && Fresh(blockSize, numBlocks).Linked()
  {
  }

  lemma AllInChain(numBlocks: nat, i: nat)
    requires i < numBlocks
    ensures i in seq(numBlocks, j => j)
  {
    assert seq(numBlocks, j => j)[i] == i;
  }

  lemma StartInv(blockSize: nat, numBlocks: nat)
    requires 0 < blockSize && 0 < numBlocks < NIL
    ensures Inv(Start(blockSize, numBlocks))
  {
    FreshChain(blockSize, numBlocks);
    FreshLinked(blockSize, numBlocks);
    var s := Start(blockSize, numBlocks);
    forall i | 0 <= i < numBlocks
      ensures i in s.live || i in s.chain
    {
      AllInChain(numBlocks, i);
    }
  }

  /** The state after any run of allocations and returns of live blocks. */
  ghost function Run(blockSize: nat, numBlocks: nat, es: seq<Event>): (s: State)
    requires 0 < blockSize && 0 < numBlocks < NIL
    ensures Inv(s)
    ensures s.pool.blockSize == blockSize && |s.pool.freeList| == numBlocks
  {
    if es == [] then
      StartInv(blockSize, numBlocks);
      Start(blockSize, numBlocks)
    else
      var before := Run(blockSize, numBlocks, es[..|es| - 1]);
      var e := es[|es| - 1];
      StepKeeps(before, e);
      Step(before, e)
  }

  /** In every run: the free chain is finite, without repetition and disjoint from the live blocks, its
      length, which `available()` returns, is blocks minus live, and allocation fails exactly when all
      blocks are live; otherwise it returns the start of a block that is not live. */
  lemma PoolAccounting(blockSize: nat, numBlocks: nat, es: seq<Event>)
    requires 0 < blockSize && 0 < numBlocks < NIL
    ensures var s := Run(blockSize, numBlocks, es);
            && IsChain(s.pool, s.chain)
            && (forall i :: i in s.chain ==> i !in s.live)
            && Available(s.pool) == |s.chain| == numBlocks - |s.live|
            && (Allocate(s.pool).0 == None <==> |s.live| == numBlocks)
            && (s.chain != [] ==> s.chain[0] !in s.live && Allocate(s.pool).0 == Some(s.chain[0] * blockSize))
  {
    var s := Run(blockSize, numBlocks, es);
    AllocateChain(s.pool, s.chain);
    AvailableIsChain(s.pool, s.chain);
    if s.chain != [] {
      assert s.chain[0] in s.chain;
    }
  }

  /** The byte ranges of two live blocks lie inside the pool and do not overlap. */
  lemma LiveBlocksDisjoint(s: State, i: nat, j: nat)
    requires Inv(s) && i in s.live && j in s.live && i < j
    ensures i * s.pool.blockSize + s.pool.blockSize <= j * s.pool.blockSize
    ensures j * s.pool.blockSize + s.pool.blockSize <= |s.pool.freeList| * s.pool.blockSize
  {
    MulStrict(i, j, s.pool.blockSize);
    MulStrict(j, |s.pool.freeList|, s.pool.blockSize);
  }

  class BlockPool {
    const blockSize: nat
    const freeList: array<nat>
    var nextFree: nat

    ghost function Value(): Pool
      reads this, freeList
    {
      Pool(blockSize, freeList[..], nextFree)
    }

    ghost predicate Valid()
      reads this, freeList
    {
      Value().Sized() && Value().Linked()
    }

    constructor (blockSize: nat, numBlocks: nat)
      requires 0 < blockSize && 0 < numBlocks < NIL
      ensures Valid() && fresh(freeList)
      ensures Value() == Fresh(blockSize, numBlocks)
    {
      this.blockSize := blockSize;
      freeList := new nat[numBlocks];
      nextFree := 0;
      new;
      for i := 0 to numBlocks - 1
        invariant nextFree == 0
        invariant forall j :: 0 <= j < i ==> freeList[j] == j + 1
      {
        freeList[i] := i + 1;
      }
      freeList[numBlocks - 1] := NIL;
      assert Value() == Fresh(blockSize, numBlocks);
    }

    method AllocateBlock() returns (r: Option<nat>)
      requires Valid()
      modifies this`nextFree
      ensures Valid()
      ensures (r, Value()) == Allocate(old(Value()))
    {
      if nextFree == NIL {
        return None;
      }
      var index := nextFree;
      nextFree := freeList[index];
      r := Some(index * blockSize);
    }

    /** Pointers outside the pool are ignored; a pointer into a block returns that block, free or not. */
    method DeallocateBlock(offset: int)
      requires Valid()
      modifies this`nextFree, freeList
      ensures Valid()
      ensures Value() == Deallocate(old(Value()), offset)
    {
      if offset < 0 || offset >= freeList.Length * blockSize {
        return;
      }
      BlockInRange(Value(), offset);
      var index := offset / blockSize;
      freeList[index] := nextFree;
      nextFree := index;
    }

    /** The walk along the list, which gives up after as many steps as there are blocks. */
    method AvailableBlocks() returns (count: nat)
      requires Valid()
      ensures count == Available(Value())
    {
      count := 0;
      var current: nat := nextFree;
      while current != NIL && count < freeList.Length
        invariant count <= freeList.Length && (current == NIL || current < freeList.Length)
        invariant WalkFrom(Value(), current, count) == Available(Value())
        decreases freeList.Length - count
      {
        assert Value().freeList[current] == freeList[current];
        count := count + 1;
        current := freeList[current];
      }
    }
  }
}
