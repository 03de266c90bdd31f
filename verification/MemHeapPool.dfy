/** The memory heap object in place (os/memheap.c): every block header holds a flag and the links of two rings,
    one through all blocks in address order closed by the tailer, one through the free blocks closed by the
    header in the control block. Each call is proved to have the effect `MemHeap` gives it on the tiling. */
module MemHeapPool {
  import opened Tiling
  import opened WaitList
  import opened Ring
  import opened MemHeap
  import opened MemHeapSizes
  import SmallMem

  type byte = SmallMem.byte

  /** The free list's header, which stands outside the pool, and the null link. */
  const HEAD := -1
  const NIL := -2

  // ---- the ring of blocks ----

  /** The headers in address order, the tailer last. */
  ghost function Nodes(bs: seq<Block>, tail: int): seq<int>
  {
    seq(|bs| + 1, i requires 0 <= i <= |bs| => StartOf(bs, i, tail))
  }

  /** The block ring visits the headers of exactly these blocks, which tile the pool. */
  ghost predicate Strung(next: map<int, int>, prev: map<int, int>, bs: seq<Block>, tail: int)
  {
    Chain(bs, 0, tail, LEAST) && IsRing(next, prev, Nodes(bs, tail))
  }

  /** The links of a block lead to its neighbours, and their distance tells its size. */
  lemma Neighbours(next: map<int, int>, prev: map<int, int>, bs: seq<Block>, tail: int, i: nat)
    requires Strung(next, prev, bs, tail) && i < |bs|
    ensures bs[i].start in next && next[bs[i].start] == bs[i].end == StartOf(bs, i + 1, tail)
    ensures bs[i].start in prev && prev[bs[i].start] == if i > 0 then bs[i - 1].start else tail
    ensures bs[i].end in next && bs[i].end in prev && prev[bs[i].end] == bs[i].start
  {
    var nodes := Nodes(bs, tail);
    EndIsStart(bs, 0, tail, LEAST, i);
    Around(next, prev, nodes, i);
    Around(next, prev, nodes, i + 1);
  }

  lemma NewNode(bs: seq<Block>, tail: int, i: nat, x: int)
    requires Chain(bs, 0, tail, LEAST) && i < |bs| && bs[i].start < x < bs[i].end
    ensures x !in Nodes(bs, tail)
  {
    Bounds(bs, 0, tail, LEAST);
    forall k | 0 <= k <= |bs|
      ensures StartOf(bs, k, tail) != x
    {
      assert k < |bs| && k < i ==> bs[k].end <= bs[i].start;
      assert i < k < |bs| ==> bs[i].end <= bs[k].start;
    }
  }

  lemma CutNodes(bs: seq<Block>, tail: int, i: nat, a: Block, b: Block)
    requires i < |bs| && a.start == bs[i].start
    ensures Nodes(Replace(bs, i, 1, [a, b]), tail) == Inserted(Nodes(bs, tail), i, b.start)
  {
    ReplaceAt(bs, i, 1, [a, b]);
  }

  lemma JoinedNodes(bs: seq<Block>, tail: int, i: nat, a: Block)
    requires i + 1 < |bs| && a.start == bs[i].start
    ensures Nodes(Replace(bs, i, 2, [a]), tail) == Removed(Nodes(bs, tail), i + 1)
  {
    ReplaceAt(bs, i, 2, [a]);
  }

  lemma KeptNodes(bs: seq<Block>, tail: int, i: nat, a: Block)
    requires i < |bs| && a.start == bs[i].start
    ensures Nodes(Replace(bs, i, 1, [a]), tail) == Nodes(bs, tail)
  {
    ReplaceAt(bs, i, 1, [a]);
  }

  /** The four stores that link in a header cut out of block `i`. */
  lemma CutStrung(next: map<int, int>, prev: map<int, int>, bs: seq<Block>, tail: int, i: nat, a: Block, b: Block)
    requires Strung(next, prev, bs, tail) && i < |bs|
    requires a.start == bs[i].start && a.end == b.start && b.end == bs[i].end
    requires a.start + LEAST <= a.end && b.start + LEAST <= b.end
    ensures a.start in next
    ensures var h, x, after := a.start, b.start, next[a.start];
            Strung(next[x := after][h := x], prev[x := h][after := x], Replace(bs, i, 1, [a, b]), tail)
  {
    NewNode(bs, tail, i, b.start);
    InsertAfter(next, prev, Nodes(bs, tail), i, b.start);
    CutNodes(bs, tail, i, a, b);
    ReplaceChain(bs, 0, tail, LEAST, i, 1, [a, b]);
  }

  /** The two stores that unlink the header behind block `i`, whose addresses fall to it. */
  lemma JoinedStrung(next: map<int, int>, prev: map<int, int>, bs: seq<Block>, tail: int, i: nat, a: Block)
    requires Strung(next, prev, bs, tail) && i + 1 < |bs| && a.start == bs[i].start && a.end == bs[i + 1].end
    ensures bs[i + 1].start in next && bs[i + 1].start in prev && prev[bs[i + 1].start] == a.start
    ensures var f := bs[i + 1].start;
            Strung(next[a.start := next[f]], prev[next[f] := a.start], Replace(bs, i, 2, [a]), tail)
  {
    Around(next, prev, Nodes(bs, tail), i + 1);
    RemoveAt(next, prev, Nodes(bs, tail), i + 1);
    JoinedNodes(bs, tail, i, a);
    assert Follows(bs, i + 1);
    ReplaceChain(bs, 0, tail, LEAST, i, 2, [a]);
  }

  // ---- the flags ----

  ghost predicate Mark(used: map<int, bool>, b: Block)
  {
    b.start in used && used[b.start] == b.used
  }

  ghost predicate Flagged(used: map<int, bool>, bs: seq<Block>, tail: int)
  {
    tail in used && used[tail] && forall i :: 0 <= i < |bs| ==> Mark(used, bs[i])
  }

  lemma FlagsReplaced(u: map<int, bool>, v: map<int, bool>, bs: seq<Block>, tail: int, i: nat, n: nat, mid: seq<Block>)
    requires Chain(bs, 0, tail, LEAST) && Flagged(u, bs, tail) && 0 < n && i + n <= |bs|
    requires forall x :: x in u && !(bs[i].start <= x < bs[i + n - 1].end) ==> x in v && v[x] == u[x]
    requires forall k :: 0 <= k < |mid| ==> Mark(v, mid[k])
    ensures Flagged(v, Replace(bs, i, n, mid), tail)
  {
    var r := Replace(bs, i, n, mid);
    ReplaceAt(bs, i, n, mid);
    Bounds(bs, 0, tail, LEAST);
    forall k | 0 <= k < |r|
      ensures Mark(v, r[k])
    {
      if k < i {
        assert Mark(u, bs[k]) && bs[k].end <= bs[i].start;
      } else if k >= i + |mid| {
        var j := k - |mid| + n;
        assert Mark(u, bs[j]) && bs[i + n - 1].end <= bs[j].start;
      }
    }
  }

  /** The flags behind a block's links tell which neighbours are free. */
  lemma FlagsTell(next: map<int, int>, prev: map<int, int>, used: map<int, bool>, bs: seq<Block>, tail: int, i: nat)
    requires Strung(next, prev, bs, tail) && Flagged(used, bs, tail) && i < |bs|
    ensures var h := bs[i].start;
            && h in next && next[h] in used && (!used[next[h]] <==> FreeAfter(bs, i))
            && h in prev && prev[h] in used && (!used[prev[h]] <==> FreeBefore(bs, i))
  {
    Neighbours(next, prev, bs, tail, i);
    assert i + 1 < |bs| ==> Mark(used, bs[i + 1]);
    assert 0 < i ==> Mark(used, bs[i - 1]);
  }

  // ---- the ring of free blocks ----

  ghost predicate FreeRing(next: map<int, int>, prev: map<int, int>, free: seq<int>)
  {
    IsRing(next, prev, [HEAD] + free)
  }

  lemma FreePush(next: map<int, int>, prev: map<int, int>, free: seq<int>, x: int)
    requires FreeRing(next, prev, free) && x !in free && x != HEAD
    ensures HEAD in next
    ensures FreeRing(next[x := next[HEAD]][HEAD := x], prev[x := HEAD][next[HEAD] := x], [x] + free)
  {
    InsertAfter(next, prev, [HEAD] + free, 0, x);
    assert Inserted([HEAD] + free, 0, x) == [HEAD] + ([x] + free);
  }

  lemma FreeDrop(next: map<int, int>, prev: map<int, int>, free: seq<int>, x: int)
    requires FreeRing(next, prev, free) && x in free
    ensures x in next && x in prev
    ensures FreeRing(next[prev[x] := next[x]], prev[next[x] := prev[x]], Without(free, x))
  {
    var k := PlaceInRing(free, x);
    RemoveAt(next, prev, [HEAD] + free, k + 1);
  }

  lemma PlaceInRing(free: seq<int>, x: int) returns (k: nat)
    requires Distinct([HEAD] + free) && x in free
    ensures k < |free| && ([HEAD] + free)[k + 1] == x && Removed([HEAD] + free, k + 1) == [HEAD] + Without(free, x)
  {
    var ring := [HEAD] + free;
    k :| 0 <= k < |free| && free[k] == x;
    assert free == ring[1..];
    WithoutAt(free, k);
    assert Removed(ring, k + 1) == [HEAD] + (free[..k] + free[k + 1..]);
  }

  /** The links of a header outside a ring do not matter to it. */
  lemma OutsideRing(next: map<int, int>, prev: map<int, int>, free: seq<int>, x: int, v: int)
    requires FreeRing(next, prev, free) && x !in free && x != HEAD
    ensures FreeRing(next[x := v], prev[x := v], free)
  {
    var ring, next', prev' := [HEAD] + free, next[x := v], prev[x := v];
    forall i | 0 <= i < |ring|
      ensures StepAt(next', prev', ring, i)
    {
      assert StepAt(next, prev, ring, i);
    }
  }

  // ---- the blocks an operation touches ----

  /** Block `i` ends at `x`, where a free block takes over. */
  ghost function Cut(bs: seq<Block>, i: nat, x: int): seq<Block>
    requires i < |bs|
  {
    Replace(bs, i, 1, [Block(bs[i].start, x, bs[i].used), Block(x, bs[i].end, false)])
  }

  ghost function Flip(bs: seq<Block>, i: nat, to: bool): seq<Block>
    requires i < |bs|
  {
    Replace(bs, i, 1, [bs[i].(used := to)])
  }

  /** Block `i` takes over the addresses of the one behind it. */
  ghost function Join(bs: seq<Block>, i: nat): seq<Block>
    requires i + 1 < |bs|
  {
    Replace(bs, i, 2, [Block(bs[i].start, bs[i + 1].end, bs[i].used)])
  }

  /** An allocation from free block `i` before the block is marked used. */
  ghost function Spent(s: State, i: nat, n: int): State
    requires i < |s.blocks|
  {
    var b := s.blocks[i];
    var rest := Without(s.free, b.start);
    if Payload(b) >= n + HDR + MINI then
      s.(blocks := Cut(s.blocks, i, b.start + n + HDR), free := [b.start + n + HDR] + rest,
         available := s.available - n - HDR)
    else
      s.(free := rest, available := s.available - Payload(b))
  }

  lemma GrantFlips(s: State, i: nat, n: int)
    requires i < |s.blocks|
    ensures var r := Spent(s, i, n).blocks;
            && i < |r| && r[i].start == s.blocks[i].start
            && Grant(s, i, n) == Peak(Spent(s, i, n)).(blocks := Flip(r, i, true))
  {
    assert Flip(Spent(s, i, n).blocks, i, true) == Granted(s, i, n).blocks;
  }

  lemma SplitIsNew(s: State, i: nat, n: int)
    requires Inv(s) && i < |s.blocks| && !s.blocks[i].used && MINI <= n <= Payload(s.blocks[i])
    ensures s.blocks[i].start in s.free && 0 <= s.blocks[i].start
    ensures n + HDR + MINI <= Payload(s.blocks[i]) ==>
              s.blocks[i].start + n + HDR !in Without(s.free, s.blocks[i].start)
  {
    FreeIsListed(s, i);
    if n + HDR + MINI <= Payload(s.blocks[i]) {
      GrantKeepsInv(s, i, n);
      FirstIsNew(Without(s.free, s.blocks[i].start), s.blocks[i].start + n + HDR);
    }
  }

  /** A free block is in the free list, at an address of the pool. */
  lemma FreeIsListed(s: State, i: nat)
    requires Inv(s) && i < |s.blocks|
    ensures 0 <= s.blocks[i].start && (!s.blocks[i].used ==> s.blocks[i].start in s.free)
  {
    Bounds(s.blocks, 0, s.pool - HDR, LEAST);
    assert s.blocks[i] in s.blocks;
    assert !s.blocks[i].used ==> s.blocks[i].start in Members(s.free);
  }

  /** The header at place `k` of the free list: its block, its size by its links, and what comes after it. */
  lemma FreeAt(s: State, next: map<int, int>, prev: map<int, int>, nextFree: map<int, int>, prevFree: map<int, int>, k: nat)
    requires Inv(s) && Strung(next, prev, s.blocks, s.pool - HDR) && FreeRing(nextFree, prevFree, s.free) && k < |s.free|
    ensures var i, h := Find(s.blocks, s.free[k], 0), s.free[k];
            && i < |s.blocks| && s.blocks[i].start == h && !s.blocks[i].used && h != HEAD
            && h in next && next[h] - h - HDR == Payload(s.blocks[i]) == SizeAt(s.blocks, h)
            && h in nextFree && nextFree[h] == if k + 1 < |s.free| then s.free[k + 1] else HEAD
  {
    var i := Find(s.blocks, s.free[k], 0);
    ListedIsFree(s, k);
    FreeIsListed(s, i);
    Neighbours(next, prev, s.blocks, s.pool - HDR, i);
    Around(nextFree, prevFree, [HEAD] + s.free, k + 1);
  }

  lemma FirstFreeAt(nextFree: map<int, int>, prevFree: map<int, int>, free: seq<int>)
    requires FreeRing(nextFree, prevFree, free)
    ensures HEAD in nextFree && nextFree[HEAD] == if free == [] then HEAD else free[0]
  {
    Around(nextFree, prevFree, [HEAD] + free, 0);
  }

  lemma FirstIsNew(s: seq<int>, x: int)
    requires Distinct([x] + s)
    ensures x !in s
  {
    var r := [x] + s;
    assert r[0] == x && s == r[1..];
  }

  /** Marking used block `i` free. */
  lemma FlipFacts(s: State, i: nat, r: seq<Block>)
    requires Inv(s) && i < |s.blocks| && s.blocks[i].used && r == Flip(s.blocks, i, false)
    ensures |r| == |s.blocks| && r[i] == s.blocks[i].(used := false) && (0 < i ==> r[i - 1] == s.blocks[i - 1])
    ensures FreeBefore(r, i) == FreeBefore(s.blocks, i) && (!FreeBefore(s.blocks, i) ==> r == Unused(s, i).blocks)
    ensures FreeAfter(r, i) ==> r[i + 1].start in s.free
    ensures 0 <= s.blocks[i].start
  {
    FreeIsListed(s, i);
    if i + 1 < |s.blocks| {
      FreeIsListed(s, i + 1);
    }
  }

  lemma ReclaimAlone(s: State, i: nat, a: State)
    requires Inv(s) && i < |s.blocks| && s.blocks[i].used && !FreeBefore(s.blocks, i)
    requires a == MemHeap.Absorb(Unused(s, i), i) && Inv(Reclaim(s, i))
    ensures Reclaim(s, i) == a.(free := [s.blocks[i].start] + a.free) && s.blocks[i].start !in a.free
  {
    FirstIsNew(a.free, s.blocks[i].start);
  }

  lemma JoinFacts(s: State, i: nat, r: seq<Block>)
    requires Inv(s) && i < |s.blocks| && s.blocks[i].used && FreeBefore(s.blocks, i)
    requires |Flip(s.blocks, i, false)| == |s.blocks| && r == Join(Flip(s.blocks, i, false), i - 1)
    ensures r == Unused(s, i).blocks && i - 1 < |r| && r[i - 1].start == s.blocks[i - 1].start && !r[i - 1].used
    ensures FreeAfter(r, i - 1) ==> r[i].start in s.free
  {
    if i + 1 < |s.blocks| {
      FreeIsListed(s, i + 1);
    }
  }

  lemma GrowFacts(s: State, i: nat, n: int, r: State)
    requires Inv(s) && i < |s.blocks| && s.blocks[i].used && FreeAfter(s.blocks, i) && r == Grow(s, i, n) && Inv(r)
    ensures s.blocks[i + 1].start in s.free && 0 <= s.blocks[i].start
    ensures s.blocks[i].start + HDR + n !in Without(s.free, s.blocks[i + 1].start)
    ensures r.free == [s.blocks[i].start + HDR + n] + Without(s.free, s.blocks[i + 1].start)
    ensures r.(blocks := [], free := []) ==
            Peak(s.(blocks := [], free := [], available := s.available - (n - Payload(s.blocks[i]))))
  {
    FreeIsListed(s, i);
    FreeIsListed(s, i + 1);
    FirstIsNew(Without(s.free, s.blocks[i + 1].start), s.blocks[i].start + HDR + n);
  }

  lemma GrowBlocks(s: State, i: nat, n: int)
    requires i + 1 < |s.blocks| && s.blocks[i].used
    ensures var j, cut := Join(s.blocks, i), s.blocks[i].start + HDR + n;
            && i < |j| && j[i] == Block(s.blocks[i].start, s.blocks[i + 1].end, true)
            && Cut(j, i, cut) == Grow(s, i, n).blocks
  {
  }

  /** Used block `i` cut at `x`: the blocks, the list and the room before the rest is put in. */
  ghost function CutBlocks(bs: seq<Block>, i: nat, x: int): seq<Block>
    requires i < |bs|
  {
    if FreeAfter(bs, i) then Replace(bs, i, 2, [Block(bs[i].start, x, true), Block(x, bs[i + 1].end, false)])
    else Carve(bs, i, x - bs[i].start)
  }

  ghost function CutList(bs: seq<Block>, i: nat, free: seq<int>): seq<int>
    requires i < |bs|
  {
    if FreeAfter(bs, i) then Without(free, bs[i + 1].start) else free
  }

  ghost function CutRoom(bs: seq<Block>, i: nat, available: int): int
    requires i < |bs|
  {
    if FreeAfter(bs, i) then available - Payload(bs[i + 1]) else available
  }

  lemma ShrinkParts(s: State, i: nat, n: int, x: int)
    requires i < |s.blocks| && x == s.blocks[i].start + HDR + n
    ensures var r := CutBlocks(s.blocks, i, x);
            && i + 1 < |r| && r[i + 1].start == x
            && Shrink(s, i, n) == s.(blocks := r, free := [x] + CutList(s.blocks, i, s.free),
                                     available := CutRoom(s.blocks, i, s.available) + (r[i + 1].end - x - HDR))
  {
  }

  lemma ShrinkList(s: State, i: nat, n: int, x: int)
    requires Inv(s) && i < |s.blocks| && s.blocks[i].used && x == s.blocks[i].start + HDR + n
    requires MINI <= n && n + HDR + MINI < Payload(s.blocks[i])
    ensures 0 <= s.blocks[i].start && x !in CutList(s.blocks, i, s.free)
    ensures FreeAfter(s.blocks, i) ==> s.blocks[i + 1].start in s.free
  {
    ShrinkKeepsInv(s, i, n);
    FreeIsListed(s, i);
    FirstIsNew(CutList(s.blocks, i, s.free), x);
    if FreeAfter(s.blocks, i) {
      FreeIsListed(s, i + 1);
    }
  }

  lemma CutJoins(bs: seq<Block>, i: nat, x: int, c: seq<Block>)
    requires i < |bs| && bs[i].used && c == Cut(bs, i, x)
    ensures |c| == |bs| + 1 && c[i] == Block(bs[i].start, x, true) && c[i + 1] == Block(x, bs[i].end, false)
    ensures FreeAfter(c, i + 1) == FreeAfter(bs, i) && (FreeAfter(c, i + 1) ==> c[i + 2] == bs[i + 1])
    ensures CutBlocks(bs, i, x) == if FreeAfter(c, i + 1) then Join(c, i + 1) else c
  {
  }

  // ---- bytes ----

  ghost predicate Copied(was: seq<byte>, now: seq<byte>, src: int, dst: int, len: int)
  {
    && |now| == |was| && 0 <= src && src + len <= |was| && 0 <= dst && dst + len <= |was|
    && forall y :: dst <= y < dst + len ==> now[y] == was[src + (y - dst)]
  }

  /** Every byte of every used block is as it was. */
  ghost predicate BytesKept(bs: seq<Block>, was: seq<byte>, now: seq<byte>)
  {
    |now| == |was| && forall i, x :: 0 <= i < |bs| && Within(bs[i], x) && 0 <= x < |was| ==> now[x] == was[x]
  }

  ghost predicate Within(b: Block, x: int) { b.used && b.start <= x < b.end }

  function Lesser(a: int, b: int): (r: int)
    ensures r <= a && r <= b && (r == a || r == b)
  {
    if a < b then a else b
  }

  /** A block just handed out lies inside a block that was free, so apart from every used one. */
  lemma NewHome(s: State, i: nat, n: int, m: State, p: Ptr, q: Ptr, len: int)
    requires Inv(s) && Live(s.blocks, p, i) && Served(s, n, m, q) && q != Null && len <= Payload(s.blocks[i]) && len <= n
    ensures 0 <= p.off && p.off + len <= s.pool && 0 <= q.off && q.off + len <= s.pool
    ensures q.off + len <= p.off || p.off + len <= q.off
    ensures forall k, x :: 0 <= k < |s.blocks| && Within(s.blocks[k], x) ==> x < q.off || q.off + len <= x
  {
    var j := Find(s.blocks, s.free[Candidate(s, n)], 0);
    Bounds(s.blocks, 0, s.pool - HDR, LEAST);
    assert SizeAt(s.blocks, s.blocks[j].start) == Payload(s.blocks[j]);
    forall k, x | 0 <= k < |s.blocks| && Within(s.blocks[k], x)
      ensures x < q.off || q.off + len <= x
    {
      assert k < j ==> s.blocks[k].end <= s.blocks[j].start;
      assert j < k ==> s.blocks[j].end <= s.blocks[k].start;
    }
  }

  lemma InPool(s: State, i: nat)
    requires Inv(s) && i < |s.blocks|
    ensures 0 <= s.blocks[i].start && s.blocks[i].end <= s.pool - HDR
  {
    Bounds(s.blocks, 0, s.pool - HDR, LEAST);
  }

  lemma FreshRings(next: map<int, int>, prev: map<int, int>, nextFree: map<int, int>, prevFree: map<int, int>, tail: int)
    requires LEAST <= tail && next == prev == map[0 := tail, tail := 0]
    requires nextFree == prevFree == map[HEAD := 0, 0 := HEAD, tail := NIL]
    ensures Strung(next, prev, [Block(0, tail, false)], tail) && FreeRing(nextFree, prevFree, [0])
  {
    assert Nodes([Block(0, tail, false)], tail) == [0, tail];
    assert [HEAD] + [0] == [HEAD, 0];
  }

  // ---- the pool ----

  class Pool {
    const poolSize: int
    var next: map<int, int>
    var prev: map<int, int>
    var nextFree: map<int, int>
    var prevFree: map<int, int>
    var used: map<int, bool>
    var available: int
    var maxUsed: int
    const data: array<byte>
    ghost var blocks: seq<Block>
    ghost var free: seq<int>

    ghost function Snapshot(): State
      reads `blocks, `free, `available, `maxUsed
    {
      State(poolSize, blocks, free, available, maxUsed)
    }

    /** The headers say where the blocks are and which are used. */
    ghost predicate Mapped()
      reads `next, `prev, `used, `blocks
    {
      Strung(next, prev, blocks, poolSize - HDR) && Flagged(used, blocks, poolSize - HDR)
    }

    ghost predicate Chained()
      reads `nextFree, `prevFree, `free
    {
      FreeRing(nextFree, prevFree, free)
    }

    ghost predicate Valid()
      reads this
    {
      Inv(Snapshot()) && Mapped() && Chained() && poolSize <= data.Length
    }

    /** One free block between the two headers of the smallest possible pool. */
    constructor (region: array<byte>)
      requires LEAST + HDR + SmallMem.ALIGN <= region.Length
      ensures Valid() && data == region && poolSize == region.Length / SmallMem.ALIGN * SmallMem.ALIGN
      ensures blocks == [Block(0, poolSize - HDR, false)] && free == [0] && available == poolSize - 2 * HDR
    {
      var pool := region.Length / SmallMem.ALIGN * SmallMem.ALIGN;
      var tail := pool - HDR;
      poolSize, data := pool, region;
      next, prev := map[0 := tail, tail := 0], map[0 := tail, tail := 0];
      nextFree, prevFree := map[HEAD := 0, 0 := HEAD, tail := NIL], map[HEAD := 0, 0 := HEAD, tail := NIL];
      used := map[0 := false, tail := true];
      available, maxUsed := pool - 2 * HDR, 2 * HDR;
      blocks, free := [Block(0, tail, false)], [0];
      new;
      FreshInv(pool);
      FreshRings(next, prev, nextFree, prevFree, tail);
    }

    // ---- stores on the two rings ----

    /** A header for the free block `x` is written inside block `i` at `h` and linked in behind it. */
    method SplitOff(h: int, x: int, ghost i: nat)
      requires Mapped() && i < |blocks| && h == blocks[i].start && h + LEAST <= x && x + LEAST <= blocks[i].end
      modifies `next, `prev, `used, `blocks
      ensures Mapped() && blocks == Cut(old(blocks), i, x)
    {
      ghost var bs, mid := blocks, [Block(h, x, blocks[i].used), Block(x, blocks[i].end, false)];
      CutStrung(next, prev, bs, poolSize - HDR, i, mid[0], mid[1]);
      Neighbours(next, prev, bs, poolSize - HDR, i);
      assert Mark(used, bs[i]);
      FlagsReplaced(used, used[x := false], bs, poolSize - HDR, i, 1, mid);
      used := used[x := false];
      var after := next[h];
      next, prev := next[x := after], prev[x := h];
      prev := prev[after := x];
      next := next[h := x];
      blocks := Replace(bs, i, 1, mid);
    }

    method SetUsed(h: int, to: bool, ghost i: nat)
      requires Mapped() && i < |blocks| && h == blocks[i].start
      modifies `used, `blocks
      ensures Mapped() && blocks == Flip(old(blocks), i, to)
    {
      ghost var bs, b := blocks, blocks[i].(used := to);
      FlagsReplaced(used, used[h := to], bs, poolSize - HDR, i, 1, [b]);
      ReplaceChain(bs, 0, poolSize - HDR, LEAST, i, 1, [b]);
      KeptNodes(bs, poolSize - HDR, i, b);
      used := used[h := to];
      blocks := Replace(bs, i, 1, [b]);
    }

    /** The header behind block `i` is unlinked: its addresses fall to block `i`. */
    method Unlink(h: int, f: int, ghost i: nat)
      requires Mapped() && i + 1 < |blocks| && h == blocks[i].start && f == blocks[i + 1].start
      modifies `next, `prev, `blocks
      ensures Mapped() && blocks == Join(old(blocks), i)
    {
      ghost var bs, one := blocks, Block(h, blocks[i + 1].end, blocks[i].used);
      JoinedStrung(next, prev, bs, poolSize - HDR, i, one);
      assert Mark(used, bs[i]);
      FlagsReplaced(used, used, bs, poolSize - HDR, i, 2, [one]);
      prev := prev[next[f] := prev[f]];
      next := next[prev[f] := next[f]];
      blocks := Replace(bs, i, 2, [one]);
    }

    method PushFree(x: int)
      requires Chained() && x !in free && x != HEAD
      modifies `nextFree, `prevFree, `free
      ensures Chained() && free == [x] + old(free)
    {
      FreePush(nextFree, prevFree, free, x);
      var after := nextFree[HEAD];
      nextFree, prevFree := nextFree[x := after], prevFree[x := HEAD];
      prevFree := prevFree[after := x];
      nextFree := nextFree[HEAD := x];
      free := [x] + free;
    }

    method DropFree(x: int)
      requires Chained() && x in free
      modifies `nextFree, `prevFree, `free
      ensures Chained() && free == Without(old(free), x)
    {
      FreeDrop(nextFree, prevFree, free, x);
      prevFree := prevFree[nextFree[x] := prevFree[x]];
      nextFree := nextFree[prevFree[x] := nextFree[x]];
      free := Without(free, x);
    }

    // ---- allocation ----

    method CountPeak()
      modifies `maxUsed
      ensures Snapshot() == Peak(old(Snapshot()))
    {
      if poolSize - available > maxUsed {
        maxUsed := poolSize - available;
      }
    }

    /** Header `h` leaves the free list, and its own links there are cleared. */
    method Withdraw(h: int)
      requires Chained() && h in free && h != HEAD
      modifies `nextFree, `prevFree, `free
      ensures Chained() && free == Without(old(free), h)
      ensures h in nextFree && nextFree[h] == NIL && h in prevFree && prevFree[h] == NIL
    {
      DropFree(h);
      OutsideRing(nextFree, prevFree, free, h, NIL);
      nextFree, prevFree := nextFree[h := NIL], prevFree[h := NIL];
    }

    method TakeBlock(h: int, n: int, ghost i: nat)
      requires Valid() && i < |blocks| && !blocks[i].used && h == blocks[i].start && MINI <= n <= Payload(blocks[i])
      modifies `next, `prev, `nextFree, `prevFree, `used, `available, `maxUsed, `blocks, `free
      ensures Snapshot() == Grant(old(Snapshot()), i, n)
      ensures Valid()
    {
      ghost var s := Snapshot();
      SplitIsNew(s, i, n);
      TakeSpace(h, n, i);
      CountPeak();
      GrantFlips(s, i, n);
      SetUsed(h, true, i);
      GrantKeepsInv(s, i, n);
    }

    /** The free block at `h` leaves the free list, to its rest if it is split. */
    method TakeSpace(h: int, n: int, ghost i: nat)
      requires Mapped() && Chained() && i < |blocks| && h == blocks[i].start && h in free && 0 <= h
      requires MINI <= n && (n + HDR + MINI <= Payload(blocks[i]) ==> h + n + HDR !in Without(free, h))
      modifies `next, `prev, `nextFree, `prevFree, `used, `available, `maxUsed, `blocks, `free
      ensures Mapped() && Chained() && Snapshot() == Spent(old(Snapshot()), i, n)
    {
      Neighbours(next, prev, blocks, poolSize - HDR, i);
      var freeSize := next[h] - h - HDR;
      if freeSize >= n + HDR + MINI {
        TakePart(h, h + n + HDR, i);
        available := available - n - HDR;
      } else {
        available := available - freeSize;
        Withdraw(h);
      }
    }

    /** The free block at `h` is cut at `x` and leaves the free list to the rest. */
    method TakePart(h: int, x: int, ghost i: nat)
      requires Mapped() && Chained() && i < |blocks| && h == blocks[i].start && h in free && 0 <= h
      requires h + LEAST <= x && x + LEAST <= blocks[i].end && x !in Without(free, h)
      modifies `next, `prev, `nextFree, `prevFree, `used, `blocks, `free
      ensures Mapped() && Chained() && blocks == Cut(old(blocks), i, x) && free == [x] + Without(old(free), h)
    {
      SplitOff(h, x, i);
      Withdraw(h);
      PushFree(x);
    }

    /** Walks the free list to the first block with room for `n` bytes. */
    method Scan(n: int) returns (h: int, freeSize: int, ghost k: nat)
      requires Valid() && MINI <= n
      ensures k == FirstWithRoom(Snapshot(), n, 0)
      ensures freeSize >= n <==> k < |free|
      ensures k < |free| ==> h == free[k]
    {
      FirstFreeAt(nextFree, prevFree, free);
      freeSize, h, k := 0, nextFree[HEAD], 0;
      while h != HEAD && freeSize < n
        invariant k <= |free| && h == (if k < |free| then free[k] else HEAD)
        invariant FirstWithRoom(Snapshot(), n, 0) == FirstWithRoom(Snapshot(), n, k)
        invariant freeSize >= n ==> k < |free| && freeSize == SizeAt(blocks, free[k])
        decreases |free| - k, if freeSize < n then 1 else 0
      {
        FreeAt(Snapshot(), next, prev, nextFree, prevFree, k);
        freeSize := next[h] - h - HDR;
        if freeSize < n {
          h, k := nextFree[h], k + 1;
        }
      }
      if k < |free| {
        FreeAt(Snapshot(), next, prev, nextFree, prevFree, k);
      }
    }

    /** The first block in the free list with room is handed out, or nothing changes. */
    method Alloc(size: nat) returns (p: Ptr)
      requires Valid() && size < SmallMem.WORD
      modifies `next, `prev, `nextFree, `prevFree, `used, `available, `maxUsed, `blocks, `free
      ensures Valid() && Served(old(Snapshot()), Request(size), Snapshot(), p)
      ensures p == Null <==>
              old(available) <= Request(size) || forall b :: b in old(blocks) && !b.used ==> Payload(b) < Request(size)
      ensures if p == Null then Snapshot() == old(Snapshot())
              else Handed(UsedBlocks(old(blocks)), UsedBlocks(blocks), p, Least(size), Most(size))
    {
      ghost var s := Snapshot();
      FailsExactly(s, Request(size));
      p := AllocRounded(Request(size));
      ServedHands(s, size, Snapshot(), p);
    }

    /** Allocation of a size that is already rounded. */
    method AllocRounded(n: nat) returns (q: Ptr)
      requires Valid() && MINI <= n
      modifies `next, `prev, `nextFree, `prevFree, `used, `available, `maxUsed, `blocks, `free
      ensures Valid() && Served(old(Snapshot()), n, Snapshot(), q)
    {
      if n < available {
        var h, freeSize;
        ghost var k;
        h, freeSize, k := Scan(n);
        if freeSize >= n {
          FreeAt(Snapshot(), next, prev, nextFree, prevFree, k);
          TakeBlock(h, n, Find(blocks, h, 0));
          return At(h + HDR);
        }
      }
      return Null;
    }

    // ---- release ----

    /** The free block behind free block `l` at `h` joins it. */
    method Absorb(h: int, f: int, ghost l: nat)
      requires Mapped() && Chained() && l + 1 < |blocks| && h == blocks[l].start && f == blocks[l + 1].start
      requires !blocks[l].used && f in free
      modifies `next, `prev, `nextFree, `prevFree, `blocks, `free
      ensures Mapped() && Chained() && blocks == Join(old(blocks), l) && free == Without(old(free), f)
    {
      ghost var bs, one := blocks, Block(h, blocks[l + 1].end, blocks[l].used);
      JoinedStrung(next, prev, bs, poolSize - HDR, l, one);
      assert Mark(used, bs[l]);
      FlagsReplaced(used, used, bs, poolSize - HDR, l, 2, [one]);
      prev := prev[next[f] := h];
      next := next[h := next[f]];
      blocks := Replace(bs, l, 2, [one]);
      DropFree(f);
    }

    /** The used block at `h` is released and merged with its free neighbours. */
    method ReleaseBlock(h: int, ghost i: nat)
      requires Valid() && i < |blocks| && blocks[i].used && h == blocks[i].start
      modifies `next, `prev, `nextFree, `prevFree, `used, `available, `blocks, `free
      ensures Snapshot() == Reclaim(old(Snapshot()), i)
      ensures Valid()
    {
      ghost var s := Snapshot();
      ReleaseKeepsInv(s, i);
      SetUsed(h, false, i);
      FlipFacts(s, i, blocks);
      FlagsTell(next, prev, used, blocks, poolSize - HDR, i);
      Neighbours(next, prev, blocks, poolSize - HDR, i);
      available := available + (next[h] - h - HDR);
      if !used[prev[h]] {
        JoinBefore(h, i, s);
      } else {
        ReclaimAlone(s, i, MemHeap.Absorb(Unused(s, i), i));
        EnterFree(h, i, MemHeap.Absorb(Unused(s, i), i));
      }
    }

    /** The block at `h`, already marked free, takes in a free block behind it and enters the free list. */
    method EnterFree(h: int, ghost i: nat, ghost a: State)
      requires Mapped() && Chained() && i < |blocks| && h == blocks[i].start && !blocks[i].used && 0 <= h
      requires FreeAfter(blocks, i) ==> blocks[i + 1].start in free
      requires a == MemHeap.Absorb(Snapshot(), i) && h !in a.free
      modifies `next, `prev, `nextFree, `prevFree, `available, `blocks, `free
      ensures Mapped() && Chained() && Snapshot() == a.(free := [h] + a.free)
    {
      AbsorbNext(h, i);
      PushFree(h);
    }

    /** The block at `h`, already marked free, joins the free block before it, and that the one behind. */
    method JoinBefore(h: int, ghost i: nat, ghost s: State)
      requires Inv(s) && i < |s.blocks| && s.blocks[i].used && h == s.blocks[i].start && FreeBefore(s.blocks, i)
      requires Mapped() && Chained() && s.free == free && s.pool == poolSize
      requires blocks == Flip(s.blocks, i, false) && available == s.available + Payload(s.blocks[i])
      modifies `next, `prev, `nextFree, `prevFree, `available, `blocks, `free
      ensures Mapped() && Chained() && Snapshot() == Reclaim(s, i).(maxUsed := maxUsed)
    {
      FlipFacts(s, i, blocks);
      Neighbours(next, prev, blocks, poolSize - HDR, i);
      available := available + HDR;
      var g := prev[h];
      Unlink(g, h, i - 1);
      JoinFacts(s, i, blocks);
      AbsorbNext(g, i - 1);
    }

    method AbsorbNext(h: int, ghost l: nat)
      requires Mapped() && Chained() && l < |blocks| && h == blocks[l].start && !blocks[l].used
      requires FreeAfter(blocks, l) ==> blocks[l + 1].start in free
      modifies `next, `prev, `nextFree, `prevFree, `available, `blocks, `free
      ensures Mapped() && Chained() && Snapshot() == MemHeap.Absorb(old(Snapshot()), l)
    {
      FlagsTell(next, prev, used, blocks, poolSize - HDR, l);
      Neighbours(next, prev, blocks, poolSize - HDR, l);
      if !used[next[h]] {
        available := available + HDR;
        Absorb(h, next[h], l);
      }
    }

    /** The block of `p` is released and merged; null is ignored. */
    method Free(p: Ptr)
      requires Valid() && (p.At? ==> exists i :: Live(blocks, p, i))
      modifies `next, `prev, `nextFree, `prevFree, `used, `available, `blocks, `free
      ensures Valid()
      ensures p == Null ==> Snapshot() == old(Snapshot())
      ensures forall i :: Live(old(blocks), p, i) ==> Snapshot() == Reclaim(old(Snapshot()), i)
      ensures forall i: nat :: Live(old(blocks), p, i) ==> UsedBlocks(blocks) == UsedBlocks(old(blocks)) - {old(blocks)[i]}
    {
      if p == Null {
        return;
      }
      ghost var i :| Live(blocks, p, i);
      ReclaimUsed(Snapshot(), i);
      LiveIsFound(blocks, poolSize - HDR, p);
      ReleaseBlock(p.off - HDR, i);
    }

    // ---- resizing ----

    /** The used block at `h` grows to `n` bytes into the free block behind it. */
    method GrowBlock(h: int, n: int, oldSize: int, ghost i: nat)
      requires Valid() && i < |blocks| && h == blocks[i].start && blocks[i].used && FreeAfter(blocks, i)
      requires oldSize == Payload(blocks[i]) < n && n + MINI < oldSize + Payload(blocks[i + 1])
      modifies `next, `prev, `nextFree, `prevFree, `used, `available, `maxUsed, `blocks, `free
      ensures Snapshot() == Grow(old(Snapshot()), i, n)
      ensures Valid()
    {
      ghost var s, r := Snapshot(), Grow(Snapshot(), i, n);
      GrowKeepsInv(s, i, n);
      GrowFacts(s, i, n, r);
      GrowBlocks(s, i, n);
      Neighbours(next, prev, blocks, poolSize - HDR, i);
      available := available - (n - oldSize);
      CountPeak();
      MoveHeader(h, next[h], h + HDR + n, i);
    }

    /** The free block behind block `i` is unlinked at `f` and written anew at `x`. */
    method MoveHeader(h: int, f: int, x: int, ghost i: nat)
      requires Mapped() && i + 1 < |blocks| && h == blocks[i].start && f == blocks[i + 1].start
      requires h + LEAST <= x && x + LEAST <= blocks[i + 1].end
      requires Chained() && f in free && x !in Without(free, f) && x != HEAD
      modifies `next, `prev, `nextFree, `prevFree, `used, `blocks, `free
      ensures var j := Join(old(blocks), i);
              i < |j| && j[i] == Block(h, old(blocks)[i + 1].end, old(blocks)[i].used) && blocks == Cut(j, i, x)
      ensures free == [x] + Without(old(free), f)
      ensures Mapped() && Chained()
    {
      DropFree(f);
      Unlink(h, f, i);
      SplitOff(h, x, i);
      PushFree(x);
    }

    /** The used block at `h` is cut down to `n` bytes; a free block behind it joins the rest. */
    method ShrinkBlock(h: int, n: int, ghost i: nat)
      requires Valid() && i < |blocks| && h == blocks[i].start && blocks[i].used
      requires MINI <= n && n + HDR + MINI < Payload(blocks[i])
      modifies `next, `prev, `nextFree, `prevFree, `used, `available, `blocks, `free
      ensures Snapshot() == Shrink(old(Snapshot()), i, n)
      ensures Valid()
    {
      ghost var s := Snapshot();
      var x := h + HDR + n;
      ShrinkList(s, i, n, x);
      ShrinkParts(s, i, n, x);
      CutBack(h, x, i);
      PushFree(x);
      Neighbours(next, prev, blocks, poolSize - HDR, i + 1);
      available := available + (next[x] - x - HDR);
      ShrinkKeepsInv(s, i, n);
    }

    /** The used block at `h` ends at `x`, where a header takes in what comes free. */
    method CutBack(h: int, x: int, ghost i: nat)
      requires Mapped() && Chained() && i < |blocks| && h == blocks[i].start && blocks[i].used
      requires h + LEAST <= x && x + LEAST <= blocks[i].end && (FreeAfter(blocks, i) ==> blocks[i + 1].start in free)
      modifies `next, `prev, `nextFree, `prevFree, `used, `available, `blocks, `free
      ensures Mapped() && Chained() && blocks == CutBlocks(old(blocks), i, x)
      ensures free == CutList(old(blocks), i, old(free)) && available == CutRoom(old(blocks), i, old(available))
    {
      ghost var bs := blocks;
      SplitOff(h, x, i);
      CutJoins(bs, i, x, blocks);
      TakeIn(x, i + 1);
    }

    /** The header at `x`, not yet in the free list, takes in a free block behind it. */
    method TakeIn(x: int, ghost k: nat)
      requires Mapped() && Chained() && k < |blocks| && x == blocks[k].start && !blocks[k].used
      requires FreeAfter(blocks, k) ==> blocks[k + 1].start in free
      modifies `next, `prev, `nextFree, `prevFree, `available, `blocks, `free
      ensures Mapped() && Chained()
      ensures if FreeAfter(old(blocks), k) then
                var f := old(blocks)[k + 1];
                && blocks == Join(old(blocks), k) && free == Without(old(free), f.start)
                && available == old(available) - Payload(f)
              else blocks == old(blocks) && free == old(free) && available == old(available)
    {
      FlagsTell(next, prev, used, blocks, poolSize - HDR, k);
      Neighbours(next, prev, blocks, poolSize - HDR, k);
      if !used[next[x]] {
        var f := next[x];
        Neighbours(next, prev, blocks, poolSize - HDR, k + 1);
        available := available - (next[f] - f - HDR);
        Absorb(x, f, k);
      }
    }

    /** The bytes from `src` on are copied to `dst`. */
    method Copy(dst: int, src: int, len: nat)
      requires 0 <= dst && dst + len <= data.Length && 0 <= src && src + len <= data.Length
      requires dst + len <= src || src + len <= dst
      modifies data
      ensures Copied(old(data[..]), data[..], src, dst, len)
      ensures forall x :: 0 <= x < data.Length && !(dst <= x < dst + len) ==> data[x] == old(data[x])
    {
      var k := 0;
      while k < len
        invariant k <= len && Copied(old(data[..]), data[..], src, dst, k)
        invariant forall x :: 0 <= x < data.Length && !(dst <= x < dst + k) ==> data[x] == old(data[x])
      {
        data[dst + k] := data[src + k];
        k := k + 1;
      }
    }

    method Resize(p: Ptr, n: nat, ghost i: nat) returns (q: Ptr)
      requires Valid() && MINI <= n && Live(blocks, p, i)
      modifies `next, `prev, `nextFree, `prevFree, `used, `available, `maxUsed, `blocks, `free, data
      ensures Valid() && Resized(old(Snapshot()), i, p, n, Snapshot(), q)
      ensures BytesKept(old(blocks), old(data[..]), data[..])
      ensures q.At? ==> Copied(old(data[..]), data[..], p.off, q.off, Lesser(Payload(old(blocks)[i]), n))
    {
      Neighbours(next, prev, blocks, poolSize - HDR, i);
      FlagsTell(next, prev, used, blocks, poolSize - HDR, i);
      InPool(Snapshot(), i);
      var h := p.off - HDR;
      var oldSize := next[h] - h - HDR;
      if n > oldSize {
        var f := next[h];
        if !used[f] {
          Neighbours(next, prev, blocks, poolSize - HDR, i + 1);
          var nextSize := next[f] - f - HDR;
          if nextSize + oldSize > n + MINI {
            GrowBlock(h, n, oldSize, i);
            return p;
          }
        }
        q := Move(p, n, oldSize, i);
        return;
      }
      if n + HDR + MINI >= oldSize {
        return p;
      }
      ShrinkBlock(h, n, i);
      return p;
    }

    /** A new home of `n` bytes is found, filled with the old bytes, and the old home released. */
    method Move(p: Ptr, n: nat, oldSize: int, ghost i: nat) returns (q: Ptr)
      requires Valid() && MINI <= n && Live(blocks, p, i) && oldSize == Payload(blocks[i]) < n
      modifies `next, `prev, `nextFree, `prevFree, `used, `available, `maxUsed, `blocks, `free, data
      ensures Valid() && Moved(old(Snapshot()), p, n, Snapshot(), q)
      ensures BytesKept(old(blocks), old(data[..]), data[..])
      ensures q.At? ==> Copied(old(data[..]), data[..], p.off, q.off, oldSize)
    {
      ghost var k;
      q, k := CopyOut(p, n, oldSize, i);
      if q != Null {
        ReleaseBlock(p.off - HDR, k);
      }
    }

    /** The new home is filled while the old one is still there, as block `k`. */
    method CopyOut(p: Ptr, n: nat, oldSize: int, ghost i: nat) returns (q: Ptr, ghost k: nat)
      requires Valid() && MINI <= n && Live(blocks, p, i) && oldSize == Payload(blocks[i]) < n
      modifies `next, `prev, `nextFree, `prevFree, `used, `available, `maxUsed, `blocks, `free, data
      ensures Valid() && Served(old(Snapshot()), n, Snapshot(), q)
      ensures q != Null ==> Live(blocks, p, k)
      ensures BytesKept(old(blocks), old(data[..]), data[..])
      ensures q.At? ==> Copied(old(data[..]), data[..], p.off, q.off, oldSize)
    {
      ghost var s := Snapshot();
      k := 0;
      q := AllocRounded(n);
      if q != Null {
        k := StillLive(s, i, n, Snapshot(), p);
        NewHome(s, i, n, Snapshot(), p, q, oldSize);
        Copy(q.off, p.off, oldSize);
      }
    }

    /** Resizes the block of `p`: in place when it shrinks, stays, or can grow into the free block behind it;
        otherwise it moves, or nothing changes when there is no room. Size zero releases it, and null is an
        allocation. What old and new block have in common is copied, and no other used block is touched. */
    method Realloc(p: Ptr, size: nat) returns (q: Ptr)
      requires Valid() && size < SmallMem.WORD && (p.At? ==> exists i :: Live(blocks, p, i))
      modifies `next, `prev, `nextFree, `prevFree, `used, `available, `maxUsed, `blocks, `free, data
      ensures Valid()
      ensures size == 0 ==>
                && q == Null && (p == Null ==> Snapshot() == old(Snapshot()))
                && forall i :: Live(old(blocks), p, i) ==> Snapshot() == Reclaim(old(Snapshot()), i)
      ensures 0 < size && p.At? ==>
                forall i: nat :: Live(old(blocks), p, i) ==>
                  && Resized(old(Snapshot()), i, p, Request(size), Snapshot(), q)
                  && (q.At? ==> Copied(old(data[..]), data[..], p.off, q.off,
                                       Lesser(Payload(old(blocks)[i]), Request(size))))
      ensures 0 < size && p == Null ==> Served(old(Snapshot()), Request(size), Snapshot(), q)
      ensures 0 < size && q == Null ==> Snapshot() == old(Snapshot())
      ensures 0 < size && p == Null && q.At? ==>
                Handed(UsedBlocks(old(blocks)), UsedBlocks(blocks), q, Least(size), Most(size))
      ensures 0 < size && p.At? && q.At? ==>
                forall i: nat :: Live(old(blocks), p, i) ==>
                  Handed(UsedBlocks(old(blocks)) - {old(blocks)[i]}, UsedBlocks(blocks), q, Least(size), Most(size))
      ensures BytesKept(old(blocks), old(data[..]), data[..])
    {
      if size == 0 {
        Free(p);
        return Null;
      }
      var n := Request(size);
      ghost var s := Snapshot();
      if p == Null {
        q := AllocRounded(n);
        ServedHands(s, size, Snapshot(), q);
        return;
      }
      ghost var i :| Live(blocks, p, i);
      LiveIsFound(blocks, poolSize - HDR, p);
      q := Resize(p, n, i);
      ResizedHands(s, i, p, size, Snapshot(), q);
    }
  }
}
