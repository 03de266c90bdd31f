/** The memory heap object (os/memheap.c): a ring of blocks closed by a used tailer, and a free list that new
    free blocks enter at the front. Blocks are kept as the list of their address ranges without the tailer;
    the free list holds the addresses of its blocks. */
module MemHeap {
  import opened Tiling
  import opened WaitList
  import SmallMem

  const HDR := 24
  const MINI := 12
  const LEAST: nat := HDR + MINI

  /** Payload bytes a block has to give. */
  function Room(b: Block): int { if b.used then 0 else b.end - b.start - HDR }

  function Payload(b: Block): int { b.end - b.start - HDR }

  datatype State = State(pool: int, blocks: seq<Block>, free: seq<int>, available: int, maxUsed: int)

  ghost function Members(s: seq<int>): set<int> { set x | x in s }

  /** The blocks tile the pool up to the tailer, no two free ones are neighbours, the free list holds exactly
      the free blocks, each once, and the accounts are right. */
  ghost predicate Inv(s: State)
  {
    Good(s.pool - HDR, s.blocks, s.free, s.available) && s.pool - s.available <= s.maxUsed
  }

  ghost predicate Good(end: int, blocks: seq<Block>, free: seq<int>, available: int)
  {
    && Chain(blocks, 0, end, LEAST) && Coalesced(blocks)
    && Listed(free, FreeStarts(blocks)) && available == Total(blocks, Room)
  }

  ghost predicate Listed(free: seq<int>, starts: set<int>)
  {
    Distinct(free) && Members(free) == starts
  }

  /** The size looked for: rounding up is 32-bit as in the small heap. */
  function Request(size: nat): (n: nat)
    requires size < SmallMem.WORD
    ensures MINI <= n
  {
    if SmallMem.Align(size) < MINI then MINI else SmallMem.Align(size)
  }

  /** Index of the block that starts at `x`, or the number of blocks. */
  function Find(bs: seq<Block>, x: int, i: nat): (k: nat)
    requires i <= |bs|
    ensures i <= k <= |bs| && (k < |bs| ==> bs[k].start == x)
    ensures forall m :: i <= m < k ==> bs[m].start != x
    decreases |bs| - i
  {
    if i == |bs| || bs[i].start == x then i else Find(bs, x, i + 1)
  }

  function SizeAt(bs: seq<Block>, x: int): int
  {
    var k := Find(bs, x, 0);
    if k < |bs| then Payload(bs[k]) else 0
  }

  /** Position in the free list of the first block with room for `n`, or the list's length. */
  function FirstWithRoom(s: State, n: int, j: nat): (k: nat)
    requires j <= |s.free|
    ensures j <= k <= |s.free| && (k < |s.free| ==> SizeAt(s.blocks, s.free[k]) >= n)
    ensures forall m :: j <= m < k ==> SizeAt(s.blocks, s.free[m]) < n
    decreases |s.free| - j
  {
    if j == |s.free| || SizeAt(s.blocks, s.free[j]) >= n then j else FirstWithRoom(s, n, j + 1)
  }

  function Peak(s: State): State { if s.pool - s.available > s.maxUsed then s.(maxUsed := s.pool - s.available) else s }

  // ---- the operations on values ----

  /** Free block `i` is handed out for `n` bytes, split if a useful rest remains. */
  function Granted(s: State, i: nat, n: int): State
    requires i < |s.blocks|
  {
    var b := s.blocks[i];
    var rest := Without(s.free, b.start);
    if Payload(b) >= n + HDR + MINI then
      s.(blocks := Carve(s.blocks, i, HDR + n), free := [b.start + (HDR + n)] + rest, available := s.available - n - HDR)
    else
      s.(blocks := Take(s.blocks, i), free := rest, available := s.available - Payload(b))
  }

  function Grant(s: State, i: nat, n: int): State
    requires i < |s.blocks|
  {
    Peak(Granted(s, i, n))
  }

  /** Used block `i` is marked free, or joins the free block before it. */
  function Unused(s: State, i: nat): State
    requires i < |s.blocks|
  {
    var b := s.blocks[i];
    if FreeBefore(s.blocks, i) then
      s.(blocks := Replace(s.blocks, i - 1, 2, [Block(s.blocks[i - 1].start, b.end, false)]),
         available := s.available + Payload(b) + HDR)
    else
      s.(blocks := Replace(s.blocks, i, 1, [b.(used := false)]), available := s.available + Payload(b))
  }

  /** Free block `l` takes in a free block behind it. */
  function Absorb(s: State, l: nat): State
    requires l < |s.blocks|
  {
    if FreeAfter(s.blocks, l) then
      var f := s.blocks[l + 1];
      s.(blocks := Replace(s.blocks, l, 2, [Block(s.blocks[l].start, f.end, false)]),
         free := Without(s.free, f.start), available := s.available + HDR)
    else s
  }

  /** Used block `i` is released and merged with its free neighbours; joined to the block before it, it keeps
      that block's place in the free list, otherwise it enters the list at the front. */
  function Reclaim(s: State, i: nat): State
    requires i < |s.blocks|
  {
    if FreeBefore(s.blocks, i) then Absorb(Unused(s, i), i - 1)
    else
      var r := Absorb(Unused(s, i), i);
      r.(free := [s.blocks[i].start] + r.free)
  }

  /** Used block `i` grows to `n` bytes into the free block behind it, of which more than a minimum remains. */
  function Grown(s: State, i: nat, n: int): State
    requires i + 1 < |s.blocks|
  {
    var b, f := s.blocks[i], s.blocks[i + 1];
    var cut := b.start + HDR + n;
    s.(blocks := Replace(s.blocks, i, 2, [Block(b.start, cut, true), Block(cut, f.end, false)]),
       free := [cut] + Without(s.free, f.start), available := s.available - (n - Payload(b)))
  }

  function Grow(s: State, i: nat, n: int): State
    requires i + 1 < |s.blocks|
  {
    Peak(Grown(s, i, n))
  }

  /** Used block `i` is cut down to `n` bytes; the rest is merged with a free block behind it. */
  function Shrink(s: State, i: nat, n: int): State
    requires i < |s.blocks|
  {
    var bs := s.blocks;
    var b := bs[i];
    var cut := b.start + HDR + n;
    if FreeAfter(bs, i) then
      s.(blocks := Replace(bs, i, 2, [Block(b.start, cut, true), Block(cut, bs[i + 1].end, false)]),
         free := [cut] + Without(s.free, bs[i + 1].start),
         available := s.available - Payload(bs[i + 1]) + (bs[i + 1].end - cut - HDR))
    else
      s.(blocks := Carve(bs, i, HDR + n), free := [cut] + s.free, available := s.available + (b.end - cut - HDR))
  }

  // ---- every operation keeps the invariant ----

  lemma WithoutMembers(s: seq<int>, x: int)
    requires Distinct(s)
    ensures Listed(Without(s, x), Members(s) - {x})
  {
    WithoutDistinct(s, x);
  }

  lemma PushMembers(s: seq<int>, x: int)
    requires Distinct(s) && x !in Members(s)
    ensures Listed([x] + s, Members(s) + {x})
  {
  }

  lemma StartsOne(b: Block)
    ensures FreeStarts([b]) == if b.used then {} else {b.start}
  {
    assert b in [b];
  }

  lemma StartsTwo(a: Block, b: Block)
    ensures FreeStarts([a, b]) == FreeStarts([a]) + FreeStarts([b])
  {
    assert [a, b] == [a] + [b];
    StartsAppend([a], [b]);
  }

  /** No free block starts at a place strictly inside a block, nor where a used block starts. */
  lemma NotAFreeStart(bs: seq<Block>, lo: int, hi: int, i: nat, x: int)
    requires Chain(bs, lo, hi, LEAST) && i < |bs|
    requires bs[i].start < x < bs[i].end || (x == bs[i].start && bs[i].used)
    ensures x !in FreeStarts(bs)
  {
    Bounds(bs, lo, hi, LEAST);
    forall b | b in bs && !b.used
      ensures b.start != x
    {
      var k :| 0 <= k < |bs| && bs[k] == b;
      assert k < i ==> bs[k].end <= bs[i].start;
      assert i < k ==> bs[i].end <= bs[k].start;
    }
  }

  /** What an edit that exchanges `cut` for `mid` does to free blocks and room. */
  lemma Edited(bs: seq<Block>, lo: int, hi: int, i: nat, n: nat, mid: seq<Block>)
    requires Chain(bs, lo, hi, LEAST) && 0 < n && i + n <= |bs| && mid != []
    requires Chain(mid, bs[i].start, bs[i + n - 1].end, LEAST)
    ensures var r := Replace(bs, i, n, mid);
            && Chain(r, lo, hi, LEAST)
            && FreeStarts(r) == FreeStarts(bs) - FreeStarts(bs[i..i + n]) + FreeStarts(mid)
            && Total(r, Room) == Total(bs, Room) - Total(bs[i..i + n], Room) + Total(mid, Room)
  {
    ReplaceChain(bs, lo, hi, LEAST, i, n, mid);
    StartsReplace(bs, lo, hi, LEAST, i, n, mid);
    TotalReplace(bs, i, n, mid, Room);
  }

  /** The same for one block exchanged for one or two. */
  lemma EditedOne(bs: seq<Block>, lo: int, hi: int, i: nat, mid: seq<Block>)
    requires Chain(bs, lo, hi, LEAST) && i < |bs| && mid != [] && Chain(mid, bs[i].start, bs[i].end, LEAST)
    ensures var r := Replace(bs, i, 1, mid);
            && Chain(r, lo, hi, LEAST)
            && FreeStarts(r) == FreeStarts(bs) - (if bs[i].used then {} else {bs[i].start}) + FreeStarts(mid)
            && Total(r, Room) == Total(bs, Room) - Room(bs[i]) + Total(mid, Room)
  {
    Edited(bs, lo, hi, i, 1, mid);
    assert bs[i..i + 1] == [bs[i]];
    StartsOne(bs[i]);
    TotalOne(bs[i], Room);
  }

  lemma EditedTwo(bs: seq<Block>, lo: int, hi: int, i: nat, mid: seq<Block>)
    requires Chain(bs, lo, hi, LEAST) && i + 1 < |bs| && mid != [] && Chain(mid, bs[i].start, bs[i + 1].end, LEAST)
    ensures var r := Replace(bs, i, 2, mid);
            && Chain(r, lo, hi, LEAST)
            && FreeStarts(r) == FreeStarts(bs) - (FreeStarts([bs[i]]) + FreeStarts([bs[i + 1]])) + FreeStarts(mid)
            && Total(r, Room) == Total(bs, Room) - Room(bs[i]) - Room(bs[i + 1]) + Total(mid, Room)
  {
    Edited(bs, lo, hi, i, 2, mid);
    assert bs[i..i + 2] == [bs[i], bs[i + 1]];
    StartsTwo(bs[i], bs[i + 1]);
    TotalTwo(bs[i], bs[i + 1], Room);
  }

  /** A free block leaves the free list and another enters it. */
  lemma Exchanged(free: seq<int>, starts: set<int>, x: int, cut: int)
    requires Listed(free, starts) && cut !in starts - {x}
    ensures Listed([cut] + Without(free, x), starts - {x} + {cut})
  {
    WithoutMembers(free, x);
    PushMembers(Without(free, x), cut);
  }

  /** Splitting a block, used in front and free behind. */
  lemma Halved(bs: seq<Block>, hi: int, i: nat, n: int)
    requires Chain(bs, 0, hi, LEAST) && Coalesced(bs) && i < |bs|
    requires MINI <= n && n + HDR + MINI <= Payload(bs[i]) && (i + 1 < |bs| ==> bs[i + 1].used)
    ensures var b, r, cut := bs[i], Carve(bs, i, HDR + n), bs[i].start + (HDR + n);
            && Chain(r, 0, hi, LEAST) && Coalesced(r) && cut !in FreeStarts(bs)
            && FreeStarts(r) == FreeStarts(bs) - (if b.used then {} else {b.start}) + {cut}
            && Total(r, Room) == Total(bs, Room) - Room(b) + (Payload(b) - n - HDR)
  {
    var b, cut := bs[i], bs[i].start + (HDR + n);
    var used, rest := Block(b.start, cut, true), Block(cut, b.end, false);
    EditedOne(bs, 0, hi, i, [used, rest]);
    StartsTwo(used, rest);
    StartsOne(used);
    StartsOne(rest);
    TotalTwo(used, rest, Room);
    EditedCoalesced(bs, i, 1, [used, rest]);
    NotAFreeStart(bs, 0, hi, i, cut);
  }

  lemma TakenWhole(bs: seq<Block>, hi: int, i: nat)
    requires Chain(bs, 0, hi, LEAST) && Coalesced(bs) && i < |bs| && !bs[i].used
    ensures var r := Take(bs, i);
            && Chain(r, 0, hi, LEAST) && Coalesced(r)
            && FreeStarts(r) == FreeStarts(bs) - {bs[i].start}
            && Total(r, Room) == Total(bs, Room) - Payload(bs[i])
  {
    var used := bs[i].(used := true);
    EditedOne(bs, 0, hi, i, [used]);
    StartsOne(used);
    TotalOne(used, Room);
    EditedCoalesced(bs, i, 1, [used]);
  }

  lemma PeakInv(s: State)
    requires Good(s.pool - HDR, s.blocks, s.free, s.available)
    ensures Inv(Peak(s))
  {
  }

  lemma CutGood(end: int, bs: seq<Block>, free: seq<int>, available: int, i: nat, n: int)
    requires Good(end, bs, free, available) && i < |bs| && !bs[i].used
    requires MINI <= n && n + HDR + MINI <= Payload(bs[i])
    ensures Good(end, Carve(bs, i, HDR + n), [bs[i].start + (HDR + n)] + Without(free, bs[i].start), available - n - HDR)
  {
    assert i + 1 < |bs| ==> Apart(bs, i + 1);
    Halved(bs, end, i, n);
    Exchanged(free, FreeStarts(bs), bs[i].start, bs[i].start + (HDR + n));
  }

  lemma TakenGood(end: int, bs: seq<Block>, free: seq<int>, available: int, i: nat)
    requires Good(end, bs, free, available) && i < |bs| && !bs[i].used
    ensures Good(end, Take(bs, i), Without(free, bs[i].start), available - Payload(bs[i]))
  {
    TakenWhole(bs, end, i);
    WithoutMembers(free, bs[i].start);
  }

  lemma GrantKeepsInv(s: State, i: nat, n: int)
    requires Inv(s) && i < |s.blocks| && !s.blocks[i].used && MINI <= n <= Payload(s.blocks[i])
    ensures Inv(Grant(s, i, n))
  {
    if Payload(s.blocks[i]) >= n + HDR + MINI {
      CutGood(s.pool - HDR, s.blocks, s.free, s.available, i, n);
    } else {
      TakenGood(s.pool - HDR, s.blocks, s.free, s.available, i);
    }
    PeakInv(Granted(s, i, n));
  }

  lemma GrowKeepsInv(s: State, i: nat, n: int)
    requires Inv(s) && i + 1 < |s.blocks| && s.blocks[i].used && !s.blocks[i + 1].used
    requires Payload(s.blocks[i]) < n && n + MINI < Payload(s.blocks[i]) + Payload(s.blocks[i + 1])
    ensures Inv(Grow(s, i, n))
  {
    GrownGood(s.pool - HDR, s.blocks, s.free, s.available, i, n);
    PeakInv(Grown(s, i, n));
  }

  lemma GrownGood(end: int, bs: seq<Block>, free: seq<int>, available: int, i: nat, n: int)
    requires Good(end, bs, free, available) && i + 1 < |bs| && bs[i].used && !bs[i + 1].used
    requires Payload(bs[i]) < n && n + MINI < Payload(bs[i]) + Payload(bs[i + 1])
    ensures var b, f, cut := bs[i], bs[i + 1], bs[i].start + HDR + n;
            Good(end, Replace(bs, i, 2, [Block(b.start, cut, true), Block(cut, f.end, false)]),
                 [cut] + Without(free, f.start), available - (n - Payload(b)))
  {
    EndIsStart(bs, 0, end, LEAST, i);
    var cut := bs[i].start + HDR + n;
    Resplit(bs, end, i, cut);
    Exchanged(free, FreeStarts(bs), bs[i + 1].start, cut);
  }

  /** Moving the border between a used block and the free block behind it. */
  lemma Resplit(bs: seq<Block>, hi: int, i: nat, cut: int)
    requires Chain(bs, 0, hi, LEAST) && Coalesced(bs) && i + 1 < |bs| && bs[i].used && !bs[i + 1].used
    requires bs[i].start + LEAST <= cut && cut + LEAST <= bs[i + 1].end
    ensures var b, f := bs[i], bs[i + 1];
            var r := Replace(bs, i, 2, [Block(b.start, cut, true), Block(cut, f.end, false)]);
            && Chain(r, 0, hi, LEAST) && Coalesced(r) && cut !in FreeStarts(bs) - {f.start}
            && FreeStarts(r) == FreeStarts(bs) - {f.start} + {cut}
            && Total(r, Room) == Total(bs, Room) - Payload(f) + (f.end - cut - HDR)
  {
    var b, f := bs[i], bs[i + 1];
    var used, rest := Block(b.start, cut, true), Block(cut, f.end, false);
    assert Follows(bs, i + 1);
    EditedTwo(bs, 0, hi, i, [used, rest]);
    StartsTwo(used, rest);
    StartsOne(used);
    StartsOne(rest);
    StartsOne(b);
    StartsOne(f);
    TotalTwo(used, rest, Room);
    assert i + 2 < |bs| ==> Apart(bs, i + 2);
    EditedCoalesced(bs, i, 2, [used, rest]);
    NotAFreeStartAfter(bs, hi, i, cut);
  }

  lemma NotAFreeStartAfter(bs: seq<Block>, hi: int, i: nat, x: int)
    requires Chain(bs, 0, hi, LEAST) && i + 1 < |bs| && bs[i].used && bs[i].start < x < bs[i + 1].end
    ensures x !in FreeStarts(bs) - {bs[i + 1].start}
  {
    assert Follows(bs, i + 1);
    if x < bs[i].end {
      NotAFreeStart(bs, 0, hi, i, x);
    } else if x > bs[i + 1].start {
      NotAFreeStart(bs, 0, hi, i + 1, x);
    }
  }

  lemma ShrunkGood(end: int, bs: seq<Block>, free: seq<int>, available: int, i: nat, n: int)
    requires Good(end, bs, free, available) && i < |bs| && bs[i].used && !FreeAfter(bs, i)
    requires MINI <= n && n + HDR + MINI < Payload(bs[i])
    ensures var cut := bs[i].start + HDR + n;
            Good(end, Carve(bs, i, HDR + n), [cut] + free, available + (bs[i].end - cut - HDR))
  {
    Halved(bs, end, i, n);
    PushMembers(free, bs[i].start + HDR + n);
  }

  lemma MovedGood(end: int, bs: seq<Block>, free: seq<int>, available: int, i: nat, n: int)
    requires Good(end, bs, free, available) && i < |bs| && bs[i].used && FreeAfter(bs, i)
    requires MINI <= n && n + HDR + MINI < Payload(bs[i])
    ensures var b, f, cut := bs[i], bs[i + 1], bs[i].start + HDR + n;
            Good(end, Replace(bs, i, 2, [Block(b.start, cut, true), Block(cut, f.end, false)]),
                 [cut] + Without(free, f.start), available - Payload(f) + (f.end - cut - HDR))
  {
    var cut := bs[i].start + HDR + n;
    EndIsStart(bs, 0, end, LEAST, i);
    Resplit(bs, end, i, cut);
    Exchanged(free, FreeStarts(bs), bs[i + 1].start, cut);
  }

  lemma ShrinkKeepsInv(s: State, i: nat, n: int)
    requires Inv(s) && i < |s.blocks| && s.blocks[i].used && MINI <= n && n + HDR + MINI < Payload(s.blocks[i])
    ensures Inv(Shrink(s, i, n))
  {
    if FreeAfter(s.blocks, i) {
      EndIsStart(s.blocks, 0, s.pool - HDR, LEAST, i);
      MovedGood(s.pool - HDR, s.blocks, s.free, s.available, i, n);
    } else {
      ShrunkGood(s.pool - HDR, s.blocks, s.free, s.available, i, n);
    }
    Roomier(s, Shrink(s, i, n));
  }

  /** Marking a block free, or joining it to the free block before it, leaves at most its right neighbour to
      be merged. */
  lemma UnusedFacts(bs: seq<Block>, end: int, i: nat)
    requires Chain(bs, 0, end, LEAST) && Coalesced(bs) && i < |bs| && bs[i].used && !FreeBefore(bs, i)
    ensures var b, r := bs[i], Replace(bs, i, 1, [bs[i].(used := false)]);
            && Chain(r, 0, end, LEAST) && CoalescedBut(r, i) && (i == 0 || r[i - 1].used)
            && r[i] == b.(used := false) && b.start !in FreeStarts(bs)
            && FreeStarts(r) == FreeStarts(bs) + {b.start} && Total(r, Room) == Total(bs, Room) + Payload(b)
  {
    var one := bs[i].(used := false);
    FreeKeeps(bs, 0, end, LEAST, i);
    EditedOne(bs, 0, end, i, [one]);
    StartsOne(one);
    TotalOne(one, Room);
    NotAFreeStart(bs, 0, end, i, one.start);
  }

  lemma JoinedFacts(bs: seq<Block>, end: int, i: nat)
    requires Chain(bs, 0, end, LEAST) && Coalesced(bs) && i < |bs| && bs[i].used && FreeBefore(bs, i)
    ensures var l, b := i - 1, bs[i];
            var r := Replace(bs, l, 2, [Block(bs[l].start, b.end, false)]);
            && Chain(r, 0, end, LEAST) && CoalescedBut(r, l) && (l == 0 || r[l - 1].used)
            && FreeStarts(r) == FreeStarts(bs) && Total(r, Room) == Total(bs, Room) + Payload(b) + HDR
  {
    var l := i - 1;
    var one := Block(bs[l].start, bs[i].end, false);
    EndIsStart(bs, 0, end, LEAST, l);
    EditedTwo(bs, 0, end, l, [one]);
    StartsOne(one);
    StartsOne(bs[l]);
    StartsOne(bs[i]);
    TotalOne(one, Room);
    assert bs[l] in bs;
    ReplaceAt(bs, l, 2, [one]);
    var r := Replace(bs, l, 2, [one]);
    assert 0 < l ==> Apart(bs, l);
    forall k | 0 < k < |r| && k != l && k != l + 1
      ensures Apart(r, k)
    {
      assert if k < l then Apart(bs, k) else Apart(bs, k + 1);
    }
  }

  lemma AbsorbFacts(bs: seq<Block>, end: int, l: nat)
    requires Chain(bs, 0, end, LEAST) && CoalescedBut(bs, l) && (l == 0 || bs[l - 1].used) && FreeAfter(bs, l)
    ensures var f := bs[l + 1];
            var r := Replace(bs, l, 2, [Block(bs[l].start, f.end, false)]);
            && Chain(r, 0, end, LEAST) && Coalesced(r)
            && FreeStarts(r) == FreeStarts(bs) - {f.start} && Total(r, Room) == Total(bs, Room) + HDR
            && bs[l].start != f.start
  {
    var one := Block(bs[l].start, bs[l + 1].end, false);
    EndIsStart(bs, 0, end, LEAST, l);
    EditedTwo(bs, 0, end, l, [one]);
    StartsOne(one);
    StartsOne(bs[l]);
    StartsOne(bs[l + 1]);
    TotalOne(one, Room);
    assert bs[l] in bs;
    ReplaceAt(bs, l, 2, [one]);
    var r := Replace(bs, l, 2, [one]);
    forall k | 0 < k < |r|
      ensures Apart(r, k)
    {
      if k < l {
        assert Apart(bs, k);
      } else if k > l {
        assert Apart(bs, k + 1);
      }
    }
  }

  lemma CoalescedAll(bs: seq<Block>, l: nat)
    requires CoalescedBut(bs, l) && (l == 0 || bs[l - 1].used) && !FreeAfter(bs, l)
    ensures Coalesced(bs)
  {
    forall k | 0 < k < |bs|
      ensures Apart(bs, k)
    {
      assert k != l && k != l + 1 ==> Apart(bs, k);
    }
  }

  /** What the right merge leaves, given a free list that may still lack the block itself. */
  lemma AbsorbGood(s: State, l: nat, starts: set<int>)
    requires Chain(s.blocks, 0, s.pool - HDR, LEAST) && CoalescedBut(s.blocks, l) && (l == 0 || s.blocks[l - 1].used)
    requires Listed(s.free, starts) && s.available == Total(s.blocks, Room)
    ensures var r := Absorb(s, l);
            && Chain(r.blocks, 0, s.pool - HDR, LEAST) && Coalesced(r.blocks) && r.available == Total(r.blocks, Room)
            && Listed(r.free, if FreeAfter(s.blocks, l) then starts - {s.blocks[l + 1].start} else starts)
            && FreeStarts(r.blocks) ==
               (if FreeAfter(s.blocks, l) then FreeStarts(s.blocks) - {s.blocks[l + 1].start} else FreeStarts(s.blocks))
            && (FreeAfter(s.blocks, l) ==> s.blocks[l].start != s.blocks[l + 1].start)
  {
    if FreeAfter(s.blocks, l) {
      AbsorbFacts(s.blocks, s.pool - HDR, l);
      WithoutMembers(s.free, s.blocks[l + 1].start);
    } else {
      CoalescedAll(s.blocks, l);
    }
  }

  lemma ReleasedJoined(s: State, i: nat, u: State, r: State)
    requires Inv(s) && i < |s.blocks| && s.blocks[i].used && FreeBefore(s.blocks, i)
    requires u == Unused(s, i) && r == Absorb(u, i - 1)
    ensures Good(r.pool - HDR, r.blocks, r.free, r.available) && s.available <= r.available
  {
    JoinedFacts(s.blocks, s.pool - HDR, i);
    AbsorbGood(u, i - 1, FreeStarts(s.blocks));
  }

  lemma PushGood(end: int, bs: seq<Block>, free: seq<int>, available: int, x: int)
    requires Chain(bs, 0, end, LEAST) && Coalesced(bs) && available == Total(bs, Room)
    requires x in FreeStarts(bs) && Listed(free, FreeStarts(bs) - {x})
    ensures Good(end, bs, [x] + free, available)
  {
    PushMembers(free, x);
  }

  lemma ReleasedAlone(s: State, i: nat, u: State, r: State)
    requires Inv(s) && i < |s.blocks| && s.blocks[i].used && !FreeBefore(s.blocks, i)
    requires u == Unused(s, i) && r == Absorb(u, i)
    ensures Good(r.pool - HDR, r.blocks, [s.blocks[i].start] + r.free, r.available) && s.available <= r.available
  {
    UnusedFacts(s.blocks, s.pool - HDR, i);
    AbsorbGood(u, i, FreeStarts(s.blocks));
    PushGood(s.pool - HDR, r.blocks, r.free, r.available, s.blocks[i].start);
  }

  lemma ReleaseKeepsInv(s: State, i: nat)
    requires Inv(s) && i < |s.blocks| && s.blocks[i].used
    ensures Inv(Reclaim(s, i))
  {
    var u := Unused(s, i);
    if FreeBefore(s.blocks, i) {
      ReleasedJoined(s, i, u, Absorb(u, i - 1));
    } else {
      ReleasedAlone(s, i, u, Absorb(u, i));
    }
    Roomier(s, Reclaim(s, i));
  }

  lemma Roomier(s: State, r: State)
    requires Inv(s) && Good(r.pool - HDR, r.blocks, r.free, r.available)
    requires r.pool == s.pool && r.maxUsed == s.maxUsed && s.available <= r.available
    ensures Inv(r)
  {
  }

  // ---- when allocation fails ----

  /** The block an allocation of `n` bytes takes, as its place in the free list, or the list's length. */
  function Candidate(s: State, n: int): (k: nat)
    ensures k <= |s.free|
  {
    if n < s.available then FirstWithRoom(s, n, 0) else |s.free|
  }

  /** A listed block is found among the blocks, free. */
  lemma ListedIsFree(s: State, k: nat)
    requires Inv(s) && k < |s.free|
    ensures var i := Find(s.blocks, s.free[k], 0); i < |s.blocks| && !s.blocks[i].used
  {
    assert s.free[k] in Members(s.free);
    var b :| b in s.blocks && !b.used && b.start == s.free[k];
    var j :| 0 <= j < |s.blocks| && s.blocks[j] == b;
    FindIs(s.blocks, s.pool - HDR, j);
  }

  lemma FindIs(bs: seq<Block>, hi: int, j: nat)
    requires Chain(bs, 0, hi, LEAST) && j < |bs|
    ensures Find(bs, bs[j].start, 0) == j
  {
    Bounds(bs, 0, hi, LEAST);
    forall k | 0 <= k < j
      ensures bs[k].start != bs[j].start
    {
      assert bs[k].end <= bs[j].start;
    }
  }

  /** Allocation fails exactly when no free block has room, or the request is not below the total room. */
  lemma FailsExactly(s: State, n: int)
    requires Inv(s)
    ensures Candidate(s, n) == |s.free| <==>
            n >= s.available || forall b :: b in s.blocks && !b.used ==> Payload(b) < n
  {
    var k := FirstWithRoom(s, n, 0);
    if k < |s.free| {
      ListedIsFree(s, k);
      assert s.blocks[Find(s.blocks, s.free[k], 0)] in s.blocks;
    } else {
      forall b | b in s.blocks && !b.used
        ensures Payload(b) < n
      {
        var j :| 0 <= j < |s.blocks| && s.blocks[j] == b;
        assert b.start in Members(s.free);
        var m :| 0 <= m < |s.free| && s.free[m] == b.start;
        FindIs(s.blocks, s.pool - HDR, j);
        assert SizeAt(s.blocks, s.free[m]) < n;
      }
    }
  }

  /** The room of a heap with one free block cannot be had in one piece. */
  lemma WholeRoomRefused(pool: int)
    requires LEAST + HDR <= pool
    ensures var s := State(pool, [Block(0, pool - HDR, false)], [0], pool - 2 * HDR, 2 * HDR);
            Inv(s) && Payload(s.blocks[0]) == s.available && Candidate(s, s.available) == |s.free|
  {
    FreshInv(pool);
  }

  lemma FreshInv(pool: int)
    requires LEAST + HDR <= pool
    ensures Inv(State(pool, [Block(0, pool - HDR, false)], [0], pool - 2 * HDR, 2 * HDR))
  {
    var b := Block(0, pool - HDR, false);
    StartsOne(b);
    TotalOne(b, Room);
    PushMembers([], 0);
    assert [0] + [] == [0];
  }

  // ---- what a call does ----

  datatype Ptr = Null | At(off: int)

  ghost predicate Live(bs: seq<Block>, p: Ptr, i: nat)
  {
    i < |bs| && bs[i].used && p == At(bs[i].start + HDR)
  }

  /** The outcome of an allocation of `n` bytes. */
  ghost predicate Served(s: State, n: int, r: State, q: Ptr)
  {
    var k := Candidate(s, n);
    if k < |s.free| then
      var i := Find(s.blocks, s.free[k], 0);
      i < |s.blocks| && !s.blocks[i].used && q == At(s.free[k] + HDR) && r == Grant(s, i, n)
    else q == Null && r == s
  }

  /** The outcome of resizing used block `i` at `p` to `n` bytes. */
  ghost predicate Resized(s: State, i: nat, p: Ptr, n: int, r: State, q: Ptr)
    requires i < |s.blocks|
  {
    var size := Payload(s.blocks[i]);
    if n > size && FreeAfter(s.blocks, i) && Payload(s.blocks[i + 1]) + size > n + MINI then
      q == p && r == Grow(s, i, n)
    else if n > size then Moved(s, p, n, r, q)
    else if n + HDR + MINI >= size then q == p && r == s
    else q == p && r == Shrink(s, i, n)
  }

  /** A new home is allocated and the old one released from there, or nothing changes. */
  ghost predicate Moved(s: State, p: Ptr, n: int, r: State, q: Ptr)
  {
    exists m :: Served(s, n, m, q) && if q == Null then r == s else ReleasedIn(m, p, r)
  }

  ghost predicate ReleasedIn(m: State, p: Ptr, r: State)
  {
    exists k :: Live(m.blocks, p, k) && r == Reclaim(m, k)
  }

  /** A live block is still there after an allocation. */
  lemma StillLive(s: State, i: nat, n: int, r: State, p: Ptr) returns (k: nat)
    requires Inv(s) && Live(s.blocks, p, i) && exists q :: q != Null && Served(s, n, r, q)
    ensures Live(r.blocks, p, k)
  {
    var q :| q != Null && Served(s, n, r, q);
    var j := Find(s.blocks, s.free[Candidate(s, n)], 0);
    var b := s.blocks[j];
    var mid := if Payload(b) >= n + HDR + MINI
               then [Block(b.start, b.start + (HDR + n), true), Block(b.start + (HDR + n), b.end, false)]
               else [b.(used := true)];
    ReplaceAt(s.blocks, j, 1, mid);
    k := if i < j then i else i + |mid| - 1;
  }

  lemma LiveIsFound(bs: seq<Block>, hi: int, p: Ptr)
    requires Chain(bs, 0, hi, LEAST) && p.At?
    ensures forall i :: Live(bs, p, i) ==> Find(bs, p.off - HDR, 0) == i
  {
    forall i | Live(bs, p, i)
      ensures Find(bs, p.off - HDR, 0) == i
    {
      FindIs(bs, hi, i);
    }
  }
}
