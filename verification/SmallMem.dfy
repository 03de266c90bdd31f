/** The small-memory heap (os/mem.c): a heap of blocks with in-band headers linked by offsets, first fit
    from the lowest free block, coalescing on release. Pointers are offsets from the heap's start; sizes
    are 32-bit, so rounding a size up to the alignment can wrap to zero. */
module SmallMem {
  import opened Tiling

  newtype byte = x: int | 0 <= x < 256

  const WORD := 0x1_0000_0000
  const ALIGN := 4
  const HDR := 12
  const MIN_SIZE := 12

  datatype Ptr = Null | At(off: int)
  datatype Header = Header(used: bool, next: int, prev: int)

  /** RT_ALIGN on a 32-bit size. */
  function Align(size: nat): (r: nat)
    requires size < WORD
    ensures r % ALIGN == 0
    ensures size + ALIGN - 1 < WORD ==> size <= r < size + ALIGN
    ensures size + ALIGN - 1 >= WORD ==> r == 0
  {
    (size + ALIGN - 1) % WORD / ALIGN * ALIGN
  }

  /** The payload malloc looks for. */
  function Request(size: nat): nat
    requires size < WORD
  {
    if Align(size) < MIN_SIZE then MIN_SIZE else Align(size)
  }

  function Max(a: int, b: int): int { if a < b then b else a }

  ghost function Payload(b: Block): int { b.end - b.start - HDR }

  ghost predicate Fits(b: Block, n: int) { !b.used && Payload(b) >= n }

  /** Index of the lowest block malloc takes for a payload of `n`, or the number of blocks: the search stops
      at the first block that does not lie strictly below `limit`. */
  ghost function FirstFit(bs: seq<Block>, i: nat, n: int, limit: int): (r: nat)
    requires i <= |bs|
    ensures i <= r <= |bs|
    ensures r < |bs| ==> Fits(bs[r], n) && bs[r].start < limit
    ensures forall k :: i <= k < r && r < |bs| ==> !Fits(bs[k], n)
    decreases |bs| - i
  {
    if i == |bs| || bs[i].start >= limit then |bs|
    else if Fits(bs[i], n) then i
    else FirstFit(bs, i + 1, n, limit)
  }

  /** Nothing is found exactly when no fitting free block lies below the limit. */
  lemma {:induction false} NoFit(bs: seq<Block>, lo: int, hi: int, least: nat, i: nat, n: int, limit: int)
    requires Chain(bs, lo, hi, least) && i <= |bs|
    ensures FirstFit(bs, i, n, limit) == |bs| <==>
            forall k :: i <= k < |bs| && Fits(bs[k], n) ==> bs[k].start >= limit
    decreases |bs| - i
  {
    if i < |bs| {
      if bs[i].start >= limit {
        Bounds(bs, lo, hi, least);
      } else if !Fits(bs[i], n) {
        NoFit(bs, lo, hi, least, i + 1, n, limit);
      }
    }
  }

  /** The blocks after block `i` has been handed out for `n` bytes: split when a useful rest remains. */
  ghost function Alloc(bs: seq<Block>, i: nat, n: int): seq<Block>
    requires i < |bs|
  {
    if Payload(bs[i]) >= n + HDR + MIN_SIZE then Carve(bs, i, HDR + n) else Take(bs, i)
  }

  ghost function LowFree(bs: seq<Block>, end: int): int
  {
    StartOf(bs, FirstFree(bs, 0), end)
  }

  ghost predicate Aligned(bs: seq<Block>)
  {
    forall i :: 0 <= i < |bs| ==> bs[i].start % ALIGN == 0 && bs[i].end % ALIGN == 0
  }

  // ---- headers in memory ----

  ghost function PrevOf(bs: seq<Block>, i: nat): int
    requires i < |bs|
  {
    if i == 0 then 0 else bs[i - 1].start
  }

  ghost predicate HeaderAt(mem: map<int, Header>, bs: seq<Block>, i: nat)
    requires i < |bs|
  {
    bs[i].start in mem && mem[bs[i].start] == Header(bs[i].used, bs[i].end, PrevOf(bs, i))
  }

  /** Every block's header says what the block is; the end mark is used and points at itself. What the end
      mark says about its predecessor is not kept up by the source. */
  ghost predicate Linked(mem: map<int, Header>, bs: seq<Block>, end: int)
  {
    && (forall i :: 0 <= i < |bs| ==> HeaderAt(mem, bs, i))
    && end in mem && mem[end].used && mem[end].next == end
  }

  lemma LinkedFlag(mem: map<int, Header>, bs: seq<Block>, end: int, i: nat, used: bool)
    requires Chain(bs, 0, end, HDR + ALIGN) && Linked(mem, bs, end) && i < |bs|
    ensures bs[i].start in mem
    ensures Linked(mem[bs[i].start := mem[bs[i].start].(used := used)], Replace(bs, i, 1, [bs[i].(used := used)]), end)
  {
    assert HeaderAt(mem, bs, i);
    var now, r := mem[bs[i].start := mem[bs[i].start].(used := used)], Replace(bs, i, 1, [bs[i].(used := used)]);
    ReplaceAt(bs, i, 1, [bs[i].(used := used)]);
    OwnStart(bs, end, i);
    forall k | 0 <= k < |r|
      ensures HeaderAt(now, r, k)
    {
      FlaggedHeader(mem, now, bs, r, i, k);
    }
  }

  lemma Within(bs: seq<Block>, end: int, i: nat)
    requires Chain(bs, 0, end, HDR + ALIGN) && i < |bs|
    ensures 0 <= bs[i].start && bs[i].end <= end
  {
    Bounds(bs, 0, end, HDR + ALIGN);
  }

  lemma OwnStart(bs: seq<Block>, end: int, i: nat)
    requires Chain(bs, 0, end, HDR + ALIGN) && i < |bs|
    ensures bs[i].start < end && forall m :: 0 <= m < |bs| && m != i ==> bs[m].start != bs[i].start
  {
    Bounds(bs, 0, end, HDR + ALIGN);
  }

  lemma FlaggedHeader(mem: map<int, Header>, now: map<int, Header>, bs: seq<Block>, r: seq<Block>, i: nat, k: nat)
    requires |r| == |bs| && i < |bs| && k < |bs| && bs[i].start in mem && HeaderAt(mem, bs, k)
    requires now == mem[bs[i].start := mem[bs[i].start].(used := r[i].used)] && r[i] == bs[i].(used := r[i].used)
    requires k != i ==> r[k] == bs[k] && bs[k].start != bs[i].start
    requires 0 < k ==> r[k - 1].start == bs[k - 1].start
    ensures HeaderAt(now, r, k)
  {
  }

  /** Splitting: a new header behind `n` bytes, the old block shortened and marked used, the back link of
      the following block (unless that is the end mark) redirected. */
  ghost function SplitHeaders(mem: map<int, Header>, at: int, n: int, end: int): map<int, Header>
    requires at in mem && mem[at].next in mem
  {
    var h := mem[at];
    var made := mem[at + n := Header(false, h.next, at)][at := h.(next := at + n, used := true)];
    if h.next == end then made else made[h.next := made[h.next].(prev := at + n)]
  }

  /** What the split leaves in memory, address by address. */
  ghost predicate SplitAt(mem: map<int, Header>, now: map<int, Header>, at: int, mid: int, next: int, end: int)
    requires at in mem && next in mem
  {
    && at in now && now[at] == Header(true, mid, mem[at].prev)
    && mid in now && now[mid] == Header(false, next, at)
    && next in now && now[next] == (if next == end then mem[next] else mem[next].(prev := mid))
    && forall x :: x in mem && x != at && x != mid && x != next ==> x in now && now[x] == mem[x]
  }

  lemma SplitLinks(mem: map<int, Header>, now: map<int, Header>, bs: seq<Block>, end: int, i: nat, mid: int)
    requires Chain(bs, 0, end, HDR + ALIGN) && Linked(mem, bs, end) && i < |bs|
    requires bs[i].start < mid < bs[i].end
    requires bs[i].start in mem && bs[i].end in mem && SplitAt(mem, now, bs[i].start, mid, bs[i].end, end)
    ensures Linked(now, Replace(bs, i, 1, [Block(bs[i].start, mid, true), Block(mid, bs[i].end, false)]), end)
  {
    Bounds(bs, 0, end, HDR + ALIGN);
    var cut := [Block(bs[i].start, mid, true), Block(mid, bs[i].end, false)];
    var r := Replace(bs, i, 1, cut);
    ReplaceAt(bs, i, 1, cut);
    assert HeaderAt(mem, bs, i);
    forall k | 0 <= k < |r|
      ensures HeaderAt(now, r, k)
    {
      if k < i {
        assert HeaderAt(mem, bs, k);
      } else if k > i + 1 {
        assert HeaderAt(mem, bs, k - 1);
        assert Follows(bs, k - 1);
      }
    }
  }

  lemma LinkedCarve(mem: map<int, Header>, bs: seq<Block>, end: int, i: nat, n: int)
    requires Chain(bs, 0, end, HDR + ALIGN) && Linked(mem, bs, end) && i < |bs|
    requires 0 < n < bs[i].end - bs[i].start
    ensures bs[i].start in mem && mem[bs[i].start].next == bs[i].end && bs[i].end in mem
    ensures Linked(SplitHeaders(mem, bs[i].start, n, end), Carve(bs, i, n), end)
  {
    assert HeaderAt(mem, bs, i);
    assert i + 1 < |bs| ==> HeaderAt(mem, bs, i + 1) && Follows(bs, i + 1);
    SplitLinks(mem, SplitHeaders(mem, bs[i].start, n, end), bs, end, i, bs[i].start + n);
  }

  /** Joining a block with the one after it: its forward link and the link back to it. */
  ghost function JoinHeaders(mem: map<int, Header>, at: int): map<int, Header>
    requires at in mem && mem[at].next in mem && mem[mem[at].next].next in mem
  {
    var beyond := mem[mem[at].next].next;
    var made := mem[at := mem[at].(next := beyond)];
    made[beyond := made[beyond].(prev := at)]
  }

  /** What the join leaves in memory, address by address. */
  ghost predicate JoinAt(mem: map<int, Header>, now: map<int, Header>, at: int, beyond: int)
    requires at in mem && beyond in mem
  {
    && at in now && now[at] == mem[at].(next := beyond)
    && beyond in now && now[beyond] == mem[beyond].(prev := at)
    && forall x :: x in mem && x != at && x != beyond ==> x in now && now[x] == mem[x]
  }

  lemma JoinLinks(mem: map<int, Header>, now: map<int, Header>, bs: seq<Block>, end: int, i: nat)
    requires Chain(bs, 0, end, HDR + ALIGN) && Linked(mem, bs, end) && i + 1 < |bs| && !bs[i].used
    requires bs[i].start in mem && bs[i + 1].end in mem && JoinAt(mem, now, bs[i].start, bs[i + 1].end)
    ensures Linked(now, Replace(bs, i, 2, [Block(bs[i].start, bs[i + 1].end, false)]), end)
  {
    var one := [Block(bs[i].start, bs[i + 1].end, false)];
    var r := Replace(bs, i, 2, one);
    ReplaceAt(bs, i, 2, one);
    JoinPlaces(bs, end, i);
    assert HeaderAt(mem, bs, i);
    forall k | 0 <= k < |r|
      ensures HeaderAt(now, r, k)
    {
      if k < i {
        JoinedBefore(mem, now, bs, r, i, k);
      } else if k > i {
        JoinedBehind(mem, now, bs, r, i, k);
      }
    }
  }

  /** Where the other blocks start. */
  lemma JoinPlaces(bs: seq<Block>, end: int, i: nat)
    requires Chain(bs, 0, end, HDR + ALIGN) && i + 1 < |bs|
    ensures bs[i].start < bs[i + 1].end <= end
    ensures forall m :: 0 <= m < i ==> bs[m].start < bs[i].start
    ensures forall m :: i + 1 < m < |bs| ==>
              bs[i].start < bs[m].start < end && (bs[m].start == bs[i + 1].end <==> m == i + 2)
  {
    Bounds(bs, 0, end, HDR + ALIGN);
    EndIsStart(bs, 0, end, HDR + ALIGN, i + 1);
    assert i + 2 < |bs| ==> forall m :: i + 2 < m < |bs| ==> bs[i + 2].end <= bs[m].start;
  }

  lemma JoinedBefore(mem: map<int, Header>, now: map<int, Header>, bs: seq<Block>, r: seq<Block>, i: nat, k: nat)
    requires k < i && i + 1 < |bs| && k < |r| && r[k] == bs[k] && (0 < k ==> r[k - 1] == bs[k - 1])
    requires HeaderAt(mem, bs, k) && bs[k].start < bs[i].start < bs[i + 1].end
    requires bs[i].start in mem && bs[i + 1].end in mem && JoinAt(mem, now, bs[i].start, bs[i + 1].end)
    ensures HeaderAt(now, r, k)
  {
  }

  lemma JoinedBehind(mem: map<int, Header>, now: map<int, Header>, bs: seq<Block>, r: seq<Block>, i: nat, k: nat)
    requires i < k && k + 1 < |bs| && k < |r| && r[k] == bs[k + 1]
    requires r[k - 1].start == if k == i + 1 then bs[i].start else bs[k].start
    requires HeaderAt(mem, bs, k + 1) && bs[i].start < bs[k + 1].start
    requires bs[k + 1].start == bs[i + 1].end <==> k == i + 1
    requires bs[i].start in mem && bs[i + 1].end in mem && JoinAt(mem, now, bs[i].start, bs[i + 1].end)
    ensures HeaderAt(now, r, k)
  {
  }

  lemma LinkedFuse(mem: map<int, Header>, bs: seq<Block>, end: int, i: nat)
    requires Chain(bs, 0, end, HDR + ALIGN) && Linked(mem, bs, end) && i + 1 < |bs| && !bs[i].used
    ensures var at := bs[i].start;
            && at in mem && mem[at].next == bs[i + 1].start && mem[at].next in mem
            && mem[mem[at].next].next == bs[i + 1].end && bs[i + 1].end in mem
            && Linked(JoinHeaders(mem, at), Fuse(bs, i), end)
  {
    assert HeaderAt(mem, bs, i) && HeaderAt(mem, bs, i + 1) && Follows(bs, i + 1);
    assert i + 2 < |bs| ==> HeaderAt(mem, bs, i + 2) && Follows(bs, i + 2);
    Ordered(bs, 0, end, HDR + ALIGN, i, i + 1);
    JoinLinks(mem, JoinHeaders(mem, bs[i].start), bs, end, i);
  }

  // ---- bytes ----

  /** The payload bytes of every used block are the same before and after. */
  ghost predicate PayloadsKept(bs: seq<Block>, was: seq<byte>, now: seq<byte>)
  {
    && |was| == |now|
    && forall b, k {:trigger now[k], b in bs} ::
         b in bs && b.used && b.start + HDR <= k < b.end && 0 <= k < |now| ==> now[k] == was[k]
  }

  /** `now` is `was` but for the header at `at`. */
  ghost predicate HeaderWritten(at: int, was: seq<byte>, now: seq<byte>)
  {
    |was| == |now| && forall k :: 0 <= k < |now| && !(at <= k < at + HDR) ==> now[k] == was[k]
  }

  /** Writing any block's header, or the end mark's, leaves every payload alone. */
  lemma HeaderWriteKeeps(bs: seq<Block>, end: int, j: nat, was: seq<byte>, now: seq<byte>)
    requires Chain(bs, 0, end, HDR + ALIGN) && j <= |bs| && HeaderWritten(StartOf(bs, j, end), was, now)
    ensures PayloadsKept(bs, was, now)
  {
    Bounds(bs, 0, end, HDR + ALIGN);
    forall b, k | b in bs && b.used && b.start + HDR <= k < b.end && 0 <= k < |now|
      ensures now[k] == was[k]
    {
      var i :| 0 <= i < |bs| && bs[i] == b;
      assert i < j < |bs| ==> bs[i].end <= bs[j].start;
      assert j < i ==> bs[j].end <= bs[i].start;
    }
  }

  lemma KeptThrough(bs: seq<Block>, d: seq<byte>, e: seq<byte>, f: seq<byte>)
    requires PayloadsKept(bs, d, e) && PayloadsKept(bs, e, f)
    ensures PayloadsKept(bs, d, f)
  {
  }

  lemma KeptBelow(bs: seq<Block>, cs: seq<Block>, d: seq<byte>, e: seq<byte>)
    requires PayloadsKept(bs, d, e) && forall b :: b in cs && b.used ==> b in bs
    ensures PayloadsKept(cs, d, e)
  {
  }

  // ---- the lowest free block ----

  lemma FuseLow(bs: seq<Block>, i: nat, end: int)
    requires i + 1 < |bs| && !bs[i].used && !bs[i + 1].used
    ensures LowFree(Fuse(bs, i), end) == LowFree(bs, end)
  {
    var f := FirstFree(bs, 0);
    assert f <= i;
    ReplaceAt(bs, i, 2, [Block(bs[i].start, bs[i + 1].end, false)]);
    FirstFreeIs(Fuse(bs, i), f);
  }

  lemma LowBelow(bs: seq<Block>, end: int, i: nat)
    requires Chain(bs, 0, end, HDR + ALIGN) && i < |bs| && !bs[i].used
    ensures LowFree(bs, end) <= bs[i].start
  {
    Bounds(bs, 0, end, HDR + ALIGN);
    assert FirstFree(bs, 0) <= i;
  }

  lemma FreeLow(bs: seq<Block>, end: int, i: nat)
    requires Chain(bs, 0, end, HDR + ALIGN) && i < |bs| && bs[i].used
    ensures LowFree(Free(bs, i), end) == if bs[i].start < LowFree(bs, end) then bs[i].start else LowFree(bs, end)
  {
    Bounds(bs, 0, end, HDR + ALIGN);
    var f := FirstFree(bs, 0);
    ReplaceAt(bs, i, 1, [bs[i].(used := false)]);
    FirstFreeIs(Free(bs, i), if f < i then f else i);
  }

  lemma CarveLow(bs: seq<Block>, end: int, i: nat, n: int)
    requires Chain(bs, 0, end, HDR + ALIGN) && i < |bs| && bs[i].used && 0 < n < bs[i].end - bs[i].start
    ensures LowFree(Carve(bs, i, n), end) ==
            if bs[i].start + n < LowFree(bs, end) then bs[i].start + n else LowFree(bs, end)
  {
    Bounds(bs, 0, end, HDR + ALIGN);
    var f := FirstFree(bs, 0);
    ReplaceAt(bs, i, 1, [Block(bs[i].start, bs[i].start + n, true), Block(bs[i].start + n, bs[i].end, false)]);
    FirstFreeIs(Carve(bs, i, n), if f < i then f else i + 1);
  }

  // ---- allocation on block lists ----

  lemma {:induction false} SkipUsed(bs: seq<Block>, lo: int, hi: int, least: nat, i: nat, n: int, limit: int)
    requires Chain(bs, lo, hi, least) && i <= FirstFree(bs, 0)
    ensures FirstFit(bs, 0, n, limit) == FirstFit(bs, i, n, limit)
    decreases i
  {
    if 0 < i {
      SkipUsed(bs, lo, hi, least, i - 1, n, limit);
      Bounds(bs, lo, hi, least);
    }
  }

  /** Which block an allocation of `size` bytes takes: none for size zero or more than the heap holds. */
  ghost function Found(bs: seq<Block>, memSize: int, size: nat): (r: nat)
    requires size < WORD
    ensures r <= |bs|
    ensures r < |bs| ==> Fits(bs[r], Request(size))
  {
    if size == 0 || Align(size) > memSize then |bs|
    else FirstFit(bs, 0, Request(size), memSize - Request(size))
  }

  /** When allocation fails, for every size. A free block that would fit exactly at the very end of the heap
      does not count: it does not lie strictly below the limit. */
  lemma FailsExactly(bs: seq<Block>, memSize: int, size: nat)
    requires Chain(bs, 0, memSize + HDR, HDR + ALIGN) && size < WORD
    ensures Found(bs, memSize, size) == |bs| <==>
            || size == 0
            || Align(size) > memSize
            || forall k :: 0 <= k < |bs| && Fits(bs[k], Request(size)) ==> bs[k].start >= memSize - Request(size)
  {
    NoFit(bs, 0, memSize + HDR, HDR + ALIGN, 0, Request(size), memSize - Request(size));
  }

  /** The block taken is the lowest that fits. */
  lemma FindsLowest(bs: seq<Block>, memSize: int, size: nat, k: nat)
    requires size < WORD && Found(bs, memSize, size) < |bs| && k < |bs| && Fits(bs[k], Request(size))
    ensures Found(bs, memSize, size) <= k
  {
  }

  /** The payload handed out covers the request exactly when rounding up does not wrap; when it does wrap the
      caller gets the 12-byte minimum. */
  lemma RequestCovers(size: nat)
    requires size < WORD
    ensures size <= Request(size) <==> size + ALIGN - 1 < WORD
    ensures size + ALIGN - 1 >= WORD ==> Request(size) == MIN_SIZE
    ensures Request(size) % ALIGN == 0 && Request(size) >= MIN_SIZE
  {
    assert size + ALIGN - 1 >= WORD ==> size > MIN_SIZE;
  }

  /** A heap of one free block of 100 bytes hands out 12 bytes for a request of nearly 4 gigabytes. */
  lemma WrappedRequest()
    ensures Align(0xFFFF_FFFD) == 0 && Request(0xFFFF_FFFD) == 12
    ensures Found([Block(0, 112, false)], 100, 0xFFFF_FFFD) == 0
  {
    assert Fits(Block(0, 112, false), 12);
  }

  /** A free block of exactly the requested size is refused when it is the last of the heap. */
  lemma LastExactFitRefused()
    ensures var bs := [Block(0, 88, true), Block(88, 112, false)];
            && Chain(bs, 0, 112, HDR + ALIGN) && Fits(bs[1], 12) && Found(bs, 100, 12) == 2
  {
    var bs := [Block(0, 88, true), Block(88, 112, false)];
    FailsExactly(bs, 100, 12);
  }

  lemma AlignedReplace(bs: seq<Block>, i: nat, n: nat, mid: seq<Block>)
    requires Aligned(bs) && i + n <= |bs| && Aligned(mid)
    ensures Aligned(Replace(bs, i, n, mid))
  {
    ReplaceAt(bs, i, n, mid);
  }

  /** Handing out a block keeps the heap a coalesced tiling and adds the block's extent to the accounts. */
  lemma AllocKeeps(bs: seq<Block>, end: int, i: nat, n: int)
    requires Chain(bs, 0, end, HDR + ALIGN) && Coalesced(bs) && i < |bs| && Fits(bs[i], n) && MIN_SIZE <= n
    ensures var r := Alloc(bs, i, n);
            && Chain(r, 0, end, HDR + ALIGN) && Coalesced(r) && i < |r|
            && UsedSum(r) == UsedSum(bs) + r[i].end - r[i].start
            && r[i].start == bs[i].start && r[i].used && n <= Payload(r[i]) < n + HDR + MIN_SIZE
  {
    var r := Alloc(bs, i, n);
    if Payload(bs[i]) >= n + HDR + MIN_SIZE {
      CarveKeeps(bs, 0, end, HDR + ALIGN, i, HDR + n);
      CarveCoalesced(bs, r, i);
    } else {
      TakeKeeps(bs, 0, end, HDR + ALIGN, i);
    }
  }

  /** One used block is new; every other stays where it was. */
  lemma AllocLive(bs: seq<Block>, end: int, i: nat, n: int)
    requires Chain(bs, 0, end, HDR + ALIGN) && Coalesced(bs) && i < |bs| && Fits(bs[i], n) && MIN_SIZE <= n
    ensures var r := Alloc(bs, i, n);
            && i < |r| && r[i].used && r[i].start == bs[i].start && r[i] !in bs
            && forall b: Block :: b.used ==> (b in r <==> b in bs || b == r[i])
  {
    AllocKeeps(bs, end, i, n);
    var r := Alloc(bs, i, n);
    AllocIn(bs, i, n, r);
    NotAmong(bs, end, i, r[i]);
  }

  lemma CarveCoalesced(bs: seq<Block>, r: seq<Block>, i: nat)
    requires Coalesced(bs) && i < |bs| && !bs[i].used && |r| == |bs| + 1 && r[i].used && !r[i + 1].used
    requires forall k :: 0 <= k < i ==> r[k] == bs[k]
    requires forall k :: i + 1 < k < |r| ==> r[k] == bs[k - 1]
    ensures Coalesced(r)
  {
    forall k | 0 < k < |r|
      ensures Apart(r, k)
    {
      assert i + 1 < k ==> Apart(bs, k - 1);
      assert k < i ==> Apart(bs, k);
    }
  }

  lemma NotAmong(bs: seq<Block>, end: int, i: nat, b: Block)
    requires Chain(bs, 0, end, HDR + ALIGN) && i < |bs| && bs[i].start == b.start && bs[i] != b
    ensures b !in bs
  {
    Bounds(bs, 0, end, HDR + ALIGN);
    forall k | 0 <= k < |bs|
      ensures bs[k] != b
    {
      assert bs[k].start == bs[i].start ==> k == i;
    }
  }

  lemma AllocIn(bs: seq<Block>, i: nat, n: int, r: seq<Block>)
    requires i < |bs| && Fits(bs[i], n) && r == Alloc(bs, i, n) && i < |r| && r[i].used
    ensures forall b: Block :: b.used ==> (b in r <==> b in bs || b == r[i])
  {
    var cut := Payload(bs[i]) >= n + HDR + MIN_SIZE;
    var mid := if cut then [Block(bs[i].start, bs[i].start + HDR + n, true), Block(bs[i].start + HDR + n, bs[i].end, false)]
               else [bs[i].(used := true)];
    ReplaceAt(bs, i, 1, mid);
    forall b: Block | b.used
      ensures b in r <==> b in bs || b == r[i]
    {
      ReplaceIn(bs, i, 1, mid, b);
    }
  }

  // ---- the heap ----

  /** `p` is the payload of used block `i`. */
  ghost predicate Live(bs: seq<Block>, p: Ptr, i: nat)
  {
    i < |bs| && bs[i].used && p == At(bs[i].start + HDR)
  }

  class Heap {
    const memSize: int
    const data: array<byte>
    var mem: map<int, Header>
    var lfree: int
    var usedMem: int
    var maxMem: int
    ghost var blocks: seq<Block>

    function End(): int { memSize + HDR }

    ghost predicate Tiled()
      reads this
    {
      && MIN_SIZE <= memSize && memSize % ALIGN == 0 && memSize + 2 * HDR < WORD
      && data.Length == memSize + 2 * HDR
      && Chain(blocks, 0, End(), HDR + ALIGN) && Aligned(blocks) && Linked(mem, blocks, End())
    }

    /** The heap between calls: a coalesced tiling, `lfree` the lowest free block or the end mark, `usedMem`
        the extent of the used blocks and `maxMem` no less than it. */
    ghost predicate Valid()
      reads this
    {
      && Tiled() && Coalesced(blocks) && lfree == LowFree(blocks, End())
      && usedMem == UsedSum(blocks) <= maxMem
    }

    /** The range between the two addresses, less the two headers, becomes one free block. */
    constructor (beginAddr: nat, endAddr: nat)
      requires beginAddr + ALIGN <= WORD && endAddr < WORD
      requires Align(beginAddr) + 2 * HDR + MIN_SIZE <= endAddr / ALIGN * ALIGN
      requires endAddr / ALIGN * ALIGN - Align(beginAddr) < WORD
      ensures Valid() && fresh(data)
      ensures memSize == endAddr / ALIGN * ALIGN - Align(beginAddr) - 2 * HDR
      ensures blocks == [Block(0, memSize + HDR, false)] && usedMem == maxMem == 0
    {
      var size := endAddr / ALIGN * ALIGN - Align(beginAddr) - 2 * HDR;
      memSize := size;
      data := new byte[size + 2 * HDR];
      mem := map[0 := Header(false, size + HDR, 0), size + HDR := Header(true, size + HDR, size + HDR)];
      lfree := 0;
      usedMem := 0;
      maxMem := 0;
      blocks := [Block(0, size + HDR, false)];
      new;
      UsedSumOne(blocks[0]);
      assert HeaderAt(mem, blocks, 0);
    }

    /** Stores a header: its twelve bytes are magic, flag, and the two offsets, low byte first. As the place
        is that of a header in the list `bs`, no payload changes. */
    method PutHeader(at: int, h: Header, ghost bs: seq<Block>, ghost j: nat, ghost was: seq<byte>)
      requires 0 <= at && at + HDR <= data.Length
      requires Chain(bs, 0, End(), HDR + ALIGN) && j <= |bs| && at == StartOf(bs, j, End())
      requires PayloadsKept(bs, was, data[..])
      modifies this`mem, data
      ensures mem == old(mem)[at := h] && PayloadsKept(bs, was, data[..])
    {
      ghost var d := data[..];
      data[at], data[at + 1] := 0xA0, 0x1E;
      data[at + 2], data[at + 3] := if h.used then 1 else 0, 0;
      var k := 0;
      while k < 4
        invariant 0 <= k <= 4 && HeaderWritten(at, d, data[..])
        invariant mem == old(mem)
      {
        data[at + 4 + k], data[at + 8 + k] := OffsetByte(h.next, k), OffsetByte(h.prev, k);
        k := k + 1;
      }
      mem := mem[at := h];
      HeaderWriteKeeps(bs, End(), j, d, data[..]);
      KeptThrough(bs, was, d, data[..]);
    }

    static function OffsetByte(n: int, k: nat): byte
    {
      (if k == 0 then n % 256 else if k == 1 then n / 0x100 % 256
       else if k == 2 then n / 0x1_0000 % 256 else n / 0x100_0000 % 256) as byte
    }

    /** Cuts block `i` after `n` payload bytes; the rest becomes a free block. */
    method Split(at: int, n: int, ghost i: nat)
      requires Tiled() && i < |blocks| && blocks[i].start == at
      requires n % ALIGN == 0 && ALIGN <= n && n + HDR + ALIGN <= Payload(blocks[i])
      modifies this`mem, this`blocks, data
      ensures Tiled() && blocks == Carve(old(blocks), i, HDR + n)
      ensures PayloadsKept(blocks, old(data[..]), data[..])
    {
      ghost var bs, was := blocks, data[..];
      ghost var r := Carve(bs, i, HDR + n);
      SplitFacts(bs, i, n);
      var h := mem[at];
      var ptr2 := at + (HDR + n);
      PutHeader(ptr2, Header(false, h.next, at), r, i + 1, was);
      PutHeader(at, h.(next := ptr2, used := true), r, i, was);
      if h.next != memSize + HDR {
        PutHeader(h.next, mem[h.next].(prev := ptr2), r, i + 2, was);
      }
      blocks := r;
    }

    lemma SplitFacts(bs: seq<Block>, i: nat, n: int)
      requires Tiled() && bs == blocks && i < |bs|
      requires n % ALIGN == 0 && ALIGN <= n && n + HDR + ALIGN <= Payload(bs[i])
      ensures var at, r := bs[i].start, Carve(bs, i, HDR + n);
              && Chain(r, 0, End(), HDR + ALIGN) && Aligned(r) && i + 1 < |r|
              && StartOf(r, i, End()) == at && StartOf(r, i + 1, End()) == at + (HDR + n)
              && StartOf(r, i + 2, End()) == bs[i].end
              && 0 <= at && bs[i].end <= End()
              && at in mem && mem[at].next == bs[i].end && bs[i].end in mem
              && Linked(SplitHeaders(mem, at, HDR + n, End()), r, End())
    {
      SplitTiles(bs, i, n);
      LinkedCarve(mem, bs, End(), i, HDR + n);
    }

    lemma SplitTiles(bs: seq<Block>, i: nat, n: int)
      requires Chain(bs, 0, End(), HDR + ALIGN) && Aligned(bs) && i < |bs|
      requires n % ALIGN == 0 && ALIGN <= n && n + HDR + ALIGN <= Payload(bs[i])
      ensures var at, r := bs[i].start, Carve(bs, i, HDR + n);
              && Chain(r, 0, End(), HDR + ALIGN) && Aligned(r) && i + 1 < |r|
              && StartOf(r, i, End()) == at && StartOf(r, i + 1, End()) == at + (HDR + n)
              && StartOf(r, i + 2, End()) == bs[i].end
              && 0 <= at && bs[i].end <= End()
    {
      Within(bs, End(), i);
      CarveKeeps(bs, 0, End(), HDR + ALIGN, i, HDR + n);
      EndIsStart(bs, 0, End(), HDR + ALIGN, i);
      SplitAligned(bs, i, n);
    }

    static lemma SplitAligned(bs: seq<Block>, i: nat, n: int)
      requires Aligned(bs) && i < |bs| && n % ALIGN == 0
      ensures Aligned(Carve(bs, i, HDR + n))
    {
      var at := bs[i].start;
      PartsAligned(bs, i, n);
      AlignedReplace(bs, i, 1, [Block(at, at + (HDR + n), true), Block(at + (HDR + n), bs[i].end, false)]);
    }

    static lemma PartsAligned(bs: seq<Block>, i: nat, n: int)
      requires Aligned(bs) && i < |bs| && n % ALIGN == 0
      ensures Aligned([Block(bs[i].start, bs[i].start + (HDR + n), true), Block(bs[i].start + (HDR + n), bs[i].end, false)])
    {
      assert bs[i].start % ALIGN == 0 && bs[i].end % ALIGN == 0;
    }

    /** Joins block `i` with the free block after it. */
    method Join(at: int, ghost i: nat)
      requires Tiled() && i + 1 < |blocks| && !blocks[i].used && !blocks[i + 1].used && blocks[i].start == at
      modifies this`mem, this`blocks, data
      ensures Tiled() && blocks == Fuse(old(blocks), i)
      ensures PayloadsKept(blocks, old(data[..]), data[..])
    {
      ghost var bs, was := blocks, data[..];
      ghost var r := Fuse(bs, i);
      JoinFacts(bs, i);
      var beyond := mem[mem[at].next].next;
      PutHeader(at, mem[at].(next := beyond), r, i, was);
      PutHeader(beyond, mem[beyond].(prev := at), r, i + 1, was);
      blocks := r;
    }

    lemma JoinFacts(bs: seq<Block>, i: nat)
      requires Tiled() && bs == blocks && i + 1 < |bs| && !bs[i].used && !bs[i + 1].used
      ensures var at, r := bs[i].start, Fuse(bs, i);
              && Chain(r, 0, End(), HDR + ALIGN) && Aligned(r) && i < |r|
              && StartOf(r, i, End()) == at && StartOf(r, i + 1, End()) == bs[i + 1].end
              && 0 <= at && bs[i + 1].end <= End()
              && at in mem && mem[at].next == bs[i + 1].start && mem[at].next in mem
              && mem[mem[at].next].next == bs[i + 1].end && bs[i + 1].end in mem
              && Linked(JoinHeaders(mem, at), r, End())
    {
      Bounds(bs, 0, End(), HDR + ALIGN);
      LinkedFuse(mem, bs, End(), i);
      FuseKeeps(bs, 0, End(), HDR + ALIGN, i);
      AlignedReplace(bs, i, 2, [Block(bs[i].start, bs[i + 1].end, false)]);
      assert i + 2 < |bs| ==> Follows(bs, i + 2);
    }

    lemma HeaderOf(i: nat)
      requires Tiled() && i < |blocks|
      ensures blocks[i].start in mem && mem[blocks[i].start].next == blocks[i].end
    {
      assert HeaderAt(mem, blocks, i);
    }

    /** What a header tells about its block's neighbours. */
    lemma Neighbours(i: nat)
      requires Tiled() && i < |blocks|
      ensures var b := blocks[i];
              && b.start in mem && mem[b.start] == Header(b.used, b.end, PrevOf(blocks, i))
              && b.end in mem && (b.end == End() <==> i + 1 == |blocks|)
              && (i + 1 < |blocks| ==> blocks[i + 1].start == b.end && mem[b.end].used == blocks[i + 1].used)
              && 0 <= b.start && b.end <= End()
              && (0 < i ==> PrevOf(blocks, i) in mem && PrevOf(blocks, i) < b.start
                            && mem[PrevOf(blocks, i)].used == blocks[i - 1].used)
              && (i == 0 ==> b.start == 0)
    {
      Bounds(blocks, 0, End(), HDR + ALIGN);
      assert HeaderAt(mem, blocks, i);
      assert i + 1 < |blocks| ==> HeaderAt(mem, blocks, i + 1) && Follows(blocks, i + 1);
      assert 0 < i ==> HeaderAt(mem, blocks, i - 1) && Follows(blocks, i);
    }

    /** Joins block `i` with the block after it if that is free ... */
    method PlugForward(at: int, ghost i: nat)
      requires Tiled() && i < |blocks| && !blocks[i].used && blocks[i].start == at
      requires lfree == LowFree(blocks, End())
      modifies this`mem, this`blocks, this`lfree, data
      ensures Tiled() && blocks == Ahead(old(blocks), i)
      ensures i < |blocks| && !blocks[i].used && blocks[i].start == at
      ensures lfree == LowFree(blocks, End()) && PayloadsKept(blocks, old(data[..]), data[..])
    {
      Neighbours(i);
      LowBelow(blocks, End(), i);
      var next := mem[at].next;
      if at != next && !mem[next].used && next != memSize + HDR {
        lfree := if lfree == next then at else lfree;
        FuseLow(blocks, i, End());
        FuseKeeps(blocks, 0, End(), HDR + ALIGN, i);
        Join(at, i);
      }
    }

    /** ... and with the one before. */
    method PlugBackward(at: int, ghost i: nat)
      requires Tiled() && i < |blocks| && !blocks[i].used && blocks[i].start == at
      requires lfree == LowFree(blocks, End())
      modifies this`mem, this`blocks, this`lfree, data
      ensures Tiled() && blocks == Behind(old(blocks), i)
      ensures lfree == LowFree(blocks, End()) && PayloadsKept(blocks, old(data[..]), data[..])
    {
      Neighbours(i);
      var prev := mem[at].prev;
      if prev != at && !mem[prev].used {
        LowBelow(blocks, End(), i - 1);
        lfree := if lfree == at then prev else lfree;
        FuseLow(blocks, i - 1, End());
        Join(prev, i - 1);
      }
    }

    /** Joins the freshly freed block `i` with its free neighbours. */
    method PlugHoles(at: int, ghost i: nat)
      requires Tiled() && CoalescedBut(blocks, i) && blocks[i].start == at
      requires lfree == LowFree(blocks, End())
      modifies this`mem, this`blocks, this`lfree, data
      ensures Tiled() && Coalesced(blocks) && blocks == Plug(old(blocks), i)
      ensures UsedSum(blocks) == UsedSum(old(blocks)) && lfree == LowFree(blocks, End())
      ensures PayloadsKept(blocks, old(data[..]), data[..])
    {
      ghost var bs, was := blocks, data[..];
      PlugKeeps(bs, 0, End(), HDR + ALIGN, i);
      PlugForward(at, i);
      ghost var mid, half := blocks, data[..];
      PlugBackward(at, i);
      BehindBelow(mid, i);
      KeptBelow(mid, blocks, was, half);
      KeptThrough(blocks, was, half, data[..]);
    }

    /** First-fit search from the lowest free block. */
    method Search(n: int) returns (ptr: int)
      requires Valid() && MIN_SIZE <= n
      ensures var i := FirstFit(blocks, 0, n, memSize - n);
              && ptr == StartOf(blocks, i, ptr)
              && (ptr < memSize - n <==> i < |blocks|)
    {
      ghost var i: nat, limit := FirstFree(blocks, 0), memSize - n;
      SkipUsed(blocks, 0, End(), HDR + ALIGN, i, n, limit);
      ghost var found := FirstFit(blocks, 0, n, limit);
      ptr := lfree;
      while ptr < memSize - n
        invariant i <= |blocks| && ptr == StartOf(blocks, i, End())
        invariant found == FirstFit(blocks, i, n, limit)
        decreases |blocks| - i
      {
        Neighbours(i);
        if !mem[ptr].used && mem[ptr].next - (ptr + HDR) >= n {
          break;
        }
        ptr := mem[ptr].next;
        i := i + 1;
      }
    }

    /** The lowest fitting block is handed out; the peak follows the use; no other payload changes. Or nothing
        changes and nothing is handed out. */
    method Malloc(size: nat) returns (p: Ptr)
      requires Valid() && size < WORD
      modifies this`mem, this`lfree, this`usedMem, this`maxMem, this`blocks, data
      ensures Valid()
      ensures var i := Found(old(blocks), memSize, size);
              if i < |old(blocks)| then
                && p == At(old(blocks)[i].start + HDR)
                && blocks == Alloc(old(blocks), i, Request(size))
                && maxMem == Max(old(maxMem), usedMem)
                && PayloadsKept(blocks, old(data[..]), data[..])
              else
                p == Null && unchanged(this) && unchanged(data)
    {
      if size == 0 {
        return Null;
      }
      var n := Align(size);
      if n > memSize {
        return Null;
      }
      if n < MIN_SIZE {
        n := MIN_SIZE;
      }
      RequestCovers(size);
      var ptr := Search(n);
      if ptr < memSize - n {
        Grant(ptr, n, FirstFit(blocks, 0, n, memSize - n));
        return At(ptr + HDR);
      }
      return Null;
    }

    /** The block found is split or taken whole, and the accounts and the lowest free block follow. */
    method Grant(ptr: int, n: int, ghost i: nat)
      requires Valid() && i < |blocks| && Fits(blocks[i], n) && blocks[i].start == ptr
      requires MIN_SIZE <= n && n % ALIGN == 0
      modifies this`mem, this`lfree, this`usedMem, this`maxMem, this`blocks, data
      ensures Valid() && blocks == Alloc(old(blocks), i, n) && maxMem == Max(old(maxMem), usedMem)
      ensures PayloadsKept(blocks, old(data[..]), data[..])
    {
      ghost var bs := blocks;
      AllocKeeps(bs, End(), i, n);
      AllocLow(bs, End(), i, n);
      var extent := Use(ptr, n, i);
      usedMem := usedMem + extent;
      maxMem := if maxMem < usedMem then usedMem else maxMem;
      if ptr == lfree {
        AdvanceFree(i);
      }
    }

    method Use(ptr: int, n: int, ghost i: nat) returns (extent: int)
      requires Tiled() && Coalesced(blocks) && i < |blocks| && Fits(blocks[i], n) && blocks[i].start == ptr
      requires MIN_SIZE <= n && n % ALIGN == 0
      modifies this`mem, this`blocks, data
      ensures Tiled() && blocks == Alloc(old(blocks), i, n) && UsedSum(blocks) == UsedSum(old(blocks)) + extent
      ensures PayloadsKept(blocks, old(data[..]), data[..])
    {
      AllocKeeps(blocks, End(), i, n);
      Neighbours(i);
      if mem[ptr].next - (ptr + HDR) >= n + HDR + MIN_SIZE {
        CarveKeeps(blocks, 0, End(), HDR + ALIGN, i, HDR + n);
        Split(ptr, n, i);
        extent := n + HDR;
      } else {
        TakeKeeps(blocks, 0, End(), HDR + ALIGN, i);
        TakeWhole(ptr, i);
        extent := mem[ptr].next - ptr;
      }
    }

    method TakeWhole(ptr: int, ghost i: nat)
      requires Tiled() && i < |blocks| && !blocks[i].used && blocks[i].start == ptr && Coalesced(blocks)
      modifies this`mem, this`blocks, data
      ensures Tiled() && blocks == Take(old(blocks), i) && ptr in mem && mem[ptr].next == old(blocks)[i].end
      ensures PayloadsKept(blocks, old(data[..]), data[..])
    {
      ghost var bs, was := blocks, data[..];
      Neighbours(i);
      TakeKeeps(bs, 0, End(), HDR + ALIGN, i);
      AlignedReplace(bs, i, 1, [bs[i].(used := true)]);
      LinkedFlag(mem, bs, End(), i, true);
      PutHeader(ptr, mem[ptr].(used := true), Take(bs, i), i, was);
      blocks := Take(bs, i);
    }

    /** Moves `lfree` from block `i` to the next free block or the end mark. */
    method AdvanceFree(ghost i: nat)
      requires Tiled() && i < |blocks| && lfree == blocks[i].start && i <= FirstFree(blocks, 0)
      modifies this`lfree
      ensures lfree == LowFree(blocks, End())
    {
      ghost var k := i;
      Neighbours(k);
      while mem[lfree].used && lfree != memSize + HDR
        invariant k <= FirstFree(blocks, 0) && lfree == StartOf(blocks, k, End()) && lfree in mem
        invariant k < |blocks| ==> mem[lfree].used == blocks[k].used
        invariant k < |blocks| ==> lfree != End()
        decreases |blocks| - k
      {
        Neighbours(k);
        lfree := mem[lfree].next;
        k := k + 1;
      }
    }

    /** `p` lies in the heap: where it does, it must be what Malloc returned. */
    predicate InHeap(p: Ptr) { p.At? && 0 <= p.off < memSize + HDR }

    /** The block of `p` is released and joined with its free neighbours; the peak stays; no live payload
        changes. Pointers outside the heap are ignored. */
    method Free(p: Ptr)
      requires Valid() && (InHeap(p) ==> exists i :: Live(blocks, p, i))
      modifies this`mem, this`lfree, this`usedMem, this`blocks, data
      ensures Valid()
      ensures InHeap(p) ==> forall i :: Live(old(blocks), p, i) ==> blocks == Release(old(blocks), i)
      ensures !InHeap(p) ==> unchanged(this) && unchanged(data)
      ensures PayloadsKept(blocks, old(data[..]), data[..])
    {
      if p == Null || p.off < 0 || p.off >= memSize + HDR {
        return;
      }
      ghost var i :| Live(blocks, p, i);
      LiveIsUnique(blocks, End(), p, i);
      Return(p.off - HDR, i);
    }

    method Return(at: int, ghost i: nat)
      requires Valid() && i < |blocks| && blocks[i].used && blocks[i].start == at
      modifies this`mem, this`lfree, this`usedMem, this`blocks, data
      ensures Valid() && blocks == Release(old(blocks), i)
      ensures PayloadsKept(blocks, old(data[..]), data[..])
    {
      ghost var bs, was := blocks, data[..];
      ReleaseFacts(bs, End(), i);
      ClearUsed(at, i);
      usedMem := usedMem - (mem[at].next - at);
      assert usedMem == UsedSum(blocks);
      Reclaim(at, i, was);
    }

    /** Block `i` has just become free: it may be the lowest, and its neighbours may be free too. */
    method Reclaim(at: int, ghost i: nat, ghost was: seq<byte>)
      requires Tiled() && CoalescedBut(blocks, i) && blocks[i].start == at
      requires LowFree(blocks, End()) == (if at < lfree then at else lfree)
      requires usedMem == UsedSum(blocks) <= maxMem && PayloadsKept(blocks, was, data[..])
      modifies this`mem, this`lfree, this`blocks, data
      ensures Valid() && blocks == Plug(old(blocks), i) && PayloadsKept(blocks, was, data[..])
    {
      if at < lfree {
        lfree := at;
      }
      ghost var mid, half := blocks, data[..];
      PlugHoles(at, i);
      PlugKept(mid, i, blocks, was, half, data[..]);
    }

    lemma ReleaseFacts(bs: seq<Block>, end: int, i: nat)
      requires Chain(bs, 0, end, HDR + ALIGN) && Coalesced(bs) && i < |bs| && bs[i].used
      ensures var f := Tiling.Free(bs, i);
              && CoalescedBut(f, i) && f[i].start == bs[i].start
              && LowFree(f, end) == (if bs[i].start < LowFree(bs, end) then bs[i].start else LowFree(bs, end))
              && UsedSum(f) == UsedSum(bs) - (bs[i].end - bs[i].start)
              && UsedSum(f) <= UsedSum(bs)
              && Release(bs, i) == Plug(f, i)
    {
      FreeKeeps(bs, 0, end, HDR + ALIGN, i);
      FreeLow(bs, end, i);
    }

    method ClearUsed(at: int, ghost i: nat)
      requires Tiled() && i < |blocks| && blocks[i].start == at
      modifies this`mem, this`blocks, data
      ensures Tiled() && blocks == Tiling.Free(old(blocks), i) && at in mem && mem[at].next == old(blocks)[i].end
      ensures PayloadsKept(blocks, old(data[..]), data[..])
    {
      ghost var bs, was := blocks, data[..];
      Neighbours(i);
      ghost var one := bs[i].(used := false);
      ReplaceChain(bs, 0, End(), HDR + ALIGN, i, 1, [one]);
      ReplaceAt(bs, i, 1, [one]);
      AlignedReplace(bs, i, 1, [one]);
      LinkedFlag(mem, bs, End(), i, false);
      PutHeader(at, mem[at].(used := false), Replace(bs, i, 1, [one]), i, was);
      blocks := Replace(bs, i, 1, [one]);
    }

    /** Cuts live block `i` down to `n` bytes; the rest is released. */
    method Shrink(at: int, n: int, ghost i: nat)
      requires Valid() && i < |blocks| && blocks[i].used && blocks[i].start == at
      requires n % ALIGN == 0 && ALIGN <= n && n + HDR + MIN_SIZE < Payload(blocks[i])
      modifies this`mem, this`lfree, this`usedMem, this`blocks, data
      ensures Valid() && blocks == Plug(Carve(old(blocks), i, HDR + n), i + 1)
      ensures PayloadsKept(blocks, old(data[..]), data[..])
    {
      ghost var bs, was := blocks, data[..];
      HeaderOf(i);
      ShrinkFacts(bs, End(), i, n);
      usedMem := usedMem - (mem[at].next - at - HDR - n);
      assert usedMem <= maxMem;
      var ptr2 := at + (HDR + n);
      Split(at, n, i);
      Reclaim(ptr2, i + 1, was);
    }

    /** Copies `len` bytes between two ranges that do not overlap. */
    method CopyBytes(dst: int, src: int, len: int)
      requires 0 <= len && 0 <= dst && dst + len <= data.Length && 0 <= src && src + len <= data.Length
      requires dst + len <= src || src + len <= dst
      modifies data
      ensures Agree(old(data[..]), src, data[..], dst, len) && OnlyWithin(dst, len, old(data[..]), data[..])
    {
      var x := 0;
      while x < len
        invariant 0 <= x <= len
        invariant forall y :: 0 <= y < data.Length && !(dst <= y < dst + x) ==> data[y] == old(data[y])
        invariant forall y :: dst <= y < dst + x ==> data[y] == old(data[src + (y - dst)])
      {
        data[dst + x] := data[src + x];
        x := x + 1;
      }
      assert data[..][dst..dst + len] == old(data[..])[src..src + len];
    }

    /** Resizes a block. A null result for a size that does not round to zero changes nothing; a size that
        rounds to zero releases the block; a pointer outside the heap comes back as it is. */
    method Realloc(p: Ptr, size: nat) returns (q: Ptr)
      requires Valid() && size < WORD && (InHeap(p) ==> exists i :: Live(blocks, p, i))
      modifies this`mem, this`lfree, this`usedMem, this`maxMem, this`blocks, data
      ensures Valid()
      ensures q == Null && 0 < Align(size) ==> unchanged(this) && unchanged(data)
      ensures Align(size) > memSize ==> q == Null
      ensures Align(size) == 0 ==>
                && q == Null && (!InHeap(p) ==> unchanged(this) && unchanged(data))
                && (InHeap(p) ==> PayloadsKept(blocks, old(data[..]), data[..])
                                  && forall i :: Live(old(blocks), p, i) ==> blocks == Release(old(blocks), i))
      ensures p == Null && 0 < Align(size) <= memSize ==>
                var j := Found(old(blocks), memSize, Align(size));
                j < |old(blocks)| ==>
                  && q == At(old(blocks)[j].start + HDR) && blocks == Alloc(old(blocks), j, Request(Align(size)))
                  && PayloadsKept(blocks, old(data[..]), data[..])
      ensures p != Null && !InHeap(p) && 0 < Align(size) <= memSize ==> q == p && unchanged(this) && unchanged(data)
      ensures InHeap(p) && 0 < Align(size) <= memSize ==>
                forall i :: Live(old(blocks), p, i) ==>
                  && (exists k :: Reallocated(old(blocks), i, p, memSize, Align(size), blocks, q, k))
                  && (q != Null ==> Resized(old(blocks), i, p, blocks, q, Align(size), old(data[..]), data[..]))
    {
      var newsize := Align(size);
      if newsize > memSize {
        return Null;
      } else if newsize == 0 {
        Free(p);
        return Null;
      }
      if p == Null {
        q := Malloc(newsize);
        return;
      }
      if p.off < 0 || p.off >= memSize + HDR {
        return p;
      }
      ghost var i :| Live(blocks, p, i);
      LiveIsUnique(blocks, End(), p, i);
      ghost var k;
      q, k := Resize(p, newsize, i);
    }

    /** Keeps, cuts down or moves live block `i`. */
    method Resize(p: Ptr, n: int, ghost i: nat) returns (q: Ptr, ghost k: nat)
      requires Valid() && Live(blocks, p, i) && 0 < n <= memSize && n % ALIGN == 0
      modifies this`mem, this`lfree, this`usedMem, this`maxMem, this`blocks, data
      ensures Valid() && Reallocated(old(blocks), i, p, memSize, n, blocks, q, k)
      ensures q == Null ==> unchanged(this) && unchanged(data)
      ensures q != Null ==> Resized(old(blocks), i, p, blocks, q, n, old(data[..]), data[..])
    {
      HeaderOf(i);
      var size := mem[p.off - HDR].next - (p.off - HDR) - HDR;
      k := 0;
      if size == n {
        KeptThere(blocks, End(), i, p, n, data[..]);
        return p, 0;
      }
      if n + HDR + MIN_SIZE < size {
        CutDown(p, n, i);
        return p, 0;
      }
      q, k := Relocate(p, n, i);
    }

    method CutDown(p: Ptr, n: int, ghost i: nat)
      requires Valid() && Live(blocks, p, i)
      requires n % ALIGN == 0 && ALIGN <= n && n + HDR + MIN_SIZE < Payload(blocks[i])
      modifies this`mem, this`lfree, this`usedMem, this`blocks, data
      ensures Valid() && blocks == Plug(Carve(old(blocks), i, HDR + n), i + 1)
      ensures Resized(old(blocks), i, p, blocks, p, n, old(data[..]), data[..])
    {
      ghost var bs, d := blocks, data[..];
      Shrink(p.off - HDR, n, i);
      ShrunkThere(bs, End(), i, p, n, blocks, d, data[..]);
    }

    method Relocate(p: Ptr, n: int, ghost i: nat) returns (q: Ptr, ghost k: nat)
      requires Valid() && Live(blocks, p, i) && 0 < n < WORD && n % ALIGN == 0
      modifies this`mem, this`lfree, this`usedMem, this`maxMem, this`blocks, data
      ensures Valid() && MovedTo(old(blocks), p, memSize, n, blocks, q, k)
      ensures q == Null ==> unchanged(this) && unchanged(data)
      ensures q != Null ==> Resized(old(blocks), i, p, blocks, q, n, old(data[..]), data[..])
    {
      q, k := Move(p, n, i, Found(blocks, memSize, n));
    }

    /** Gives live block `i` a new home of `n` bytes, or changes nothing. The peak counts both homes. */
    method Move(p: Ptr, n: int, ghost i: nat, ghost j: nat) returns (q: Ptr, ghost k: nat)
      requires Valid() && Live(blocks, p, i) && 0 < n < WORD && n % ALIGN == 0 && j == Found(blocks, memSize, n)
      modifies this`mem, this`lfree, this`usedMem, this`maxMem, this`blocks, data
      ensures Valid()
      ensures if j < |old(blocks)| then
                var a := Alloc(old(blocks), j, Request(n));
                && q == At(old(blocks)[j].start + HDR)
                && maxMem == Max(old(maxMem), UsedSum(a))
                && Resized(old(blocks), i, p, blocks, q, n, old(data[..]), data[..])
                && Live(a, p, k) && blocks == Release(a, k)
              else
                q == Null && unchanged(this) && unchanged(data)
    {
      ghost var bs, d0 := blocks, data[..];
      q, k := CopyOut(p, n, i, j);
      if q != Null {
        ghost var a, d2 := blocks, data[..];
        Return(p.off - HDR, k);
        ReleasedThere(bs, a, End(), i, k, p, q, n, d0, d2, data[..]);
      }
    }

    /** The new home is allocated and filled while the old one is still there, as block `k`. */
    method CopyOut(p: Ptr, n: int, ghost i: nat, ghost j: nat) returns (q: Ptr, ghost k: nat)
      requires Valid() && Live(blocks, p, i) && 0 < n < WORD && n % ALIGN == 0 && j == Found(blocks, memSize, n)
      modifies this`mem, this`lfree, this`usedMem, this`maxMem, this`blocks, data
      ensures Valid()
      ensures if j < |old(blocks)| then
                && q == At(old(blocks)[j].start + HDR) && p != q
                && blocks == Alloc(old(blocks), j, Request(n))
                && maxMem == Max(old(maxMem), usedMem)
                && Live(blocks, p, k) && blocks[k] == old(blocks)[i]
                && Resized(old(blocks), i, p, blocks, q, n, old(data[..]), data[..])
              else
                q == Null && unchanged(this) && unchanged(data)
    {
      ghost var bs, d0 := blocks, data[..];
      q := Malloc(n);
      k := 0;
      if q != Null {
        k := NewHome(bs, blocks, End(), i, j, n);
        Fill(p, q, n, bs, i, j, k, d0);
      }
    }

    /** Copies what the old home `k` and `n` bytes of the new home `j` have in common. */
    method Fill(p: Ptr, q: Ptr, n: int, ghost bs: seq<Block>, ghost i: nat, ghost j: nat, ghost k: nat, ghost d0: seq<byte>)
      requires Valid() && Live(blocks, p, k) && Live(blocks, q, j) && j != k && i < |bs| && bs[i] == blocks[k]
      requires blocks[j] !in bs && 0 < n <= Payload(blocks[j])
      requires UsedStay(bs, blocks)
      requires PayloadsKept(blocks, d0, data[..])
      modifies data
      ensures p != q && Resized(bs, i, p, blocks, q, n, d0, data[..])
    {
      HeaderOf(k);
      Apartness(blocks, End(), j, k);
      ghost var d1 := data[..];
      var size := mem[p.off - HDR].next - p.off;
      CopyBytes(q.off, p.off, if size < n then size else n);
      MovedThere(bs, blocks, End(), i, j, k, p, q, n, d0, d1, data[..]);
    }
  }

  /** Where the old block `i` and the new block `j` stand after an allocation. */
  lemma NewHome(bs: seq<Block>, a: seq<Block>, end: int, i: nat, j: nat, n: nat) returns (k: nat)
    requires Chain(bs, 0, end, HDR + ALIGN) && Coalesced(bs) && i < |bs| && bs[i].used && 0 < n < WORD
    requires j < |bs| && n % ALIGN == 0 && Fits(bs[j], Request(n)) && a == Alloc(bs, j, Request(n))
    ensures j < |a| && k < |a| && j != k && a[k] == bs[i] && a[j].used && a[j].start == bs[j].start
    ensures a[j] !in bs && n <= Payload(a[j])
    ensures UsedStay(bs, a)
  {
    AlignedRequest(n);
    AllocLive(bs, end, j, Request(n));
    AllocKeeps(bs, end, j, Request(n));
    assert bs[i] in a;
    k :| k < |a| && a[k] == bs[i];
  }

  lemma AlignedRequest(n: nat)
    requires 0 < n < WORD && n % ALIGN == 0
    ensures n <= Request(n) && MIN_SIZE <= Request(n)
  {
    assert n <= WORD - ALIGN;
    RequestCovers(n);
  }

  /** A size rounds to zero when it is zero, and when it is so large that rounding up wraps. */
  lemma RoundsToZero(size: nat)
    requires size < WORD
    ensures Align(size) == 0 <==> size == 0 || size + ALIGN - 1 >= WORD
  {
    assert size + ALIGN - 1 < WORD ==> size <= Align(size);
  }

  /** Which block list and pointer a resize of block `i` to `n` bytes yields. */
  ghost predicate Reallocated(bs: seq<Block>, i: nat, p: Ptr, memSize: int, n: nat, now: seq<Block>, q: Ptr, k: nat)
    requires i < |bs| && n < WORD
  {
    if Payload(bs[i]) == n then now == bs && q == p
    else if n + HDR + MIN_SIZE < Payload(bs[i]) then
      q == p && i + 1 < |Carve(bs, i, HDR + n)| && now == Plug(Carve(bs, i, HDR + n), i + 1)
    else MovedTo(bs, p, memSize, n, now, q, k)
  }

  /** First the new block is taken, then the old one, by then block `k`, is released. */
  ghost predicate MovedTo(bs: seq<Block>, p: Ptr, memSize: int, n: nat, now: seq<Block>, q: Ptr, k: nat)
    requires n < WORD
  {
    var j := Found(bs, memSize, n);
    if j == |bs| then now == bs && q == Null
    else
      var a := Alloc(bs, j, Request(n));
      q == At(bs[j].start + HDR) && Live(a, p, k) && now == Release(a, k)
  }

  ghost predicate Agree(was: seq<byte>, from: int, now: seq<byte>, to: int, len: int)
  {
    && 0 <= len && 0 <= from && from + len <= |was| && 0 <= to && to + len <= |now|
    && now[to..to + len] == was[from..from + len]
  }

  ghost predicate OnlyWithin(at: int, len: int, was: seq<byte>, now: seq<byte>)
  {
    |was| == |now| && forall y :: 0 <= y < |now| && !(at <= y < at + len) ==> now[y] == was[y]
  }

  ghost predicate HomeOf(bs: seq<Block>, b: Block, q: Ptr, n: int)
  {
    b in bs && b.used && q == At(b.start + HDR) && n <= Payload(b)
  }

  /** Every live block but the `i`-th stays, contents included. */
  ghost predicate OthersKept(bs: seq<Block>, i: nat, now: seq<Block>, d: seq<byte>, e: seq<byte>)
    requires i < |bs|
  {
    forall b :: b in bs && b.used && b != bs[i] ==> b in now && Same(b, d, e)
  }

  /** What a successful resize promises: `q` has room for `n` bytes and starts with the old contents of `p`,
      block `i` of `bs`, as far as both go; every other live block stays, contents included. */
  ghost predicate Resized(bs: seq<Block>, i: nat, p: Ptr, now: seq<Block>, q: Ptr, n: int, d: seq<byte>, e: seq<byte>)
  {
    && i < |bs| && p.At? && q.At?
    && (exists b :: HomeOf(now, b, q, n))
    && Agree(d, p.off, e, q.off, if Payload(bs[i]) < n then Payload(bs[i]) else n)
    && OthersKept(bs, i, now, d, e)
  }

  ghost predicate UsedStay(bs: seq<Block>, now: seq<Block>)
  {
    forall b :: b in bs && b.used ==> b in now
  }

  lemma Apartness(bs: seq<Block>, end: int, j: nat, k: nat)
    requires Chain(bs, 0, end, HDR + ALIGN) && j < |bs| && k < |bs| && j != k
    ensures bs[j].end <= bs[k].start || bs[k].end <= bs[j].start
    ensures 0 <= bs[j].start && bs[j].end <= end && 0 <= bs[k].start && bs[k].end <= end
  {
    Bounds(bs, 0, end, HDR + ALIGN);
  }

  lemma OtherPayloads(bs: seq<Block>, end: int, j: nat, len: int, was: seq<byte>, now: seq<byte>)
    requires Chain(bs, 0, end, HDR + ALIGN) && j < |bs| && len <= Payload(bs[j]) && |was| == |now|
    requires OnlyWithin(bs[j].start + HDR, len, was, now)
    ensures forall b :: b in bs && b != bs[j] ==> Same(b, was, now)
  {
    Bounds(bs, 0, end, HDR + ALIGN);
    forall b | b in bs && b != bs[j]
      ensures Same(b, was, now)
    {
      var m :| 0 <= m < |bs| && bs[m] == b;
      assert m < j ==> bs[m].end <= bs[j].start;
      assert j < m ==> bs[j].end <= bs[m].start;
    }
  }

  /** The payload of `b` reads the same before and after. */
  ghost predicate Same(b: Block, was: seq<byte>, now: seq<byte>)
  {
    |was| == |now| && forall k :: b.start + HDR <= k < b.end && 0 <= k < |now| ==> now[k] == was[k]
  }

  /** After allocation and copy, the old block and all others are as before and the new one has the bytes. */
  lemma MovedThere(bs: seq<Block>, a: seq<Block>, end: int, i: nat, j: nat, k: nat, p: Ptr, q: Ptr, n: int,
                   d0: seq<byte>, d1: seq<byte>, d2: seq<byte>)
    requires Chain(a, 0, end, HDR + ALIGN) && i < |bs| && j < |a| && k < |a| && j != k
    requires a[k] == bs[i] && bs[i].used && a[j].used && a[j] !in bs && n <= Payload(a[j]) && 0 < n
    requires p == At(bs[i].start + HDR) && q == At(a[j].start + HDR) && end <= |d0|
    requires UsedStay(bs, a)
    requires PayloadsKept(a, d0, d1) && |d1| == |d2|
    requires Agree(d1, p.off, d2, q.off, if Payload(bs[i]) < n then Payload(bs[i]) else n)
    requires OnlyWithin(q.off, if Payload(bs[i]) < n then Payload(bs[i]) else n, d1, d2)
    ensures Resized(bs, i, p, a, q, n, d0, d2)
    ensures a[j] != a[k]
  {
    var m := if Payload(bs[i]) < n then Payload(bs[i]) else n;
    OtherPayloads(a, end, j, m, d1, d2);
    assert HomeOf(a, a[j], q, n);
    assert bs[i] in a;
    assert d1[p.off..p.off + m] == d0[p.off..p.off + m];
    forall b | b in bs && b.used && b != bs[i]
      ensures b in a && Same(b, d0, d2)
    {
      assert Same(b, d1, d2);
    }
  }

  /** Releasing the old block changes none of that. */
  lemma ReleasedThere(bs: seq<Block>, a: seq<Block>, end: int, i: nat, k: nat, p: Ptr, q: Ptr, n: int,
                      d0: seq<byte>, d2: seq<byte>, d3: seq<byte>)
    requires Chain(a, 0, end, HDR + ALIGN) && k < |a| && a[k].used && i < |bs| && a[k] == bs[i]
    requires p == At(bs[i].start + HDR) && p != q
    requires Resized(bs, i, p, a, q, n, d0, d2) && PayloadsKept(Release(a, k), d2, d3)
    ensures Resized(bs, i, p, Release(a, k), q, n, d0, d3)
  {
    var r := Release(a, k);
    var home :| HomeOf(a, home, q, n);
    ReleaseKeepsUsed(a, 0, end, HDR + ALIGN, k, home);
    assert HomeOf(r, home, q, n);
    HomeKept(r, home, p, q, n, if Payload(bs[i]) < n then Payload(bs[i]) else n, d0, d2, d3);
    OthersReleased(bs, a, r, end, i, k, d0, d2, d3);
  }

  lemma HomeKept(r: seq<Block>, home: Block, p: Ptr, q: Ptr, n: int, m: int, d0: seq<byte>, d2: seq<byte>, d3: seq<byte>)
    requires p.At? && q.At? && HomeOf(r, home, q, n) && m <= n && PayloadsKept(r, d2, d3) && Agree(d0, p.off, d2, q.off, m)
    ensures Agree(d0, p.off, d3, q.off, m)
  {
    forall y | q.off <= y < q.off + m
      ensures d3[y] == d2[y]
    {
      assert home in r;
    }
    assert d3[q.off..q.off + m] == d2[q.off..q.off + m];
  }

  lemma OthersReleased(bs: seq<Block>, a: seq<Block>, r: seq<Block>, end: int, i: nat, k: nat,
                       d0: seq<byte>, d2: seq<byte>, d3: seq<byte>)
    requires Chain(a, 0, end, HDR + ALIGN) && k < |a| && a[k].used && i < |bs| && a[k] == bs[i] && r == Release(a, k)
    requires OthersKept(bs, i, a, d0, d2) && PayloadsKept(r, d2, d3)
    ensures OthersKept(bs, i, r, d0, d3)
  {
    forall b | b in bs && b.used && b != bs[i]
      ensures b in r && Same(b, d0, d3)
    {
      ReleaseKeepsUsed(a, 0, end, HDR + ALIGN, k, b);
    }
  }

  lemma KeptThere(bs: seq<Block>, end: int, i: nat, p: Ptr, n: int, d: seq<byte>)
    requires Chain(bs, 0, end, HDR + ALIGN) && Live(bs, p, i) && n == Payload(bs[i]) && end <= |d|
    ensures Resized(bs, i, p, bs, p, n, d, d)
  {
    Bounds(bs, 0, end, HDR + ALIGN);
    assert HomeOf(bs, bs[i], p, n);
  }

  lemma ShrunkThere(bs: seq<Block>, end: int, i: nat, p: Ptr, n: int, r: seq<Block>, d: seq<byte>, e: seq<byte>)
    requires Chain(bs, 0, end, HDR + ALIGN) && i < |bs| && bs[i].used && p == At(bs[i].start + HDR) && end <= |d|
    requires ALIGN <= n && n + HDR + MIN_SIZE < Payload(bs[i])
    requires i + 1 < |Carve(bs, i, HDR + n)| && r == Plug(Carve(bs, i, HDR + n), i + 1) && PayloadsKept(r, d, e)
    ensures Resized(bs, i, p, r, p, n, d, e)
  {
    Bounds(bs, 0, end, HDR + ALIGN);
    var c := Carve(bs, i, HDR + n);
    CarveKeeps(bs, 0, end, HDR + ALIGN, i, HDR + n);
    var home := c[i];
    PlugKeepsUsed(c, i + 1, home);
    assert HomeOf(r, home, p, n);
    HomeKept(r, home, p, p, n, n, d, d, e);
    forall b | b in bs && b.used && b != bs[i]
      ensures b in r && Same(b, d, e)
    {
      ReplaceIn(bs, i, 1, [Block(bs[i].start, bs[i].start + (HDR + n), true), Block(bs[i].start + (HDR + n), bs[i].end, false)], b);
      PlugKeepsUsed(c, i + 1, b);
    }
  }

  lemma ShrinkFacts(bs: seq<Block>, end: int, i: nat, n: int)
    requires Chain(bs, 0, end, HDR + ALIGN) && Coalesced(bs) && i < |bs| && bs[i].used
    requires ALIGN <= n && n + HDR + MIN_SIZE < Payload(bs[i])
    ensures var c, ptr2 := Carve(bs, i, HDR + n), bs[i].start + (HDR + n);
            && CoalescedBut(c, i + 1) && c[i + 1].start == ptr2
            && LowFree(c, end) == (if ptr2 < LowFree(bs, end) then ptr2 else LowFree(bs, end))
            && UsedSum(c) == UsedSum(bs) - (Payload(bs[i]) - n)
  {
    CarveKeeps(bs, 0, end, HDR + ALIGN, i, HDR + n);
    CarveLow(bs, end, i, HDR + n);
    var c := Carve(bs, i, HDR + n);
    forall k | 0 < k < |c| && k != i + 1 && k != i + 2
      ensures Apart(c, k)
    {
      assert k <= i ==> Apart(bs, k);
      assert i + 2 < k ==> Apart(bs, k - 1);
    }
  }

  lemma LiveIsUnique(bs: seq<Block>, end: int, p: Ptr, i: nat)
    requires Chain(bs, 0, end, HDR + ALIGN) && Live(bs, p, i)
    ensures forall k :: Live(bs, p, k) ==> k == i
  {
    Bounds(bs, 0, end, HDR + ALIGN);
  }

  lemma PlugKept(bs: seq<Block>, i: nat, r: seq<Block>, was: seq<byte>, half: seq<byte>, now: seq<byte>)
    requires i < |bs| && !bs[i].used && r == Plug(bs, i)
    requires PayloadsKept(bs, was, half) && PayloadsKept(r, half, now)
    ensures PayloadsKept(r, was, now)
  {
    forall b | b in r && b.used
      ensures b in bs
    {
      PlugKeepsUsed(bs, i, b);
    }
  }

  /** Handing out the lowest free block is the only way to move the lowest free block. */
  lemma AllocLow(bs: seq<Block>, end: int, i: nat, n: int)
    requires Chain(bs, 0, end, HDR + ALIGN) && i < |bs| && Fits(bs[i], n)
    ensures bs[i].start == LowFree(bs, end) ==> i <= FirstFree(Alloc(bs, i, n), 0)
    ensures bs[i].start != LowFree(bs, end) ==> LowFree(Alloc(bs, i, n), end) == LowFree(bs, end)
  {
    Bounds(bs, 0, end, HDR + ALIGN);
    var mid := if Payload(bs[i]) >= n + HDR + MIN_SIZE
               then [Block(bs[i].start, bs[i].start + (HDR + n), true), Block(bs[i].start + (HDR + n), bs[i].end, false)]
               else [bs[i].(used := true)];
    SwapLow(bs, i, mid, Alloc(bs, i, n), end);
  }

  lemma SwapLow(bs: seq<Block>, i: nat, mid: seq<Block>, r: seq<Block>, end: int)
    requires i < |bs| && !bs[i].used && mid != [] && mid[0].used && r == Replace(bs, i, 1, mid)
    requires forall k, l :: 0 <= k < l < |bs| ==> bs[k].start < bs[l].start
    ensures bs[i].start == LowFree(bs, end) ==> i <= FirstFree(r, 0)
    ensures bs[i].start != LowFree(bs, end) ==> LowFree(r, end) == LowFree(bs, end)
  {
    ReplaceAt(bs, i, 1, mid);
    var f := FirstFree(bs, 0);
    if f < i {
      FirstFreeIs(r, f);
    }
  }

  lemma BehindBelow(bs: seq<Block>, i: nat)
    requires i < |bs| && !bs[i].used
    ensures forall b :: b in Behind(bs, i) && b.used ==> b in bs
  {
    forall b | b in Behind(bs, i) && b.used
      ensures b in bs
    {
      if 0 < i && !bs[i - 1].used {
        FuseKeepsUsed(bs, i - 1, b);
      }
    }
  }
}
