/** Heaps as sequences of blocks that tile an address range: the common view of the three allocators
    that split and coalesce blocks in place. */
module Tiling {

  /** The addresses from `start` (where the header stands) up to `end`. */
  datatype Block = Block(start: int, end: int, used: bool)

  /** The blocks lie one after the other from `lo` to `hi`, each at least `least` long. */
  ghost predicate Chain(bs: seq<Block>, lo: int, hi: int, least: nat)
  {
    && (bs == [] ==> lo == hi)
    && (bs != [] ==> bs[0].start == lo && bs[|bs| - 1].end == hi)
    && (forall i :: 0 <= i < |bs| ==> bs[i].start + least <= bs[i].end)
    && (forall i :: 0 < i < |bs| ==> Follows(bs, i))
  }

  ghost predicate Follows(bs: seq<Block>, i: nat)
    requires 0 < i < |bs|
  {
    bs[i - 1].end == bs[i].start
  }

  /** No two free blocks are neighbours. */
  ghost predicate Coalesced(bs: seq<Block>)
  {
    forall i :: 0 < i < |bs| ==> Apart(bs, i)
  }

  ghost predicate Apart(bs: seq<Block>, i: nat)
    requires 0 < i < |bs|
  {
    bs[i - 1].used || bs[i].used
  }

  ghost function StartOf(bs: seq<Block>, i: nat, hi: int): int
    requires i <= |bs|
  {
    if i < |bs| then bs[i].start else hi
  }

  lemma {:induction false} Ordered(bs: seq<Block>, lo: int, hi: int, least: nat, i: nat, j: nat)
    requires Chain(bs, lo, hi, least) && i < j < |bs|
    ensures bs[i].end <= bs[j].start
    decreases j
  {
    assert Follows(bs, j);
    if i + 1 < j {
      Ordered(bs, lo, hi, least, i, j - 1);
    }
  }

  lemma Bounds(bs: seq<Block>, lo: int, hi: int, least: nat)
    requires Chain(bs, lo, hi, least)
    ensures forall i :: 0 <= i < |bs| ==> lo <= bs[i].start && bs[i].end <= hi
    ensures forall i, j :: 0 <= i < j < |bs| ==> bs[i].end <= bs[j].start
  {
    forall i, j | 0 <= i < j < |bs|
      ensures bs[i].end <= bs[j].start
    {
      Ordered(bs, lo, hi, least, i, j);
    }
    forall i | 0 <= i < |bs|
      ensures lo <= bs[i].start && bs[i].end <= hi
    {
      if 0 < i {
        Ordered(bs, lo, hi, least, 0, i);
      }
      if i < |bs| - 1 {
        Ordered(bs, lo, hi, least, i, |bs| - 1);
      }
    }
  }

  /** `n` blocks from the `i`-th on give way to `mid`. */
  function Replace(bs: seq<Block>, i: nat, n: nat, mid: seq<Block>): seq<Block>
    requires i + n <= |bs|
  {
    bs[..i] + mid + bs[i + n..]
  }

  lemma ReplaceAt(bs: seq<Block>, i: nat, n: nat, mid: seq<Block>)
    requires i + n <= |bs|
    ensures var r := Replace(bs, i, n, mid);
            && |r| == |bs| - n + |mid|
            && (forall k :: 0 <= k < i ==> r[k] == bs[k])
            && (forall k :: i <= k < i + |mid| ==> r[k] == mid[k - i])
            && (forall k :: i + |mid| <= k < |r| ==> r[k] == bs[k - |mid| + n])
  {
  }

  /** Replacing a stretch by another that tiles the same addresses keeps the whole a tiling. */
  lemma ReplaceChain(bs: seq<Block>, lo: int, hi: int, least: nat, i: nat, n: nat, mid: seq<Block>)
    requires Chain(bs, lo, hi, least) && 0 < n && i + n <= |bs| && mid != []
    requires Chain(mid, bs[i].start, bs[i + n - 1].end, least)
    ensures Chain(Replace(bs, i, n, mid), lo, hi, least)
  {
    ReplaceAt(bs, i, n, mid);
    var r := Replace(bs, i, n, mid);
    forall k | 0 < k < |r|
      ensures Follows(r, k)
    {
      if k <= i {
        assert Follows(bs, k);
      } else if k < i + |mid| {
        assert Follows(mid, k - i);
      } else {
        assert Follows(bs, k - |mid| + n);
      }
    }
  }

  function FreeBefore(bs: seq<Block>, i: nat): bool
    requires i < |bs|
  {
    0 < i && !bs[i - 1].used
  }

  function FreeAfter(bs: seq<Block>, i: nat): bool
    requires i < |bs|
  {
    i + 1 < |bs| && !bs[i + 1].used
  }

  /** An edit leaves no free neighbours when it has none inside, and its ends are used or stand next to used
      blocks. */
  lemma EditedCoalesced(bs: seq<Block>, i: nat, n: nat, mid: seq<Block>)
    requires Coalesced(bs) && i + n <= |bs| && mid != [] && Coalesced(mid)
    requires mid[0].used || i == 0 || bs[i - 1].used
    requires mid[|mid| - 1].used || i + n == |bs| || bs[i + n].used
    ensures Coalesced(Replace(bs, i, n, mid))
  {
    var r := Replace(bs, i, n, mid);
    ReplaceAt(bs, i, n, mid);
    forall k | 0 < k < |r|
      ensures Apart(r, k)
    {
      if k < i {
        assert Apart(bs, k);
      } else if i < k < i + |mid| {
        assert Apart(mid, k - i);
      } else if i + |mid| < k {
        assert Apart(bs, k - |mid| + n);
      }
    }
  }

  /** Where a block ends the next one starts, or the range ends. */
  lemma EndIsStart(bs: seq<Block>, lo: int, hi: int, least: nat, i: nat)
    requires Chain(bs, lo, hi, least) && i < |bs|
    ensures StartOf(bs, i + 1, hi) == bs[i].end
  {
    assert i + 1 < |bs| ==> Follows(bs, i + 1);
  }

  // ---- accounting ----

  /** Total extent of the used blocks, headers included. */
  ghost function UsedSum(bs: seq<Block>): int
  {
    if bs == [] then 0 else (if bs[0].used then bs[0].end - bs[0].start else 0) + UsedSum(bs[1..])
  }

  lemma {:induction false} UsedSumAppend(a: seq<Block>, b: seq<Block>)
    ensures UsedSum(a + b) == UsedSum(a) + UsedSum(b)
  {
    if a == [] {
      assert a + b == b;
    } else {
      UsedSumAppend(a[1..], b);
      assert (a + b)[1..] == a[1..] + b;
    }
  }

  lemma UsedSumReplace(bs: seq<Block>, i: nat, n: nat, mid: seq<Block>)
    requires i + n <= |bs|
    ensures UsedSum(Replace(bs, i, n, mid)) == UsedSum(bs) - UsedSum(bs[i..i + n]) + UsedSum(mid)
  {
    var front, cut, back := bs[..i], bs[i..i + n], bs[i + n..];
    assert bs == front + cut + back;
    UsedSumAppend(front + cut, back);
    UsedSumAppend(front, cut);
    UsedSumAppend(front + mid, back);
    UsedSumAppend(front, mid);
  }

  lemma UsedSumOne(b: Block)
    ensures UsedSum([b]) == if b.used then b.end - b.start else 0
  {
    assert [b][1..] == [];
  }

  lemma UsedSumTwo(a: Block, b: Block)
    ensures UsedSum([a, b]) == UsedSum([a]) + UsedSum([b])
  {
    assert [a, b] == [a] + [b];
    UsedSumAppend([a], [b]);
  }

  lemma ChainTail(bs: seq<Block>, lo: int, hi: int, least: nat)
    requires Chain(bs, lo, hi, least) && bs != []
    ensures Chain(bs[1..], bs[0].end, hi, least)
  {
    var r := bs[1..];
    forall k | 0 < k < |r|
      ensures Follows(r, k)
    {
      assert Follows(bs, k + 1);
    }
    assert 1 < |bs| ==> Follows(bs, 1);
  }

  lemma {:induction false} UsedSumBounds(bs: seq<Block>, lo: int, hi: int, least: nat)
    requires Chain(bs, lo, hi, least)
    ensures 0 <= UsedSum(bs) <= hi - lo
    decreases |bs|
  {
    if bs != [] {
      ChainTail(bs, lo, hi, least);
      UsedSumBounds(bs[1..], bs[0].end, hi, least);
    }
  }

  /** The sum of a weight over all blocks. */
  ghost function Total(bs: seq<Block>, w: Block -> int): int
  {
    if bs == [] then 0 else w(bs[0]) + Total(bs[1..], w)
  }

  lemma {:induction false} TotalAppend(a: seq<Block>, b: seq<Block>, w: Block -> int)
    ensures Total(a + b, w) == Total(a, w) + Total(b, w)
  {
    if a == [] {
      assert a + b == b;
    } else {
      TotalAppend(a[1..], b, w);
      assert (a + b)[1..] == a[1..] + b;
    }
  }

  lemma TotalReplace(bs: seq<Block>, i: nat, n: nat, mid: seq<Block>, w: Block -> int)
    requires i + n <= |bs|
    ensures Total(Replace(bs, i, n, mid), w) == Total(bs, w) - Total(bs[i..i + n], w) + Total(mid, w)
  {
    var front, cut, back := bs[..i], bs[i..i + n], bs[i + n..];
    assert bs == front + cut + back;
    TotalAppend(front + cut, back, w);
    TotalAppend(front, cut, w);
    TotalAppend(front + mid, back, w);
    TotalAppend(front, mid, w);
  }

  lemma TotalOne(b: Block, w: Block -> int)
    ensures Total([b], w) == w(b)
  {
    assert [b][1..] == [];
  }

  lemma TotalTwo(a: Block, b: Block, w: Block -> int)
    ensures Total([a, b], w) == w(a) + w(b)
  {
    assert [a, b] == [a] + [b];
    TotalAppend([a], [b], w);
    TotalOne(a, w);
    TotalOne(b, w);
  }

  // ---- the free blocks ----

  /** Where the free blocks start. */
  ghost function FreeStarts(bs: seq<Block>): set<int>
  {
    set b | b in bs && !b.used :: b.start
  }

  lemma StartsAppend(a: seq<Block>, b: seq<Block>)
    ensures FreeStarts(a + b) == FreeStarts(a) + FreeStarts(b)
  {
    assert forall x: Block :: x in a + b <==> x in a || x in b;
  }

  lemma StartIndex(bs: seq<Block>, i: nat, j: nat, x: int) returns (k: nat)
    requires i <= j <= |bs| && x in FreeStarts(bs[i..j])
    ensures i <= k < j && bs[k].start == x
  {
    var b :| b in bs[i..j] && !b.used && b.start == x;
    k :| i <= k < j && bs[k] == b;
  }

  /** Separate stretches of a tiling have separate starts. */
  lemma StartsApart(bs: seq<Block>, lo: int, hi: int, least: nat, i: nat, j: nat, k: nat)
    requires Chain(bs, lo, hi, least) && 0 < least && i <= j <= k <= |bs|
    ensures FreeStarts(bs[i..j]) !! FreeStarts(bs[j..k])
  {
    forall x | x in FreeStarts(bs[i..j])
      ensures x !in FreeStarts(bs[j..k])
    {
      if x in FreeStarts(bs[j..k]) {
        var a := StartIndex(bs, i, j, x);
        var b := StartIndex(bs, j, k, x);
        Ordered(bs, lo, hi, least, a, b);
        assert false;
      }
    }
  }

  lemma StartsExchange(front: seq<Block>, cut: seq<Block>, back: seq<Block>, mid: seq<Block>)
    requires FreeStarts(front) !! FreeStarts(cut) && FreeStarts(cut) !! FreeStarts(back)
    ensures FreeStarts(front + mid + back) == FreeStarts(front + cut + back) - FreeStarts(cut) + FreeStarts(mid)
  {
    StartsAppend(front + cut, back);
    StartsAppend(front, cut);
    StartsAppend(front + mid, back);
    StartsAppend(front, mid);
  }

  lemma StartsReplace(bs: seq<Block>, lo: int, hi: int, least: nat, i: nat, n: nat, mid: seq<Block>)
    requires Chain(bs, lo, hi, least) && 0 < least && i + n <= |bs|
    ensures FreeStarts(Replace(bs, i, n, mid)) == FreeStarts(bs) - FreeStarts(bs[i..i + n]) + FreeStarts(mid)
  {
    StartsApart(bs, lo, hi, least, 0, i, i + n);
    StartsApart(bs, lo, hi, least, i, i + n, |bs|);
    assert bs[0..i] == bs[..i] && bs[i + n..|bs|] == bs[i + n..];
    assert bs == bs[..i] + bs[i..i + n] + bs[i + n..];
    StartsExchange(bs[..i], bs[i..i + n], bs[i + n..], mid);
  }

  // ---- searching ----

  /** Index of the first free block at or after `i`, or the number of blocks. */
  ghost function FirstFree(bs: seq<Block>, i: nat): (r: nat)
    requires i <= |bs|
    ensures i <= r <= |bs|
    ensures r < |bs| ==> !bs[r].used
    ensures forall k :: i <= k < r ==> bs[k].used
    decreases |bs| - i
  {
    if i == |bs| then i else if !bs[i].used then i else FirstFree(bs, i + 1)
  }

  lemma FirstFreeIs(bs: seq<Block>, i: nat)
    requires i <= |bs| && (forall k :: 0 <= k < i ==> bs[k].used) && (i < |bs| ==> !bs[i].used)
    ensures FirstFree(bs, 0) == i
  {
    var r := FirstFree(bs, 0);
    if r < i {
      assert false;
    }
  }

  // ---- the three edits ----

  /** Block `i` is handed out whole, or its first `n` addresses are and the rest becomes a free block. */
  function Take(bs: seq<Block>, i: nat): seq<Block>
    requires i < |bs|
  {
    Replace(bs, i, 1, [bs[i].(used := true)])
  }

  function Carve(bs: seq<Block>, i: nat, n: int): seq<Block>
    requires i < |bs|
  {
    Replace(bs, i, 1, [Block(bs[i].start, bs[i].start + n, true), Block(bs[i].start + n, bs[i].end, false)])
  }

  /** Blocks `i` and `i + 1` become one free block. */
  ghost function Fuse(bs: seq<Block>, i: nat): seq<Block>
    requires i + 1 < |bs|
  {
    Replace(bs, i, 2, [Block(bs[i].start, bs[i + 1].end, false)])
  }

  /** A free block `i` joined with the following block if that is free ... */
  ghost function Ahead(bs: seq<Block>, i: nat): seq<Block>
    requires i < |bs|
    ensures i < |Ahead(bs, i)|
  {
    if i + 1 < |bs| && !bs[i + 1].used then Fuse(bs, i) else bs
  }

  /** ... and with the one before. */
  ghost function Behind(bs: seq<Block>, i: nat): seq<Block>
    requires i < |bs|
  {
    if 0 < i && !bs[i - 1].used then Fuse(bs, i - 1) else bs
  }

  ghost function Plug(bs: seq<Block>, i: nat): seq<Block>
    requires i < |bs|
  {
    Behind(Ahead(bs, i), i)
  }

  ghost function Free(bs: seq<Block>, i: nat): seq<Block>
    requires i < |bs|
    ensures |Free(bs, i)| == |bs|
  {
    Replace(bs, i, 1, [bs[i].(used := false)])
  }

  ghost function Release(bs: seq<Block>, i: nat): seq<Block>
    requires i < |bs|
  {
    Plug(Free(bs, i), i)
  }

  lemma FuseKeeps(bs: seq<Block>, lo: int, hi: int, least: nat, i: nat)
    requires Chain(bs, lo, hi, least) && i + 1 < |bs| && !bs[i].used && !bs[i + 1].used
    ensures Chain(Fuse(bs, i), lo, hi, least)
    ensures UsedSum(Fuse(bs, i)) == UsedSum(bs)
    ensures |Fuse(bs, i)| == |bs| - 1
    ensures forall k :: 0 <= k < i ==> Fuse(bs, i)[k] == bs[k]
    ensures Fuse(bs, i)[i] == Block(bs[i].start, bs[i + 1].end, false)
    ensures forall k :: i < k < |bs| - 1 ==> Fuse(bs, i)[k] == bs[k + 1]
  {
    var one := Block(bs[i].start, bs[i + 1].end, false);
    assert Follows(bs, i + 1);
    ReplaceChain(bs, lo, hi, least, i, 2, [one]);
    ReplaceAt(bs, i, 2, [one]);
    UsedSumReplace(bs, i, 2, [one]);
    UsedSumOne(one);
    UsedSumOne(bs[i]);
    UsedSumOne(bs[i + 1]);
    UsedSumTwo(bs[i], bs[i + 1]);
    assert bs[i..i + 2] == [bs[i], bs[i + 1]];
  }

  lemma TakeKeeps(bs: seq<Block>, lo: int, hi: int, least: nat, i: nat)
    requires Chain(bs, lo, hi, least) && Coalesced(bs) && i < |bs| && !bs[i].used
    ensures Chain(Take(bs, i), lo, hi, least) && Coalesced(Take(bs, i))
    ensures UsedSum(Take(bs, i)) == UsedSum(bs) + bs[i].end - bs[i].start
    ensures |Take(bs, i)| == |bs| && Take(bs, i)[i] == bs[i].(used := true)
    ensures forall k :: 0 <= k < |bs| && k != i ==> Take(bs, i)[k] == bs[k]
  {
    var one := bs[i].(used := true);
    ReplaceChain(bs, lo, hi, least, i, 1, [one]);
    ReplaceAt(bs, i, 1, [one]);
    OneSum(bs, i, one);
    forall k | 0 < k < |bs|
      ensures Apart(Take(bs, i), k)
    {
      assert Apart(bs, k);
    }
  }

  /** Splitting a block: free before (an allocation) or used before (a block cut short). */
  lemma CarveKeeps(bs: seq<Block>, lo: int, hi: int, least: nat, i: nat, n: int)
    requires Chain(bs, lo, hi, least) && i < |bs| && least <= n && n + least <= bs[i].end - bs[i].start
    ensures var r := Carve(bs, i, n);
            && Chain(r, lo, hi, least)
            && UsedSum(r) == UsedSum(bs) - (if bs[i].used then bs[i].end - bs[i].start else 0) + n
            && |r| == |bs| + 1
            && (forall k :: 0 <= k < i ==> r[k] == bs[k])
            && r[i] == Block(bs[i].start, bs[i].start + n, true)
            && r[i + 1] == Block(bs[i].start + n, bs[i].end, false)
            && (forall k :: i + 1 < k < |r| ==> r[k] == bs[k - 1])
  {
    var a, b := Block(bs[i].start, bs[i].start + n, true), Block(bs[i].start + n, bs[i].end, false);
    ReplaceChain(bs, lo, hi, least, i, 1, [a, b]);
    ReplaceAt(bs, i, 1, [a, b]);
    CarveSum(bs, i, a, b);
  }

  lemma CarveSum(bs: seq<Block>, i: nat, a: Block, b: Block)
    requires i < |bs| && a.used && !b.used
    ensures UsedSum(Replace(bs, i, 1, [a, b])) ==
            UsedSum(bs) - (if bs[i].used then bs[i].end - bs[i].start else 0) + a.end - a.start
  {
    UsedSumReplace(bs, i, 1, [a, b]);
    UsedSumTwo(a, b);
    UsedSumOne(a);
    UsedSumOne(b);
    UsedSumOne(bs[i]);
    assert bs[i..i + 1] == [bs[i]];
  }

  /** Everywhere but around `i` the blocks are coalesced, and `i` is free. */
  ghost predicate CoalescedBut(bs: seq<Block>, i: nat)
  {
    i < |bs| && !bs[i].used && forall k :: 0 < k < |bs| && k != i && k != i + 1 ==> Apart(bs, k)
  }

  lemma AheadKeeps(bs: seq<Block>, lo: int, hi: int, least: nat, i: nat)
    requires Chain(bs, lo, hi, least) && CoalescedBut(bs, i)
    ensures var r := Ahead(bs, i);
            && Chain(r, lo, hi, least) && UsedSum(r) == UsedSum(bs)
            && i < |r| && !r[i].used && (forall k :: 0 < k < |r| && k != i ==> Apart(r, k))
  {
    if i + 1 < |bs| && !bs[i + 1].used {
      FuseKeeps(bs, lo, hi, least, i);
      var r := Fuse(bs, i);
      forall k | 0 < k < |r| && k != i
        ensures Apart(r, k)
      {
        assert if k < i then Apart(bs, k) else i + 2 < |bs| && Apart(bs, k + 1);
      }
    }
  }

  lemma FusedApart(bs: seq<Block>, i: nat, r: seq<Block>)
    requires 0 < i < |bs| && !bs[i - 1].used && !bs[i].used && |r| == |bs| - 1
    requires forall k :: 0 < k < |bs| && k != i ==> Apart(bs, k)
    requires forall k :: 0 <= k < i - 1 ==> r[k] == bs[k]
    requires forall k :: i - 1 < k < |r| ==> r[k] == bs[k + 1]
    ensures Coalesced(r)
  {
    forall k | 0 < k < |r|
      ensures Apart(r, k)
    {
      if k < i {
        assert Apart(bs, k);
      } else {
        assert Apart(bs, k + 1);
      }
    }
  }

  lemma BehindKeeps(bs: seq<Block>, lo: int, hi: int, least: nat, i: nat)
    requires Chain(bs, lo, hi, least) && i < |bs| && !bs[i].used
    requires forall k :: 0 < k < |bs| && k != i ==> Apart(bs, k)
    ensures Chain(Behind(bs, i), lo, hi, least) && Coalesced(Behind(bs, i))
    ensures UsedSum(Behind(bs, i)) == UsedSum(bs)
  {
    if 0 < i && !bs[i - 1].used {
      FuseKeeps(bs, lo, hi, least, i - 1);
      FusedApart(bs, i, Fuse(bs, i - 1));
    } else {
      forall k | 0 < k < |bs|
        ensures Apart(bs, k)
      {
      }
    }
  }

  lemma PlugKeeps(bs: seq<Block>, lo: int, hi: int, least: nat, i: nat)
    requires Chain(bs, lo, hi, least) && CoalescedBut(bs, i)
    ensures Chain(Plug(bs, i), lo, hi, least) && Coalesced(Plug(bs, i))
    ensures UsedSum(Plug(bs, i)) == UsedSum(bs)
  {
    AheadKeeps(bs, lo, hi, least, i);
    BehindKeeps(Ahead(bs, i), lo, hi, least, i);
  }

  lemma FreeKeeps(bs: seq<Block>, lo: int, hi: int, least: nat, i: nat)
    requires Chain(bs, lo, hi, least) && Coalesced(bs) && i < |bs| && bs[i].used
    ensures Chain(Free(bs, i), lo, hi, least) && CoalescedBut(Free(bs, i), i)
    ensures UsedSum(Free(bs, i)) == UsedSum(bs) - (bs[i].end - bs[i].start)
    ensures Free(bs, i)[i] == bs[i].(used := false)
    ensures forall k :: 0 <= k < |bs| && k != i ==> Free(bs, i)[k] == bs[k]
  {
    var one := bs[i].(used := false);
    ReplaceChain(bs, lo, hi, least, i, 1, [one]);
    ReplaceAt(bs, i, 1, [one]);
    OneSum(bs, i, one);
    forall k | 0 < k < |bs| && k != i && k != i + 1
      ensures Apart(Free(bs, i), k)
    {
      assert Apart(bs, k);
    }
  }

  lemma OneSum(bs: seq<Block>, i: nat, one: Block)
    requires i < |bs|
    ensures UsedSum(Replace(bs, i, 1, [one])) == UsedSum(bs) - UsedSum([bs[i]]) + UsedSum([one])
    ensures UsedSum([one]) == if one.used then one.end - one.start else 0
    ensures UsedSum([bs[i]]) == if bs[i].used then bs[i].end - bs[i].start else 0
  {
    UsedSumReplace(bs, i, 1, [one]);
    UsedSumOne(one);
    UsedSumOne(bs[i]);
    assert bs[i..i + 1] == [bs[i]];
  }

  lemma ReleaseKeeps(bs: seq<Block>, lo: int, hi: int, least: nat, i: nat)
    requires Chain(bs, lo, hi, least) && Coalesced(bs) && i < |bs| && bs[i].used
    ensures Chain(Release(bs, i), lo, hi, least) && Coalesced(Release(bs, i))
    ensures UsedSum(Release(bs, i)) == UsedSum(bs) - (bs[i].end - bs[i].start)
  {
    FreeKeeps(bs, lo, hi, least, i);
    PlugKeeps(Free(bs, i), lo, hi, least, i);
  }

  // ---- what the edits leave alone ----

  lemma ReplaceIn(bs: seq<Block>, i: nat, n: nat, mid: seq<Block>, b: Block)
    requires i + n <= |bs|
    ensures b in Replace(bs, i, n, mid) <==> b in bs[..i] || b in mid || b in bs[i + n..]
    ensures b in bs <==> b in bs[..i] || b in bs[i..i + n] || b in bs[i + n..]
  {
    assert bs == bs[..i] + bs[i..i + n] + bs[i + n..];
  }

  lemma FuseKeepsUsed(bs: seq<Block>, i: nat, b: Block)
    requires i + 1 < |bs| && !bs[i].used && !bs[i + 1].used && b.used
    ensures b in Fuse(bs, i) <==> b in bs
  {
    ReplaceIn(bs, i, 2, [Block(bs[i].start, bs[i + 1].end, false)], b);
  }

  lemma PlugKeepsUsed(bs: seq<Block>, i: nat, b: Block)
    requires i < |bs| && !bs[i].used && b.used
    ensures b in Plug(bs, i) <==> b in bs
  {
    var ahead := Ahead(bs, i);
    if i + 1 < |bs| && !bs[i + 1].used {
      FuseKeepsUsed(bs, i, b);
      ReplaceAt(bs, i, 2, [Block(bs[i].start, bs[i + 1].end, false)]);
    }
    if 0 < i && !ahead[i - 1].used {
      FuseKeepsUsed(ahead, i - 1, b);
    }
  }

  /** Releasing a block neither adds nor loses any other used block. */
  lemma ReleaseKeepsUsed(bs: seq<Block>, lo: int, hi: int, least: nat, i: nat, b: Block)
    requires Chain(bs, lo, hi, least) && 0 < least && i < |bs| && bs[i].used && b.used
    ensures b in Release(bs, i) <==> b in bs && b != bs[i]
  {
    var one := bs[i].(used := false);
    ReplaceIn(bs, i, 1, [one], b);
    ReplaceAt(bs, i, 1, [one]);
    PlugKeepsUsed(Free(bs, i), i, b);
    Bounds(bs, lo, hi, least);
  }
}
